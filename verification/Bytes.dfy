/** Bytes, byte-wise exclusive or, and flattening of chunk lists. */
module Bytes {
  type byte = x: int | 0 <= x < 256

  datatype Option<+T> = None | Some(value: T)

  /** Exclusive or of the n low bits of a and b. */
  function XorBits(a: nat, b: nat, n: nat): nat {
    if n == 0 then 0 else (a % 2 + b % 2) % 2 + 2 * XorBits(a / 2, b / 2, n - 1)
  }

  function Power2(n: nat): nat {
    if n == 0 then 1 else 2 * Power2(n - 1)
  }

  lemma {:induction false} XorBitsBound(a: nat, b: nat, n: nat)
    ensures XorBits(a, b, n) < Power2(n)
  {
    if n > 0 {
      XorBitsBound(a / 2, b / 2, n - 1);
    }
  }

  function Xor(a: byte, b: byte): byte {
    XorBitsBound(a, b, 8);
    assert Power2(8) == 256 by { assert Power2(4) == 16; }
    XorBits(a, b, 8)
  }

  lemma Halves(low: nat, rest: nat)
    requires low < 2
    ensures (low + 2 * rest) % 2 == low && (low + 2 * rest) / 2 == rest
  {
  }

  lemma XorBitsStep(a: nat, b: nat, n: nat)
    requires n > 0
    ensures XorBits(a, b, n) == (a % 2 + b % 2) % 2 + 2 * XorBits(a / 2, b / 2, n - 1)
    ensures XorBits(a, b, 0) == 0 && Power2(0) == 1 && Power2(n) == 2 * Power2(n - 1)
  {
  }

  lemma LowBits(a: nat, b: nat)
    ensures ((a % 2 + b % 2) % 2 + b % 2) % 2 == a % 2 && a == a % 2 + 2 * (a / 2)
  {
  }

  lemma HalfBelow(a: nat, p: nat)
    requires a < 2 * p
    ensures a / 2 < p
  {
  }

  /** The involution at n bits, given that at n - 1 bits. */
  lemma XorTwice(a: nat, b: nat, n: nat)
    requires n > 0 && XorBits(XorBits(a / 2, b / 2, n - 1), b / 2, n - 1) == a / 2
    ensures XorBits(XorBits(a, b, n), b, n) == a
  {
    hide XorBits, Power2;
    var low, rest := (a % 2 + b % 2) % 2, XorBits(a / 2, b / 2, n - 1);
    XorBitsStep(a, b, n);
    Halves(low, rest);
    XorBitsStep(low + 2 * rest, b, n);
    LowBits(a, b);
  }

  lemma {:induction false} XorBitsInvolution(a: nat, b: nat, n: nat)
    requires a < Power2(n)
    ensures XorBits(XorBits(a, b, n), b, n) == a
  {
    if n == 0 {
      XorBitsStep(a, b, 1);
    } else {
      hide XorBits, Power2;
      XorBitsStep(a, b, n);
      HalfBelow(a, Power2(n - 1));
      XorBitsInvolution(a / 2, b / 2, n - 1);
      XorTwice(a, b, n);
    }
  }

  /** Applying the same mask byte twice gives the byte back. */
  lemma XorInvolution(a: byte, b: byte)
    ensures Xor(Xor(a, b), b) == a
  {
    assert Power2(8) == 256 by { assert Power2(4) == 16; }
    XorBitsInvolution(a, b, 8);
  }

  /** The bytes of a list of chunks, in order. */
  function Flatten<T>(chunks: seq<seq<T>>): seq<T> {
    if chunks == [] then [] else Flatten(chunks[..|chunks| - 1]) + chunks[|chunks| - 1]
  }

  lemma FlattenSnoc<T>(chunks: seq<seq<T>>, c: seq<T>)
    ensures Flatten(chunks + [c]) == Flatten(chunks) + c && Flatten<T>([]) == []
  {
    assert (chunks + [c])[..|chunks|] == chunks;
  }

  lemma {:induction false} FlattenConcat<T>(a: seq<seq<T>>, b: seq<seq<T>>)
    ensures Flatten(a + b) == Flatten(a) + Flatten(b)
  {
    hide Flatten;
    FlattenSnoc(a, []);
    if b == [] {
      assert a + b == a;
    } else {
      var n := |b| - 1;
      assert b == b[..n] + [b[n]] && a + b == (a + b[..n]) + [b[n]];
      FlattenConcat(a, b[..n]);
      FlattenSnoc(b[..n], b[n]);
      FlattenSnoc(a + b[..n], b[n]);
    }
  }

  lemma FlattenOne<T>(c: seq<T>)
    ensures Flatten([c]) == c
  {
    assert [c][..0] == [];
  }
}

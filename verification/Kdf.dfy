/** Key derivation of internal/crypto/crypto.go over an arbitrary pseudorandom function with 32-byte output. */
module Kdf {
  import opened Bytes
  import Frames

  const HASH_LEN := 32

  type Digest = d: seq<byte> | |d| == HASH_LEN witness seq(HASH_LEN, _ => 0)

  /** HMAC-SHA256, by key and message; only the length of its output matters here. */
  type Prf = (seq<byte>, seq<byte>) -> Digest

  function XorAll(a: Digest, b: Digest): Digest {
    seq(HASH_LEN, i requires 0 <= i < HASH_LEN => Xor(a[i], b[i]))
  }

  // ---- PBKDF2 (section 5.2 of RFC 8018) ----

  /** The four-octet encoding of the block index, most significant octet first. */
  function Int(i: nat): seq<byte> {
    Frames.BigEndian(i, 4)
  }

  /** U_1 = PRF(P, S || INT(i)); U_j = PRF(P, U_{j-1}). */
  function U(prf: Prf, password: seq<byte>, salt: seq<byte>, i: nat, j: nat): Digest
    requires j >= 1
  {
    if j == 1 then prf(password, salt + Int(i)) else prf(password, U(prf, password, salt, i, j - 1))
  }

  /** F(P, S, c, i) = U_1 \xor ... \xor U_c. */
  function F(prf: Prf, password: seq<byte>, salt: seq<byte>, i: nat, c: nat): Digest
    requires c >= 1
  {
    if c == 1 then U(prf, password, salt, i, 1)
    else XorAll(F(prf, password, salt, i, c - 1), U(prf, password, salt, i, c))
  }

  /** T_1 || ... || T_n. */
  function Blocks(prf: Prf, password: seq<byte>, salt: seq<byte>, c: nat, n: nat): (dk: seq<byte>)
    requires c >= 1
    ensures |dk| == n * HASH_LEN
  {
    if n == 0 then [] else Blocks(prf, password, salt, c, n - 1) + F(prf, password, salt, n, c)
  }

  function BlockCount(keyLen: nat): (n: nat)
    ensures keyLen <= n * HASH_LEN < keyLen + HASH_LEN
  {
    (keyLen + HASH_LEN - 1) / HASH_LEN
  }

  function Pbkdf2Spec(prf: Prf, password: seq<byte>, salt: seq<byte>, c: nat, keyLen: nat): (dk: seq<byte>)
    requires c >= 1
    ensures |dk| == keyLen
  {
    Blocks(prf, password, salt, c, BlockCount(keyLen))[..keyLen]
  }

  /** pbkdf2SHA256, with its reused buffers; an iteration count below 1 acts like 1. */
  method Pbkdf2(prf: Prf, password: seq<byte>, salt: seq<byte>, iter: int, keyLen: nat) returns (dk: seq<byte>)
    ensures dk == Pbkdf2Spec(prf, password, salt, if iter < 1 then 1 else iter, keyLen)
  {
    hide Blocks, F;
    ghost var c := if iter < 1 then 1 else iter;
    BlocksSnoc(prf, password, salt, c, 0);
    var numBlocks := (keyLen + HASH_LEN - 1) / HASH_LEN;
    dk := [];
    var u, t := new byte[HASH_LEN](_ => 0), new byte[HASH_LEN](_ => 0);
    var block := 1;
    while block <= numBlocks
      invariant 1 <= block <= numBlocks + 1
      invariant dk == Blocks(prf, password, salt, c, block - 1)
    {
      var blockBytes: seq<byte> := [block / 0x100_0000 % 0x100, block / 0x1_0000 % 0x100, block / 0x100 % 0x100, block % 0x100];
      BlockBytes(block);
      DeriveBlock(prf, password, salt, iter, block, blockBytes, u, t);
      dk := dk + t[..];
      BlocksSnoc(prf, password, salt, c, block - 1);
      block := block + 1;
    }
    dk := dk[..keyLen];
  }

  lemma BlocksSnoc(prf: Prf, password: seq<byte>, salt: seq<byte>, c: nat, n: nat)
    requires c >= 1
    ensures Blocks(prf, password, salt, c, 0) == []
    ensures Blocks(prf, password, salt, c, n + 1) == Blocks(prf, password, salt, c, n) + F(prf, password, salt, n + 1, c)
  {
    hide F;
  }

  lemma BlockBytes(i: nat)
    ensures Int(i) == [i / 0x100_0000 % 0x100, i / 0x1_0000 % 0x100, i / 0x100 % 0x100, i % 0x100]
  {
    assert Frames.BigEndian(i / 0x100_0000, 1) == [i / 0x100_0000 % 0x100] by {
      assert Frames.BigEndian(i / 0x100_0000 / 0x100, 0) == [];
    }
    assert i / 0x100 / 0x100 == i / 0x1_0000 && i / 0x1_0000 / 0x100 == i / 0x100_0000;
    assert Frames.BigEndian(i / 0x1_0000, 2) == Frames.BigEndian(i / 0x100_0000, 1) + [i / 0x1_0000 % 0x100];
    assert Frames.BigEndian(i / 0x100, 3) == Frames.BigEndian(i / 0x1_0000, 2) + [i / 0x100 % 0x100];
  }

  /** The body of the block loop: t becomes T_block, computed in place. */
  method DeriveBlock(prf: Prf, password: seq<byte>, salt: seq<byte>, iter: int, block: nat, blockBytes: seq<byte>,
                     u: array<byte>, t: array<byte>)
    requires u.Length == HASH_LEN && t.Length == HASH_LEN && u != t && blockBytes == Int(block)
    modifies u, t
    ensures t[..] == F(prf, password, salt, block, if iter < 1 then 1 else iter)
  {
    hide Int, Xor;
    Store(t, prf(password, salt + blockBytes));
    Store(u, t[..]);
    var n := 2;
    while n <= iter
      invariant 2 <= n && (n <= iter + 1 || n == 2)
      invariant u[..] == U(prf, password, salt, block, n - 1)
      invariant t[..] == F(prf, password, salt, block, n - 1)
    {
      Store(u, prf(password, u[..]));
      XorInto(t, u);
      n := n + 1;
    }
  }

  /** Sum into the front of an existing buffer, or copy. */
  method Store(buf: array<byte>, d: Digest)
    requires buf.Length == HASH_LEN
    modifies buf
    ensures buf[..] == d
  {
    for i := 0 to HASH_LEN
      invariant forall k :: 0 <= k < i ==> buf[k] == d[k]
    {
      buf[i] := d[i];
    }
  }

  method XorInto(t: array<byte>, u: array<byte>)
    requires t.Length == HASH_LEN && u.Length == HASH_LEN && t != u
    modifies t
    ensures t[..] == XorAll(old(t[..]), u[..])
  {
    for i := 0 to HASH_LEN
      invariant forall k :: 0 <= k < i ==> t[k] == Xor(old(t[k]), u[k])
      invariant forall k :: i <= k < HASH_LEN ==> t[k] == old(t[k])
    {
      t[i] := Xor(t[i], u[i]);
    }
  }

  lemma {:induction false} BlocksPrefix(prf: Prf, password: seq<byte>, salt: seq<byte>, c: nat, m: nat, n: nat)
    requires c >= 1 && m <= n
    ensures Blocks(prf, password, salt, c, m) <= Blocks(prf, password, salt, c, n)
  {
    if m < n {
      BlocksPrefix(prf, password, salt, c, m, n - 1);
    }
  }

  lemma BlockCountMonotone(short: nat, long: nat)
    requires short <= long
    ensures BlockCount(short) <= BlockCount(long)
  {
  }

  /** A shorter key is a prefix of a longer one. */
  lemma Pbkdf2Prefix(prf: Prf, password: seq<byte>, salt: seq<byte>, c: nat, short: nat, long: nat)
    requires c >= 1 && short <= long
    ensures Pbkdf2Spec(prf, password, salt, c, short) <= Pbkdf2Spec(prf, password, salt, c, long)
  {
    BlockCountMonotone(short, long);
    BlocksPrefix(prf, password, salt, c, BlockCount(short), BlockCount(long));
  }

  /** Block i of the key is F of that index alone. */
  lemma {:induction false} BlockAt(prf: Prf, password: seq<byte>, salt: seq<byte>, c: nat, n: nat, i: nat)
    requires c >= 1 && 1 <= i <= n
    ensures Blocks(prf, password, salt, c, n)[(i - 1) * HASH_LEN..i * HASH_LEN] == F(prf, password, salt, i, c)
  {
    hide Blocks, F;
    BlocksSnoc(prf, password, salt, c, n - 1);
    if i < n {
      BlockAt(prf, password, salt, c, n - 1, i);
    }
  }

  // ---- HKDF (RFC 5869) ----

  /** The counter octet of block i: i itself as far as section 2.3 goes, up to 255. */
  function Counter(i: nat): byte {
    i % 256
  }

  /** T(0) = empty; T(i) = HMAC(PRK, T(i-1) | info | i). */
  function T(prf: Prf, prk: seq<byte>, info: seq<byte>, i: nat): seq<byte> {
    if i == 0 then [] else prf(prk, T(prf, prk, info, i - 1) + info + [Counter(i)])
  }

  function Okm(prf: Prf, prk: seq<byte>, info: seq<byte>, n: nat): (okm: seq<byte>)
    ensures |okm| == n * HASH_LEN
  {
    if n == 0 then [] else Okm(prf, prk, info, n - 1) + T(prf, prk, info, n)
  }

  function ExpandSpec(prf: Prf, prk: seq<byte>, info: seq<byte>, length: nat): (okm: seq<byte>)
    ensures |okm| == length
  {
    Okm(prf, prk, info, BlockCount(length))[..length]
  }

  lemma OkmSnoc(prf: Prf, prk: seq<byte>, info: seq<byte>, n: nat)
    ensures T(prf, prk, info, n + 1) == prf(prk, T(prf, prk, info, n) + info + [Counter(n + 1)])
    ensures Okm(prf, prk, info, n + 1) == Okm(prf, prk, info, n) + T(prf, prk, info, n + 1)
  {
    hide Counter;
  }

  lemma NextCounter(n: nat)
    ensures Counter(n + 1) == (Counter(n) + 1) % 256
  {
  }

  /** hkdfExpand; the counter is a byte, and t one buffer, empty at first and overwritten for every block. */
  method HkdfExpand(prf: Prf, prk: seq<byte>, info: seq<byte>, length: nat) returns (out: seq<byte>)
    ensures out == ExpandSpec(prf, prk, info, length)
  {
    hide T, Okm, Counter;
    var t := new byte[HASH_LEN](_ => 0);
    var tLen := 0;
    var okm: seq<byte> := [];
    var i: byte := 1;
    ghost var n := 0;
    ExpandStart(prf, prk, info);
    while |okm| < length
      invariant n <= BlockCount(length) && i == Counter(n + 1)
      invariant okm == Okm(prf, prk, info, n)
      invariant tLen <= HASH_LEN && t[..tLen] == T(prf, prk, info, n)
      decreases length - |okm|
    {
      Store(t, prf(prk, t[..tLen] + info + [i]));
      tLen := HASH_LEN;
      assert t[..tLen] == t[..];
      okm := okm + t[..tLen];
      OkmSnoc(prf, prk, info, n);
      NextCounter(n + 1);
      i := (i + 1) % 256;
      n := n + 1;
    }
    out := okm[..length];
  }

  lemma ExpandStart(prf: Prf, prk: seq<byte>, info: seq<byte>)
    ensures Counter(1) == 1 && Okm(prf, prk, info, 0) == [] && T(prf, prk, info, 0) == []
  {
  }

  /** HKDF: extract with the salt as key, then expand. */
  method Hkdf(prf: Prf, ikm: seq<byte>, salt: seq<byte>, info: seq<byte>, length: nat) returns (out: seq<byte>)
    ensures out == ExpandSpec(prf, prf(salt, ikm), info, length)
  {
    var prk := prf(salt, ikm);
    out := HkdfExpand(prf, prk, info, length);
  }

  /** Within the 255 blocks of the RFC the counter octets are the block numbers, so no two blocks share one. */
  lemma CountersDistinct(length: nat, i: nat, j: nat)
    requires length <= 255 * HASH_LEN && 1 <= i < j <= BlockCount(length)
    ensures Counter(i) == i && Counter(i) != Counter(j)
  {
  }

  lemma {:induction false} OkmPrefix(prf: Prf, prk: seq<byte>, info: seq<byte>, m: nat, n: nat)
    requires m <= n
    ensures Okm(prf, prk, info, m) <= Okm(prf, prk, info, n)
  {
    if m < n {
      OkmPrefix(prf, prk, info, m, n - 1);
    }
  }

  /** A shorter output is a prefix of a longer one. */
  lemma ExpandPrefix(prf: Prf, prk: seq<byte>, info: seq<byte>, short: nat, long: nat)
    requires short <= long
    ensures ExpandSpec(prf, prk, info, short) <= ExpandSpec(prf, prk, info, long)
  {
    BlockCountMonotone(short, long);
    OkmPrefix(prf, prk, info, BlockCount(short), BlockCount(long));
  }
}

/** The RFC 6455 frame codec of internal/websocket/websocket.go. */
module Frames {
  import opened Bytes

  const OP_CONTINUATION: byte := 0x0
  const OP_TEXT: byte := 0x1
  const OP_BINARY: byte := 0x2
  const OP_CLOSE: byte := 0x8
  const OP_PING: byte := 0x9
  const OP_PONG: byte := 0xA

  const MAX_PAYLOAD := 1024 * 1024
  const TWO_TO_63 := 0x8000_0000_0000_0000
  const TWO_TO_64 := 0x1_0000_0000_0000_0000

  // ---- big-endian integers ----

  function BigEndian(n: nat, k: nat): (bs: seq<byte>)
    ensures |bs| == k
  {
    if k == 0 then [] else BigEndian(n / 256, k - 1) + [n % 256]
  }

  function FromBigEndian(bs: seq<byte>): nat {
    if bs == [] then 0 else FromBigEndian(bs[..|bs| - 1]) * 256 + bs[|bs| - 1]
  }

  function Power256(k: nat): nat {
    if k == 0 then 1 else 256 * Power256(k - 1)
  }

  lemma {:induction false} BigEndianRoundTrip(n: nat, k: nat)
    requires n < Power256(k)
    ensures FromBigEndian(BigEndian(n, k)) == n
  {
    if k > 0 {
      BigEndianRoundTrip(n / 256, k - 1);
      assert BigEndian(n, k)[..k - 1] == BigEndian(n / 256, k - 1);
    }
  }

  lemma {:induction false} FromBigEndianRoundTrip(bs: seq<byte>)
    ensures FromBigEndian(bs) < Power256(|bs|)
    ensures BigEndian(FromBigEndian(bs), |bs|) == bs
  {
    if bs != [] {
      var k := |bs| - 1;
      FromBigEndianRoundTrip(bs[..k]);
      assert FromBigEndian(bs) / 256 == FromBigEndian(bs[..k]) && FromBigEndian(bs) % 256 == bs[k];
      assert bs == bs[..k] + [bs[k]];
    }
  }

  lemma Powers()
    ensures Power256(0) == 1 && Power256(2) == 0x1_0000 && Power256(8) == TWO_TO_64
  {
    assert Power256(4) == 0x1_0000_0000 by { assert Power256(2) == 0x1_0000; }
    assert Power256(6) == 0x1_0000_0000_0000;
  }

  // ---- server frames ----

  /** How the length of a payload is written: in the second byte, or in 2 or 8 bytes after it. */
  datatype Form = Short | Medium | Long

  function ExtraBytes(form: Form): nat {
    match form
    case Short => 0
    case Medium => 2
    case Long => 8
  }

  predicate Holds(form: Form, n: nat) {
    match form
    case Short => n < 126
    case Medium => n < 0x1_0000
    case Long => n < TWO_TO_64
  }

  /** The seven length bits of the second byte. */
  function LengthBits(form: Form, n: nat): nat {
    match form
    case Short => n
    case Medium => 126
    case Long => 127
  }

  function SetHighBit(b: byte): byte {
    if b < 0x80 then b + 0x80 else b
  }

  /** encodeFrame: FIN set, unmasked. */
  function EncodeFrame(payload: seq<byte>, op: byte): seq<byte> {
    var n := |payload|;
    var hdr: seq<byte> :=
      if n < 126 then [SetHighBit(op), n]
      else if n <= 65535 then [SetHighBit(op), 126] + BigEndian(n, 2)
      else [SetHighBit(op), 127] + BigEndian(n, 8);
    hdr + payload
  }

  /** Conversion of a 64-bit word to int64. */
  function AsInt64(w: nat): int
    requires w < TWO_TO_64
  {
    if w < TWO_TO_63 then w else w - TWO_TO_64
  }

  /** payloadLenOf: what the write loop subtracts from the buffered amount for a written frame. */
  function PayloadLenOf(frame: seq<byte>): int {
    if |frame| < 2 then 0
    else
      var l := frame[1] % 0x80;
      if l == 126 then if |frame| < 4 then 0 else FromBigEndian(frame[2..4])
      else if l == 127 then
        if |frame| < 10 then 0
        else
          FromBigEndianRoundTrip(frame[2..10]);
          Powers();
          AsInt64(FromBigEndian(frame[2..10]))
      else l
  }

  /** An independent decoder of unmasked frames (section 5.2 of RFC 6455): opcode, payload, rest. */
  function DecodeUnmasked(s: seq<byte>): Option<(byte, seq<byte>, seq<byte>)> {
    if |s| < 2 || s[0] < 0x80 || s[0] / 0x10 != 8 || s[1] >= 0x80 then None
    else
      var form := if s[1] < 126 then Short else if s[1] == 126 then Medium else Long;
      var start := 2 + ExtraBytes(form);
      if |s| < start then None
      else
        var n := if form == Short then s[1] else FromBigEndian(s[2..start]);
        if |s| < start + n then None else Some((s[0] % 0x10, s[start..start + n], s[start + n..]))
  }

  /** What a frame must satisfy: the length reads back, and a decoder finds opcode and payload in front of rest. */
  predicate EncodesAs(frame: seq<byte>, form: Form, payload: seq<byte>, op: byte, rest: seq<byte>) {
    && PayloadLenOf(frame) == |payload|
    && DecodeUnmasked(frame + rest) == Some((op, payload, rest))
    && |frame| == 2 + ExtraBytes(form) + |payload|
  }

  lemma FrameParts(head: seq<byte>, len: seq<byte>, payload: seq<byte>, rest: seq<byte>)
    requires |head| == 2
    ensures var frame := head + len + payload;
            var k := 2 + |len|;
            && frame[2..k] == len && frame[0] == head[0] && frame[1] == head[1]
            && (frame + rest)[0] == head[0] && (frame + rest)[1] == head[1] && (frame + rest)[2..k] == len
            && (frame + rest)[k..k + |payload|] == payload && (frame + rest)[k + |payload|..] == rest
  {
  }

  lemma HighBitBits(op: byte)
    requires op < 0x10
    ensures var b := SetHighBit(op); b >= 0x80 && b / 0x10 == 8 && b % 0x10 == op
  {
  }

  /** A frame whose length field holds the length reads back in every form. */
  lemma FormEncodes(form: Form, op: byte, len: seq<byte>, payload: seq<byte>, rest: seq<byte>)
    requires op < 0x10 && |payload| < TWO_TO_63 && Holds(form, |payload|) && |len| == ExtraBytes(form)
    requires form != Short ==> FromBigEndian(len) == |payload|
    ensures EncodesAs([SetHighBit(op), LengthBits(form, |payload|)] + len + payload, form, payload, op, rest)
  {
    var head: seq<byte> := [SetHighBit(op), LengthBits(form, |payload|)];
    HighBitBits(op);
    FrameParts(head, len, payload, rest);
    hide FromBigEndian, SetHighBit;
  }

  /**
   * encodeFrame writes the shortest length form that holds the payload length, payloadLenOf reads that
   * length back, and a decoder recovers opcode and payload wherever the frame stands in the stream.
   */
  lemma EncodeFrameRoundTrip(payload: seq<byte>, op: byte, rest: seq<byte>)
    requires |payload| < TWO_TO_63 && op < 0x10
    ensures var frame := EncodeFrame(payload, op);
            && PayloadLenOf(frame) == |payload|
            && DecodeUnmasked(frame + rest) == Some((op, payload, rest))
            && (forall form :: Holds(form, |payload|) ==> |frame| <= 2 + ExtraBytes(form) + |payload|)
            && (exists form :: Holds(form, |payload|) && |frame| == 2 + ExtraBytes(form) + |payload|)
  {
    var n := |payload|;
    Powers();
    hide PayloadLenOf, DecodeUnmasked, BigEndian, FromBigEndian, SetHighBit, Power256;
    if n < 126 {
      assert Holds(Short, n);
      FormEncodes(Short, op, [], payload, rest);
      assert [SetHighBit(op), n] + [] == [SetHighBit(op), n];
    } else if n <= 65535 {
      assert Holds(Medium, n);
      BigEndianRoundTrip(n, 2);
      FormEncodes(Medium, op, BigEndian(n, 2), payload, rest);
    } else {
      assert Holds(Long, n);
      BigEndianRoundTrip(n, 8);
      FormEncodes(Long, op, BigEndian(n, 8), payload, rest);
    }
  }

  // ---- slicing ----

  lemma FourParts<T>(a: seq<T>, b: seq<T>, c: seq<T>, d: seq<T>, rest: seq<T>)
    ensures var s := a + b + c + d + rest;
            var i, j, k, m := |a|, |a| + |b|, |a| + |b| + |c|, |a| + |b| + |c| + |d|;
            s[..i] == a && s[i..j] == b && s[j..k] == c && s[k..m] == d && s[m..] == rest
  {
  }

  lemma FourSlices<T>(s: seq<T>, i: nat, j: nat, k: nat, m: nat)
    requires i <= j <= k <= m <= |s|
    ensures s[..m] == s[..i] + s[i..j] + s[j..k] + s[k..m]
  {
  }

  lemma HeaderSlices<T>(s: seq<T>, j: nat, k: nat, m: nat)
    requires 2 <= j <= k <= m <= |s|
    ensures s[..m] == [s[0], s[1]] + s[2..j] + s[j..k] + s[k..m]
  {
    assert s[..2] == [s[0], s[1]];
    FourSlices(s, 2, j, k, m);
  }

  // ---- client frames ----

  datatype Frame = Frame(fin: bool, op: byte, payload: seq<byte>)

  datatype ReadError = Eof | RsvSet | Unmasked | TooBig

  datatype Parsed = Got(frame: Frame, size: nat) | Failed(error: ReadError)

  /** Masking and unmasking (section 5.3 of RFC 6455). */
  function Mask(payload: seq<byte>, key: seq<byte>): (masked: seq<byte>)
    requires |key| == 4
    ensures |masked| == |payload|
  {
    seq(|payload|, i requires 0 <= i < |payload| => Xor(payload[i], key[i % 4]))
  }

  lemma MaskInvolution(payload: seq<byte>, key: seq<byte>)
    requires |key| == 4
    ensures Mask(Mask(payload, key), key) == payload
  {
    forall i | 0 <= i < |payload| ensures Mask(Mask(payload, key), key)[i] == payload[i] {
      XorInvolution(payload[i], key[i % 4]);
    }
  }

  function FormOf(bits: nat): Form {
    if bits == 126 then Medium else if bits == 127 then Long else Short
  }

  /** What readFrame finds at the front of s. */
  function ParseFrame(s: seq<byte>): Parsed {
    if |s| < 2 then Failed(Eof)
    else if s[0] / 0x10 % 8 != 0 then Failed(RsvSet)
    else if s[1] < 0x80 then Failed(Unmasked)
    else ParseRest(s[0], FormOf(s[1] % 0x80), s[1] % 0x80, s)
  }

  /** The same behind the two header bytes, of which b0 is the first and bits the length bits of the second. */
  function ParseRest(b0: byte, form: Form, bits: nat, s: seq<byte>): Parsed
    requires |s| >= 2
  {
    var start := 2 + ExtraBytes(form);
    if |s| < start then Failed(Eof)
    else
      var n := if form == Short then bits else FromBigEndian(s[2..start]);
      if n > MAX_PAYLOAD then Failed(TooBig)
      else if |s| < start + 4 + n then Failed(Eof)
      else
        var payload := Mask(s[start + 4..start + 4 + n], s[start..start + 4]);
        Got(Frame(b0 >= 0x80, b0 % 0x10, payload), start + 4 + n)
  }

  /** A masked client frame with the given key and length form. */
  datatype Wire = Wire(frame: Frame, key: seq<byte>, form: Form)

  predicate WellFormed(w: Wire) {
    |w.key| == 4 && w.frame.op < 0x10 && Holds(w.form, |w.frame.payload|)
  }

  function FirstByte(fin: bool, op: byte): byte
    requires op < 0x10
  {
    (if fin then 0x80 else 0) + op
  }

  lemma FirstByteBits(fin: bool, op: byte)
    requires op < 0x10
    ensures var b := FirstByte(fin, op); b / 0x10 % 8 == 0 && (b >= 0x80 <==> fin) && b % 0x10 == op
  {
  }

  function EncodeWire(w: Wire): seq<byte>
    requires WellFormed(w)
  {
    var n := |w.frame.payload|;
    [FirstByte(w.frame.fin, w.frame.op), 0x80 + LengthBits(w.form, n)]
    + BigEndian(n, ExtraBytes(w.form)) + w.key + Mask(w.frame.payload, w.key)
  }

  /**
   * readFrame recovers a masked frame exactly and consumes exactly its bytes, whatever key and length form
   * the client chose, if and only if the payload is at most MAX_PAYLOAD bytes; a larger one is refused.
   */
  lemma ReadFrameRoundTrip(w: Wire, rest: seq<byte>)
    requires WellFormed(w)
    ensures ParseFrame(EncodeWire(w) + rest)
         == if |w.frame.payload| <= MAX_PAYLOAD then Got(w.frame, |EncodeWire(w)|) else Failed(TooBig)
  {
    var n := |w.frame.payload|;
    var k := ExtraBytes(w.form);
    var s := EncodeWire(w) + rest;
    BigEndianFits(n, w.form);
    MaskInvolution(w.frame.payload, w.key);
    FirstByteBits(w.frame.fin, w.frame.op);
    WireHead(w, rest);
    WireParts(w, rest);
    hide BigEndian, FromBigEndian, Mask, FirstByte, EncodeWire, FormOf, LengthBits;
  }

  /** The two header bytes of an encoded frame. */
  lemma WireHead(w: Wire, rest: seq<byte>)
    requires WellFormed(w)
    ensures var s := EncodeWire(w) + rest;
            && |s| >= 2 && s[0] == FirstByte(w.frame.fin, w.frame.op) && s[1] >= 0x80
            && s[1] % 0x80 == LengthBits(w.form, |w.frame.payload|) && FormOf(s[1] % 0x80) == w.form
            && (w.form == Short ==> LengthBits(w.form, |w.frame.payload|) == |w.frame.payload|)
  {
    hide BigEndian, Mask, FirstByte;
  }

  /** The other parts. */
  lemma WireParts(w: Wire, rest: seq<byte>)
    requires WellFormed(w)
    ensures var s := EncodeWire(w) + rest;
            var n, k := |w.frame.payload|, ExtraBytes(w.form);
            && |EncodeWire(w)| == 2 + k + 4 + n && |s| >= 2 + k + 4 + n
            && s[2..2 + k] == BigEndian(n, k) && s[2 + k..2 + k + 4] == w.key
            && s[2 + k + 4..2 + k + 4 + n] == Mask(w.frame.payload, w.key)
  {
    hide BigEndian, Mask, FirstByte;
    var n, k := |w.frame.payload|, ExtraBytes(w.form);
    var head: seq<byte> := [FirstByte(w.frame.fin, w.frame.op), 0x80 + LengthBits(w.form, n)];
    FourParts(head, BigEndian(n, k), w.key, Mask(w.frame.payload, w.key), rest);
  }

  lemma BigEndianFits(n: nat, form: Form)
    requires Holds(form, n)
    ensures form != Short ==> FromBigEndian(BigEndian(n, ExtraBytes(form))) == n
  {
    Powers();
    if form != Short {
      BigEndianRoundTrip(n, ExtraBytes(form));
    }
  }

  /** What an accepted frame looks like. */
  lemma AcceptedShape(s: seq<byte>)
    requires ParseFrame(s).Got?
    ensures var form := FormOf(s[1] % 0x80);
            var k := ExtraBytes(form);
            var f, size := ParseFrame(s).frame, ParseFrame(s).size;
            && |s| >= size == 2 + k + 4 + |f.payload| && |f.payload| <= MAX_PAYLOAD
            && f.fin == (s[0] >= 0x80) && f.op == s[0] % 0x10 && s[0] / 0x10 % 8 == 0 && s[1] >= 0x80
            && f.payload == Mask(s[2 + k + 4..size], s[2 + k..2 + k + 4])
            && (if form == Short then |f.payload| == s[1] % 0x80 else |f.payload| == FromBigEndian(s[2..2 + k]))
  {
    hide FromBigEndian, FormOf;
  }

  lemma FirstByteSound(b: byte)
    requires b / 0x10 % 8 == 0
    ensures FirstByte(b >= 0x80, b % 0x10) == b
  {
  }

  lemma WireOf(w: Wire, masked: seq<byte>)
    requires |w.key| == 4 && w.frame.op < 0x10 && Holds(w.form, |w.frame.payload|) && Mask(w.frame.payload, w.key) == masked
    ensures WellFormed(w)
    ensures EncodeWire(w) == [FirstByte(w.frame.fin, w.frame.op), 0x80 + LengthBits(w.form, |w.frame.payload|)]
                             + BigEndian(|w.frame.payload|, ExtraBytes(w.form)) + w.key + masked
  {
    hide BigEndian, Mask, FirstByte;
  }

  /** Conversely, readFrame accepts nothing else: whatever it returns was encoded by the bytes it consumed. */
  lemma ReadFrameSound(s: seq<byte>) returns (w: Wire)
    requires ParseFrame(s).Got?
    ensures WellFormed(w) && w.frame == ParseFrame(s).frame && |w.frame.payload| <= MAX_PAYLOAD
    ensures ParseFrame(s).size <= |s| && s[..ParseFrame(s).size] == EncodeWire(w)
  {
    AcceptedShape(s);
    LengthFieldSound(s);
    hide *;
    var form := FormOf(s[1] % 0x80);
    var k := ExtraBytes(form);
    var frame, size := ParseFrame(s).frame, ParseFrame(s).size;
    w := Wire(frame, s[2 + k..2 + k + 4], form);
    MaskInvolution(s[2 + k + 4..size], w.key);
    FirstByteSound(s[0]);
    HeaderSlices(s, 2 + k, 2 + k + 4, size);
    WireOf(w, s[2 + k + 4..size]);
  }

  /** A length that was read from length bits and length bytes fits its form, and is encoded back to them. */
  lemma LengthEncodes(bits: nat, bs: seq<byte>, n: nat)
    requires var form := FormOf(bits);
             bits < 0x80 && |bs| == ExtraBytes(form) && n == if form == Short then bits else FromBigEndian(bs)
    ensures Holds(FormOf(bits), n) && BigEndian(n, |bs|) == bs && LengthBits(FormOf(bits), n) == bits
  {
    Powers();
    FromBigEndianRoundTrip(bs);
    if |bs| > 0 {
      hide BigEndian, FromBigEndian, Power256;
    }
  }

  lemma LengthFieldSound(s: seq<byte>)
    requires ParseFrame(s).Got?
    ensures var form := FormOf(s[1] % 0x80);
            var k := ExtraBytes(form);
            var n := |ParseFrame(s).frame.payload|;
            && 2 + k <= |s| && Holds(form, n) && BigEndian(n, k) == s[2..2 + k]
            && 0x80 + LengthBits(form, n) == s[1]
  {
    hide *;
    AcceptedShape(s);
    var k := ExtraBytes(FormOf(s[1] % 0x80));
    LengthEncodes(s[1] % 0x80, s[2..2 + k], |ParseFrame(s).frame.payload|);
  }
}

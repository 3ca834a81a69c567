/** The inbound side of the WebSocket transport: readFrame's buffer handling and readLoop. */
module Reader {
  import opened Bytes
  import opened Frames

  // ---- the buffered reader ----

  /** The bytes a connection still has to deliver; a read past their end fails. */
  class Input {
    var data: seq<byte>

    constructor (data: seq<byte>)
      ensures this.data == data
    {
      this.data := data;
    }

    /** io.ReadFull into a buffer of n bytes; None at the end of the input. */
    method ReadFull(n: nat) returns (got: Option<seq<byte>>)
      modifies this
      ensures if |old(data)| < n then got == None && data == old(data)
              else got == Some(old(data)[..n]) && data == old(data)[n..]
    {
      if |data| < n {
        return None;
      }
      got := Some(data[..n]);
      data := data[n..];
    }
  }

  /** The in-place unmasking loop. */
  method Unmask(payload: array<byte>, mask: seq<byte>)
    requires |mask| == 4
    modifies payload
    ensures payload[..] == Mask(old(payload[..]), mask)
  {
    for i := 0 to payload.Length
      invariant forall k :: 0 <= k < i ==> payload[k] == Xor(old(payload[k]), mask[k % 4])
      invariant forall k :: i <= k < payload.Length ==> payload[k] == old(payload[k])
    {
      payload[i] := Xor(payload[i], mask[i % 4]);
    }
  }

  /** The extended length, if the seven length bits announce one. */
  method ReadLength(br: Input, bits: nat) returns (length: Option<nat>)
    requires bits < 0x80
    modifies br
    ensures var k := ExtraBytes(FormOf(bits));
            if |old(br.data)| < k then length == None
            else
              && length == Some(if FormOf(bits) == Short then bits else FromBigEndian(old(br.data)[..k]))
              && br.data == old(br.data)[k..]
  {
    hide FromBigEndian;
    if bits == 126 {
      var lenBuf := br.ReadFull(2);
      return if lenBuf == None then None else Some(FromBigEndian(lenBuf.value));
    }
    if bits == 127 {
      var lenBuf := br.ReadFull(8);
      return if lenBuf == None then None else Some(FromBigEndian(lenBuf.value));
    }
    assert br.data == br.data[0..];
    length := Some(bits);
  }

  /** The mask and the payload, unmasked in place. */
  method ReadPayload(br: Input, length: nat) returns (payload: Option<seq<byte>>)
    modifies br
    ensures if |old(br.data)| < 4 + length then payload == None
            else
              && payload == Some(Mask(old(br.data)[4..4 + length], old(br.data)[..4]))
              && br.data == old(br.data)[4 + length..]
  {
    hide Mask;
    ghost var s := br.data;
    var mask := br.ReadFull(4);
    if mask == None {
      return None;
    }
    var body := br.ReadFull(length);
    if body == None {
      return None;
    }
    assert body.value == s[4..4 + length];
    var buf := new byte[length](i requires 0 <= i < |body.value| => body.value[i]);
    assert buf[..] == body.value;
    Unmask(buf, mask.value);
    payload := Some(buf[..]);
  }

  /** What ParseFrame makes of an accepted header, with everything behind it. */
  function ParseBehind(b0: byte, bits: nat, rest: seq<byte>): Parsed {
    var form := FormOf(bits);
    var k := ExtraBytes(form);
    if |rest| < k then Failed(Eof)
    else
      var n := if form == Short then bits else FromBigEndian(rest[..k]);
      if n > MAX_PAYLOAD then Failed(TooBig)
      else if |rest[k..]| < 4 + n then Failed(Eof)
      else Got(Frame(b0 >= 0x80, b0 % 0x10, Mask(rest[k..][4..4 + n], rest[k..][..4])), 2 + k + 4 + n)
  }

  lemma ParseTail(s: seq<byte>)
    requires |s| >= 2 && s[0] / 0x10 % 8 == 0 && s[1] >= 0x80
    ensures ParseFrame(s) == ParseBehind(s[0], s[1] % 0x80, s[2..])
  {
    assert ParseFrame(s) == ParseRest(s[0], FormOf(s[1] % 0x80), s[1] % 0x80, s);
    hide FromBigEndian, Mask, FormOf, ParseFrame;
    var k := ExtraBytes(FormOf(s[1] % 0x80));
    if 2 + k <= |s| {
      SliceOfTail(s, 2, 0, k);
      TailOf(s, k, 0);
      var n := if FormOf(s[1] % 0x80) == Short then s[1] % 0x80 else FromBigEndian(s[2..2 + k]);
      if 2 + k + 4 + n <= |s| {
        SliceOfTail(s, 2 + k, 0, 4);
        SliceOfTail(s, 2 + k, 4, 4 + n);
      }
    }
  }

  lemma SliceOfTail(s: seq<byte>, from: nat, i: nat, j: nat)
    requires i <= j && from + j <= |s|
    ensures s[from..][i..j] == s[from + i..from + j] && (i == 0 ==> s[from..][..j] == s[from..from + j])
  {
  }

  lemma TailOf(s: seq<byte>, k: nat, n: nat)
    requires 2 + k + n <= |s|
    ensures s[2..][k..] == s[2 + k..] && s[2..][k..][n..] == s[2 + k + n..]
  {
  }

  /** readFrame. */
  method ReadFrame(br: Input) returns (r: Parsed)
    modifies br
    ensures r == ParseFrame(old(br.data))
    ensures r.Got? ==> r.size <= |old(br.data)| && br.data == old(br.data)[r.size..]
  {
    ghost var s := br.data;
    var head := br.ReadFull(2);
    if head == None {
      return Failed(Eof);
    }
    var b2 := head.value;
    if b2[0] / 0x10 % 8 != 0 {
      return Failed(RsvSet);
    }
    if b2[1] < 0x80 {
      return Failed(Unmasked);
    }
    ParseTail(s);
    hide ParseFrame, FromBigEndian, Mask, FormOf;
    var length := ReadLength(br, b2[1] % 0x80);
    if length == None {
      return Failed(Eof);
    }
    if length.value > MAX_PAYLOAD {
      return Failed(TooBig);
    }
    ghost var k := ExtraBytes(FormOf(s[1] % 0x80));
    var payload := ReadPayload(br, length.value);
    if payload == None {
      return Failed(Eof);
    }
    TailOf(s, k, 4 + length.value);
    r := Got(Frame(b2[0] >= 0x80, b2[0] % 0x10, payload.value), FrameSize(b2[1] % 0x80, length.value));
  }

  function FrameSize(bits: nat, length: nat): nat {
    2 + ExtraBytes(FormOf(bits)) + 4 + length
  }

  // ---- readLoop ----

  /** What the read loop does for the rest of the connection to see. */
  datatype Action =
    | Deliver(payload: seq<byte>, isBinary: bool)
    | AnswerPing(ping: seq<byte>)
    | EchoClose(code: int, reason: seq<byte>)
    | Closed(closeCode: int)

  /** The message being assembled: fragBuf and fragOp. */
  datatype Fragments = Fragments(buf: seq<byte>, op: byte)

  datatype Handled = Handled(next: Fragments, actions: seq<Action>, stop: bool)

  function ParseClose(payload: seq<byte>): (int, seq<byte>) {
    if |payload| < 2 then (1000, []) else (FromBigEndian(payload[..2]), payload[2..])
  }

  /** One frame through the read loop. */
  function Handle(st: Fragments, f: Frame): Handled {
    if f.op == OP_PING then Handled(st, [AnswerPing(f.payload)], false)
    else if f.op == OP_PONG then Handled(st, [], false)
    else if f.op == OP_CLOSE then
      var (code, reason) := ParseClose(f.payload);
      Handled(st, [EchoClose(code, reason), Closed(code)], true)
    else if f.op == OP_TEXT || f.op == OP_BINARY then
      if f.fin then Handled(st, [Deliver(f.payload, f.op == OP_BINARY)], false)
      else Handled(Fragments(f.payload, f.op), [], false)
    else if f.op == OP_CONTINUATION then
      var buf := st.buf + f.payload;
      if |buf| > MAX_PAYLOAD then Handled(st.(buf := buf), [Closed(1009)], true)
      else if f.fin then Handled(st.(buf := []), [Deliver(buf, st.op == OP_BINARY)], false)
      else Handled(st.(buf := buf), [], false)
    else Handled(st, [Closed(1002)], true)
  }

  lemma ParsedSize(s: seq<byte>)
    ensures ParseFrame(s).Got? ==> 0 < ParseFrame(s).size <= |s|
  {
  }

  /** Everything the read loop does with the bytes s. */
  function Loop(st: Fragments, s: seq<byte>): seq<Action>
    decreases |s|
  {
    ParsedSize(s);
    match ParseFrame(s)
    case Failed(_) => [Closed(-1)]
    case Got(f, size) =>
      var h := Handle(st, f);
      if h.stop then h.actions else h.actions + Loop(h.next, s[size..])
  }

  lemma LoopStep(st: Fragments, s: seq<byte>)
    ensures ParseFrame(s).Failed? ==> Loop(st, s) == [Closed(-1)]
    ensures ParseFrame(s).Got? ==>
              var h := Handle(st, ParseFrame(s).frame);
              && 0 < ParseFrame(s).size <= |s|
              && Loop(st, s) == if h.stop then h.actions else h.actions + Loop(h.next, s[ParseFrame(s).size..])
  {
    hide ParseFrame, Handle;
    ParsedSize(s);
  }

  method ReadLoop(br: Input) returns (actions: seq<Action>)
    modifies br
    ensures actions == Loop(Fragments([], 0), old(br.data))
  {
    hide ParseFrame, Handle, Loop;
    var st := Fragments([], 0);
    actions := [];
    while true
      invariant actions + Loop(st, br.data) == Loop(Fragments([], 0), old(br.data))
      decreases |br.data|
    {
      LoopStep(st, br.data);
      var frame := ReadFrame(br);
      if frame.Failed? {
        actions := actions + [Closed(-1)];
        return;
      }
      var h := HandleFrame(st, frame.frame);
      assert actions + (h.actions + Loop(h.next, br.data)) == actions + h.actions + Loop(h.next, br.data);
      actions := actions + h.actions;
      st := h.next;
      if h.stop {
        return;
      }
    }
  }

  /** The switch inside readLoop. */
  method HandleFrame(st: Fragments, frame: Frame) returns (h: Handled)
    ensures h == Handle(st, frame)
  {
    hide FromBigEndian;
    var Fragments(fragBuf, fragOp) := st;
    var op, payload := frame.op, frame.payload;
    var did: seq<Action>, stop := [], false;
    if op == OP_PING {
      did := [AnswerPing(payload)];
    } else if op == OP_PONG {
    } else if op == OP_CLOSE {
      var (code, reason) := ParseClose(payload);
      did, stop := [EchoClose(code, reason), Closed(code)], true;
    } else if op == OP_TEXT || op == OP_BINARY {
      if !frame.fin {
        fragBuf, fragOp := payload, op;
      } else {
        did := [Deliver(payload, op == OP_BINARY)];
      }
    } else if op == OP_CONTINUATION {
      fragBuf := fragBuf + payload;
      if |fragBuf| > MAX_PAYLOAD {
        did, stop := [Closed(1009)], true;
      } else if frame.fin {
        did := [Deliver(fragBuf, fragOp == OP_BINARY)];
        fragBuf := [];
      }
    } else {
      did, stop := [Closed(1002)], true;
    }
    h := Handled(Fragments(fragBuf, fragOp), did, stop);
  }
}

/** Fragment reassembly by the read loop (section 5.4 of RFC 6455), down to the bytes on the wire. */
module Reassembly {
  import opened Bytes
  import opened Frames
  import opened Reader

  // ---- frame streams ----

  /** A run of frames none of which ends the loop. */
  function RunFrames(st: Fragments, frames: seq<Frame>): Handled {
    if frames == [] then Handled(st, [], false)
    else
      var before := RunFrames(st, frames[..|frames| - 1]);
      if before.stop then before
      else
        var last := Handle(before.next, frames[|frames| - 1]);
        Handled(last.next, before.actions + last.actions, last.stop)
  }

  lemma {:induction false} FramesConcat(st: Fragments, a: seq<Frame>, b: seq<Frame>)
    requires !RunFrames(st, a).stop
    ensures var x := RunFrames(st, a);
            var y := RunFrames(x.next, b);
            RunFrames(st, a + b) == Handled(y.next, x.actions + y.actions, y.stop)
  {
    hide Handle;
    if b == [] {
      assert a + b == a;
    } else {
      assert (a + b)[..|a + b| - 1] == a + b[..|b| - 1];
      FramesConcat(st, a, b[..|b| - 1]);
    }
  }

  /** Frames on the wire, each with its own key and length form. */
  predicate AllWellFormed(ws: seq<Wire>) {
    forall i :: 0 <= i < |ws| ==> WellFormed(ws[i]) && |ws[i].frame.payload| <= MAX_PAYLOAD
  }

  function EncodeAll(ws: seq<Wire>): seq<byte>
    requires AllWellFormed(ws)
  {
    if ws == [] then [] else EncodeWire(ws[0]) + EncodeAll(ws[1..])
  }

  function Decoded(ws: seq<Wire>): seq<Frame> {
    seq(|ws|, i requires 0 <= i < |ws| => ws[i].frame)
  }

  /** Reading n frames in a row: the frames, and the bytes left over. */
  function ReadMany(s: seq<byte>, n: nat): Option<(seq<Frame>, seq<byte>)> {
    if n == 0 then Some(([], s))
    else
      ParsedSize(s);
      match ParseFrame(s)
      case Failed(_) => None
      case Got(f, size) =>
        match ReadMany(s[size..], n - 1)
        case None => None
        case Some((fs, rest)) => Some(([f] + fs, rest))
  }

  /** Repeated readFrame recovers any concatenation of masked frames and consumes exactly its bytes. */
  lemma {:induction false} FrameStreamRoundTrip(ws: seq<Wire>, rest: seq<byte>)
    requires AllWellFormed(ws)
    ensures ReadMany(EncodeAll(ws) + rest, |ws|) == Some((Decoded(ws), rest))
  {
    hide ParseFrame, EncodeWire;
    if ws == [] {
      assert [] + rest == rest;
    } else {
      var tail := EncodeAll(ws[1..]) + rest;
      assert EncodeAll(ws) + rest == EncodeWire(ws[0]) + tail;
      ReadFrameRoundTrip(ws[0], tail);
      assert (EncodeWire(ws[0]) + tail)[|EncodeWire(ws[0])|..] == tail;
      FrameStreamRoundTrip(ws[1..], rest);
      assert Decoded(ws) == [ws[0].frame] + Decoded(ws[1..]);
    }
  }

  lemma LoopOverFrame(st: Fragments, w: Wire, tail: seq<byte>)
    requires WellFormed(w) && |w.frame.payload| <= MAX_PAYLOAD
    ensures var h := Handle(st, w.frame);
            Loop(st, EncodeWire(w) + tail) == if h.stop then h.actions else h.actions + Loop(h.next, tail)
  {
    hide ParseFrame, EncodeWire, Handle, Loop;
    ReadFrameRoundTrip(w, tail);
    assert (EncodeWire(w) + tail)[|EncodeWire(w)|..] == tail;
    LoopStep(st, EncodeWire(w) + tail);
  }

  /** The loop over bytes is the loop over the frames they encode. */
  lemma {:induction false} LoopOverWire(st: Fragments, ws: seq<Wire>, rest: seq<byte>)
    requires AllWellFormed(ws) && !RunFrames(st, Decoded(ws)).stop
    ensures var h := RunFrames(st, Decoded(ws));
            Loop(st, EncodeAll(ws) + rest) == h.actions + Loop(h.next, rest)
    decreases |ws|
  {
    hide *;
    WiresUnfold(st, ws, rest);
    if ws == [] {
      assert [] + Loop(st, rest) == Loop(st, rest);
    } else {
      var tail := EncodeAll(ws[1..]) + rest;
      var h := Handle(st, ws[0].frame);
      LoopOverFrame(st, ws[0], tail);
      FramesCons(st, ws[0].frame, Decoded(ws[1..]));
      LoopOverWire(h.next, ws[1..], rest);
      var g := RunFrames(h.next, Decoded(ws[1..]));
      assert h.actions + (g.actions + Loop(g.next, rest)) == h.actions + g.actions + Loop(g.next, rest);
    }
  }

  lemma WiresUnfold(st: Fragments, ws: seq<Wire>, rest: seq<byte>)
    requires AllWellFormed(ws)
    ensures ws == [] ==> EncodeAll(ws) + rest == rest && RunFrames(st, Decoded(ws)) == Handled(st, [], false)
    ensures ws != [] ==>
              && WellFormed(ws[0]) && |ws[0].frame.payload| <= MAX_PAYLOAD && AllWellFormed(ws[1..])
              && EncodeAll(ws) + rest == EncodeWire(ws[0]) + (EncodeAll(ws[1..]) + rest)
              && Decoded(ws) == [ws[0].frame] + Decoded(ws[1..])
  {
    hide EncodeWire, Handle, WellFormed;
  }

  lemma FramesOne(st: Fragments, f: Frame)
    ensures RunFrames(st, [f]) == Handle(st, f)
  {
    assert [f][..0] == [];
    assert [] + Handle(st, f).actions == Handle(st, f).actions;
  }

  /** Running the first frame, then the others. */
  lemma {:induction false} FramesCons(st: Fragments, f: Frame, fs: seq<Frame>)
    ensures var h := Handle(st, f);
            RunFrames(st, [f] + fs) ==
              if h.stop then h else var g := RunFrames(h.next, fs); Handled(g.next, h.actions + g.actions, g.stop)
    decreases |fs|
  {
    hide Handle;
    FramesOne(st, f);
    if !Handle(st, f).stop {
      FramesConcat(st, [f], fs);
    } else if fs == [] {
      assert [f] + fs == [f];
    } else {
      var n := |fs| - 1;
      assert ([f] + fs)[..|[f] + fs| - 1] == [f] + fs[..n];
      FramesCons(st, f, fs[..n]);
    }
  }

  // ---- messages and their fragmentations ----

  /** One fragment of a message, and the control frames the client sends before it. */
  datatype Part = Part(controls: seq<Frame>, piece: seq<byte>)

  datatype Message = Message(parts: seq<Part>, isBinary: bool)

  function Pieces(parts: seq<Part>): seq<seq<byte>> {
    seq(|parts|, i requires 0 <= i < |parts| => parts[i].piece)
  }

  function Payload(m: Message): seq<byte> {
    Flatten(Pieces(m.parts))
  }

  predicate IsKeepalive(f: Frame) {
    f.op == OP_PING || f.op == OP_PONG
  }

  /** A message of at most MAX_PAYLOAD bytes, in one or more fragments, with pings and pongs in between. */
  predicate Legal(m: Message) {
    && m.parts != [] && |Payload(m)| <= MAX_PAYLOAD
    && forall i, j :: 0 <= i < |m.parts| && 0 <= j < |m.parts[i].controls| ==> IsKeepalive(m.parts[i].controls[j])
  }

  /** The frames of the first n parts. */
  function FramesOf(m: Message, n: nat): seq<Frame>
    requires n <= |m.parts|
  {
    if n == 0 then []
    else
      FramesOf(m, n - 1) + m.parts[n - 1].controls + [Frame(n == |m.parts|, OpOf(m, n), m.parts[n - 1].piece)]
  }

  function FramesOfAll(ms: seq<Message>): seq<Frame> {
    if ms == [] then [] else FramesOfAll(ms[..|ms| - 1]) + FramesOf(ms[|ms| - 1], |ms[|ms| - 1].parts|)
  }

  /** The messages handed to the application, in order. */
  function Delivered(actions: seq<Action>): seq<Action> {
    if actions == [] then []
    else
      var last := actions[|actions| - 1];
      Delivered(actions[..|actions| - 1]) + if last.Deliver? then [last] else []
  }

  lemma {:induction false} DeliveredConcat(a: seq<Action>, b: seq<Action>)
    ensures Delivered(a + b) == Delivered(a) + Delivered(b)
  {
    if b == [] {
      assert a + b == a;
    } else {
      assert (a + b)[..|a + b| - 1] == a + b[..|b| - 1];
      DeliveredConcat(a, b[..|b| - 1]);
    }
  }

  /** The answers to control frames: a pong for every ping. */
  function Answers(controls: seq<Frame>): seq<Action> {
    if controls == [] then []
    else
      var last := controls[|controls| - 1];
      Answers(controls[..|controls| - 1]) + if last.op == OP_PING then [AnswerPing(last.payload)] else []
  }

  lemma {:induction false} KeepalivesAnswered(st: Fragments, fs: seq<Frame>)
    requires forall j :: 0 <= j < |fs| ==> IsKeepalive(fs[j])
    ensures RunFrames(st, fs) == Handled(st, Answers(fs), false)
  {
    if fs != [] {
      KeepalivesAnswered(st, fs[..|fs| - 1]);
    }
  }

  function Expected(m: Message): Action {
    Deliver(Payload(m), m.isBinary)
  }

  function OpOf(m: Message, n: nat): byte {
    if n > 1 then OP_CONTINUATION else if m.isBinary then OP_BINARY else OP_TEXT
  }

  /** What the loop has collected after the first n parts, when the message is not complete yet. */
  function Partial(m: Message, n: nat): Fragments
    requires n <= |m.parts|
  {
    Fragments(Flatten(Pieces(m.parts[..n])), if m.isBinary then OP_BINARY else OP_TEXT)
  }

  /** The data frame of part n. */
  lemma DataFrame(st: Fragments, m: Message, n: nat)
    requires Legal(m) && 0 < n <= |m.parts| && (n > 1 ==> st == Partial(m, n - 1))
    ensures var h := Handle(st, Frame(n == |m.parts|, OpOf(m, n), m.parts[n - 1].piece));
            && !h.stop
            && (n < |m.parts| ==> h.next == Partial(m, n))
            && h.actions == if n == |m.parts| then [Expected(m)] else []
  {
    PiecesGrow(m, n);
    hide Flatten;
    if n == 1 {
      assert [] + m.parts[0].piece == m.parts[0].piece;
    }
  }

  /** What the loop does for the first n parts: answer the pings, and deliver the message at its end. */
  function ActionsOf(m: Message, n: nat): seq<Action>
    requires n <= |m.parts|
  {
    if n == 0 then []
    else ActionsOf(m, n - 1) + (Answers(m.parts[n - 1].controls) + if n == |m.parts| then [Expected(m)] else [])
  }

  function ActionsOfAll(ms: seq<Message>): seq<Action> {
    if ms == [] then [] else ActionsOfAll(ms[..|ms| - 1]) + ActionsOf(ms[|ms| - 1], |ms[|ms| - 1].parts|)
  }

  /** The frames of part n: its control frames, then its data frame. */
  lemma PartFrames(st: Fragments, m: Message, n: nat)
    requires Legal(m) && 0 < n <= |m.parts| && (n > 1 ==> st == Partial(m, n - 1))
    ensures var h := RunFrames(st, m.parts[n - 1].controls + [Frame(n == |m.parts|, OpOf(m, n), m.parts[n - 1].piece)]);
            && !h.stop
            && (n < |m.parts| ==> h.next == Partial(m, n))
            && h.actions == Answers(m.parts[n - 1].controls) + if n == |m.parts| then [Expected(m)] else []
  {
    var controls := m.parts[n - 1].controls;
    var f := Frame(n == |m.parts|, OpOf(m, n), m.parts[n - 1].piece);
    KeepalivesAnswered(st, controls);
    DataFrame(st, m, n);
    hide Handle, RunFrames, Partial, Payload, Answers;
    FramesConcat(st, controls, [f]);
    FramesOne(st, f);
  }

  /** After the first n parts: everything so far is collected, pings are answered, and a complete message is delivered. */
  lemma {:induction false} PartsCollected(st: Fragments, m: Message, n: nat)
    requires Legal(m) && n <= |m.parts|
    ensures var h := RunFrames(st, FramesOf(m, n));
            && !h.stop
            && (0 < n < |m.parts| ==> h.next == Partial(m, n))
            && h.actions == ActionsOf(m, n)
  {
    hide *;
    FramesOfSteps(st, m, n);
    if n > 0 {
      PartsCollected(st, m, n - 1);
      var before := RunFrames(st, FramesOf(m, n - 1));
      PartFrames(before.next, m, n);
      FramesConcat(st, FramesOf(m, n - 1),
                   m.parts[n - 1].controls + [Frame(n == |m.parts|, OpOf(m, n), m.parts[n - 1].piece)]);
    }
  }

  lemma FramesOfSteps(st: Fragments, m: Message, n: nat)
    requires Legal(m) && n <= |m.parts|
    ensures |m.parts| > 0
    ensures n == 0 ==> RunFrames(st, FramesOf(m, n)) == Handled(st, [], false) && ActionsOf(m, n) == []
    ensures n > 0 ==>
              var part := m.parts[n - 1].controls + [Frame(n == |m.parts|, OpOf(m, n), m.parts[n - 1].piece)];
              && FramesOf(m, n) == FramesOf(m, n - 1) + part
              && ActionsOf(m, n) == ActionsOf(m, n - 1)
                   + (Answers(m.parts[n - 1].controls) + if n == |m.parts| then [Expected(m)] else [])
  {
    hide Handle, OpOf, Answers, Expected;
  }

  lemma DeliveredOne(a: Action)
    ensures Delivered([]) == []
    ensures Delivered([a]) == if a.Deliver? then [a] else []
  {
    assert [a][..0] == [];
  }

  lemma PiecesGrow(m: Message, n: nat)
    requires 0 < n <= |m.parts|
    ensures Flatten(Pieces(m.parts[..n])) == Flatten(Pieces(m.parts[..n - 1])) + m.parts[n - 1].piece
    ensures Flatten(Pieces(m.parts[..0])) == []
    ensures |Flatten(Pieces(m.parts[..n]))| <= |Payload(m)|
    ensures n == |m.parts| ==> Flatten(Pieces(m.parts[..n])) == Payload(m)
  {
    assert Pieces(m.parts[..n]) == Pieces(m.parts[..n - 1]) + [m.parts[n - 1].piece];
    assert Pieces(m.parts[..n])[..n - 1] == Pieces(m.parts[..n - 1]);
    assert Pieces(m.parts) == Pieces(m.parts[..n]) + Pieces(m.parts[n..]);
    FlattenConcat(Pieces(m.parts[..n]), Pieces(m.parts[n..]));
    if n == |m.parts| {
      assert m.parts[..n] == m.parts;
    }
  }

  function ExpectedAll(ms: seq<Message>): seq<Action> {
    seq(|ms|, i requires 0 <= i < |ms| => Expected(ms[i]))
  }

  /** The frames of any legal messages: every ping is answered and every message delivered, in order, nothing else. */
  lemma {:induction false} MessagesReassembled(st: Fragments, ms: seq<Message>)
    requires forall i :: 0 <= i < |ms| ==> Legal(ms[i])
    ensures var h := RunFrames(st, FramesOfAll(ms)); !h.stop && h.actions == ActionsOfAll(ms)
  {
    hide *;
    FramesOfAllSteps(st, ms);
    if ms != [] {
      var n := |ms| - 1;
      MessagesReassembled(st, ms[..n]);
      var before := RunFrames(st, FramesOfAll(ms[..n]));
      PartsCollected(before.next, ms[n], |ms[n].parts|);
      FramesConcat(st, FramesOfAll(ms[..n]), FramesOf(ms[n], |ms[n].parts|));
    }
  }

  lemma FramesOfAllSteps(st: Fragments, ms: seq<Message>)
    ensures ms == [] ==> RunFrames(st, FramesOfAll(ms)) == Handled(st, [], false) && ActionsOfAll(ms) == []
    ensures ms != [] ==>
              var n := |ms| - 1;
              && FramesOfAll(ms) == FramesOfAll(ms[..n]) + FramesOf(ms[n], |ms[n].parts|)
              && ActionsOfAll(ms) == ActionsOfAll(ms[..n]) + ActionsOf(ms[n], |ms[n].parts|)
              && (Legal(ms[n]) ==> |ms[n].parts| > 0)
  {
    hide FramesOf, ActionsOf;
  }

  lemma {:induction false} AnswersDeliverNothing(controls: seq<Frame>)
    ensures Delivered(Answers(controls)) == []
  {
    if controls != [] {
      var n := |controls| - 1;
      AnswersDeliverNothing(controls[..n]);
      DeliveredConcat(Answers(controls[..n]), if controls[n].op == OP_PING then [AnswerPing(controls[n].payload)] else []);
    }
  }

  lemma ActionsUnfold(m: Message, n: nat)
    requires n <= |m.parts|
    ensures n == 0 ==> Delivered(ActionsOf(m, n)) == []
    ensures n > 0 ==>
              var end: seq<Action> := if n == |m.parts| then [Expected(m)] else [];
              ActionsOf(m, n) == ActionsOf(m, n - 1) + (Answers(m.parts[n - 1].controls) + end)
  {
    hide Answers, Expected;
  }

  lemma {:induction false} MessageDelivered(m: Message, n: nat)
    requires n <= |m.parts|
    ensures Delivered(ActionsOf(m, n)) == if 0 < n == |m.parts| then [Expected(m)] else []
  {
    hide *;
    ActionsUnfold(m, n);
    if n > 0 {
      MessageDelivered(m, n - 1);
      IsDelivery(m);
      DeliveredOne(Expected(m));
      DeliveredEnd(ActionsOf(m, n - 1), m.parts[n - 1].controls, if n == |m.parts| then [Expected(m)] else []);
    }
  }

  lemma AllUnfold(ms: seq<Message>)
    ensures ms == [] ==> Delivered(ActionsOfAll(ms)) == [] && ExpectedAll(ms) == []
    ensures ms != [] ==>
              var n := |ms| - 1;
              && ActionsOfAll(ms) == ActionsOfAll(ms[..n]) + ActionsOf(ms[n], |ms[n].parts|)
              && ExpectedAll(ms) == ExpectedAll(ms[..n]) + [Expected(ms[n])]
              && (Legal(ms[n]) ==> |ms[n].parts| > 0)
  {
    hide ActionsOf, Expected;
  }

  /** Of those actions, the deliveries are exactly the messages, in order and with the right text/binary flag. */
  lemma {:induction false} MessagesDelivered(ms: seq<Message>)
    requires forall i :: 0 <= i < |ms| ==> Legal(ms[i])
    ensures Delivered(ActionsOfAll(ms)) == ExpectedAll(ms)
  {
    hide *;
    AllUnfold(ms);
    if ms != [] {
      var n := |ms| - 1;
      MessagesDelivered(ms[..n]);
      MessageDelivered(ms[n], |ms[n].parts|);
      DeliveredConcat(ActionsOfAll(ms[..n]), ActionsOf(ms[n], |ms[n].parts|));
    }
  }

  /**
   * For any messages of at most MAX_PAYLOAD bytes, any fragmentation, any interleaved pings and pongs and
   * any masking keys and length forms, the read loop first answers exactly the pings and delivers exactly the
   * messages, in order and with the right text/binary flag, before it looks at what follows on the wire.
   */
  lemma {:induction false} ReadLoopDeliversMessages(ms: seq<Message>, ws: seq<Wire>, rest: seq<byte>)
    requires forall i :: 0 <= i < |ms| ==> Legal(ms[i])
    requires AllWellFormed(ws) && Decoded(ws) == FramesOfAll(ms)
    ensures Loop(Fragments([], 0), EncodeAll(ws) + rest)
         == ActionsOfAll(ms) + Loop(RunFrames(Fragments([], 0), FramesOfAll(ms)).next, rest)
    ensures Delivered(ActionsOfAll(ms)) == ExpectedAll(ms)
  {
    hide *;
    MessagesReassembled(Fragments([], 0), ms);
    LoopOverWire(Fragments([], 0), ws, rest);
    MessagesDelivered(ms);
  }

  // ---- how the loop ends ----

  /** Two octets in network order. */
  function Number(high: int, low: int): int {
    high * 256 + low
  }

  /** What a frame that the loop does not survive makes it do. */
  function Ending(st: Fragments, f: Frame): Option<seq<Action>> {
    if f.op == OP_CLOSE then
      var code := if |f.payload| < 2 then 1000 else Number(f.payload[0], f.payload[1]);
      Some([EchoClose(code, if |f.payload| < 2 then [] else f.payload[2..]), Closed(code)])
    else if f.op == OP_CONTINUATION && |st.buf| + |f.payload| > MAX_PAYLOAD then Some([Closed(1009)])
    else if f.op !in {OP_TEXT, OP_BINARY, OP_CONTINUATION, OP_PING, OP_PONG} then Some([Closed(1002)])
    else None
  }

  lemma TwoBytes(bs: seq<byte>)
    requires |bs| == 2
    ensures FromBigEndian(bs) == Number(bs[0], bs[1])
  {
    assert bs[..1] == [bs[0]] && bs[..1][..0] == [];
    assert FromBigEndian(bs[..1]) == bs[0];
  }

  lemma HandleEnds(st: Fragments, f: Frame)
    ensures Handle(st, f).stop <==> Ending(st, f).Some?
    ensures Handle(st, f).stop ==> Handle(st, f).actions == Ending(st, f).value
  {
    if f.op == OP_CLOSE && |f.payload| >= 2 {
      TwoBytes(f.payload[..2]);
    }
    hide FromBigEndian;
  }

  /**
   * After any legal messages, the read loop ends at a frame exactly if that closes the connection, overflows the
   * message being collected, or has an unknown opcode; with status 1009, 1002, or the status of the close frame,
   * which it echoes. It does nothing with what follows.
   */
  lemma {:induction false} ReadLoopEnds(ms: seq<Message>, ws: seq<Wire>, last: Wire, rest: seq<byte>)
    requires forall i :: 0 <= i < |ms| ==> Legal(ms[i])
    requires AllWellFormed(ws) && Decoded(ws) == FramesOfAll(ms)
    requires WellFormed(last) && |last.frame.payload| <= MAX_PAYLOAD
    ensures var st := RunFrames(Fragments([], 0), FramesOfAll(ms)).next;
            Ending(st, last.frame).Some? ==>
              Loop(Fragments([], 0), EncodeAll(ws) + (EncodeWire(last) + rest))
              == ActionsOfAll(ms) + Ending(st, last.frame).value
  {
    hide *;
    var st := RunFrames(Fragments([], 0), FramesOfAll(ms)).next;
    ReadLoopDeliversMessages(ms, ws, EncodeWire(last) + rest);
    LoopOverFrame(st, last, rest);
    HandleEnds(st, last.frame);
  }

  /** A message of any length in any number of fragments of at most MAX_PAYLOAD bytes each. */
  predicate Fragmented(m: Message) {
    && m.parts != [] && (forall i :: 0 <= i < |m.parts| ==> |m.parts[i].piece| <= MAX_PAYLOAD)
    && forall i, j :: 0 <= i < |m.parts| && 0 <= j < |m.parts[i].controls| ==> IsKeepalive(m.parts[i].controls[j])
  }

  /** The bytes in the first n parts. */
  function Length(m: Message, n: nat): nat
    requires n <= |m.parts|
  {
    if n == 0 then 0 else Length(m, n - 1) + |m.parts[n - 1].piece|
  }

  lemma {:induction false} LengthOfPieces(m: Message, n: nat)
    requires n <= |m.parts|
    ensures |Flatten(Pieces(m.parts[..n]))| == Length(m, n) && (n == |m.parts| ==> |Payload(m)| == Length(m, n))
  {
    if n > 0 {
      LengthOfPieces(m, n - 1);
      PiecesGrow(m, n);
      hide Flatten;
    } else {
      assert Pieces(m.parts[..0]) == [];
      assert m.parts == [] ==> Pieces(m.parts) == [];
    }
  }

  lemma {:induction false} LengthGrows(m: Message, k: nat, n: nat)
    requires k <= n <= |m.parts|
    ensures Length(m, k) <= Length(m, n)
  {
    if k < n {
      LengthGrows(m, k, n - 1);
    }
  }

  /** One fragment of a message that fitted so far: it is collected, or it overflows and ends the loop. */
  lemma FragmentFrame(st: Fragments, m: Message, n: nat)
    requires Fragmented(m) && 0 < n <= |m.parts| && (n > 1 ==> st == Partial(m, n - 1)) && Length(m, n - 1) <= MAX_PAYLOAD
    ensures var h := Handle(st, Frame(n == |m.parts|, OpOf(m, n), m.parts[n - 1].piece));
            if Length(m, n) <= MAX_PAYLOAD then
              && !h.stop && (n < |m.parts| ==> h.next == Partial(m, n))
              && h.actions == if n == |m.parts| then [Expected(m)] else []
            else h.stop && h.actions == [Closed(1009)]
  {
    PiecesGrow(m, n);
    LengthOfPieces(m, n - 1);
    LengthOfPieces(m, n);
    hide Flatten, Length;
    if n == 1 {
      assert Length(m, 1) == |m.parts[0].piece| by { LengthOne(m); }
      assert [] + m.parts[0].piece == m.parts[0].piece;
    }
  }

  lemma LengthOne(m: Message)
    requires m.parts != []
    ensures Length(m, 1) == |m.parts[0].piece| && Length(m, 0) == 0
  {
  }

  lemma FragmentPart(st: Fragments, m: Message, n: nat)
    requires Fragmented(m) && 0 < n <= |m.parts| && (n > 1 ==> st == Partial(m, n - 1)) && Length(m, n - 1) <= MAX_PAYLOAD
    ensures var h := RunFrames(st, m.parts[n - 1].controls + [Frame(n == |m.parts|, OpOf(m, n), m.parts[n - 1].piece)]);
            && h.stop == (Length(m, n) > MAX_PAYLOAD)
            && (!h.stop && n < |m.parts| ==> h.next == Partial(m, n))
            && h.actions == Answers(m.parts[n - 1].controls)
                 + if h.stop then [Closed(1009)] else if n == |m.parts| then [Expected(m)] else []
  {
    var controls := m.parts[n - 1].controls;
    var f := Frame(n == |m.parts|, OpOf(m, n), m.parts[n - 1].piece);
    KeepalivesAnswered(st, controls);
    FragmentFrame(st, m, n);
    hide Handle, RunFrames, Partial, Payload, Answers, Length;
    FramesConcat(st, controls, [f]);
    FramesOne(st, f);
  }

  lemma FragmentSteps(st: Fragments, m: Message, n: nat)
    requires n <= |m.parts|
    ensures n == 0 ==> RunFrames(st, FramesOf(m, n)) == Handled(st, [], false)
    ensures n == 0 ==> Length(m, n) <= MAX_PAYLOAD && Delivered([]) == []
    ensures n > 0 ==>
              var part := m.parts[n - 1].controls + [Frame(n == |m.parts|, OpOf(m, n), m.parts[n - 1].piece)];
              FramesOf(m, n) == FramesOf(m, n - 1) + part
  {
    hide Handle, OpOf;
  }

  /** Past the end of the loop, more frames change nothing. */
  lemma {:induction false} FramesAfterStop(st: Fragments, a: seq<Frame>, b: seq<Frame>)
    requires RunFrames(st, a).stop
    ensures RunFrames(st, a + b) == RunFrames(st, a)
  {
    hide Handle;
    if b == [] {
      assert a + b == a;
    } else {
      assert (a + b)[..|a + b| - 1] == a + b[..|b| - 1];
      FramesAfterStop(st, a, b[..|b| - 1]);
    }
  }

  /** What the first n parts come to: nothing delivered before the end, and the loop ends once they are too long. */
  predicate FragmentsRead(m: Message, n: nat, h: Handled)
    requires n <= |m.parts|
  {
    && h.stop == (Length(m, n) > MAX_PAYLOAD)
    && (!h.stop && 0 < n < |m.parts| ==> h.next == Partial(m, n))
    && (h.stop ==> h.actions != [] && h.actions[|h.actions| - 1] == Closed(1009))
    && Delivered(h.actions) == if !h.stop && 0 < n == |m.parts| then [Expected(m)] else []
  }

  lemma DeliveredEnd(a: seq<Action>, controls: seq<Frame>, end: seq<Action>)
    requires Delivered(a) == []
    ensures Delivered(a + (Answers(controls) + end)) == Delivered(end)
    ensures end != [] ==>
              var all := a + (Answers(controls) + end);
              all != [] && all[|all| - 1] == end[|end| - 1]
  {
    AnswersDeliverNothing(controls);
    hide Delivered, Answers;
    DeliveredConcat(a, Answers(controls) + end);
    DeliveredConcat(Answers(controls), end);
    assert [] + ([] + Delivered(end)) == Delivered(end);
  }

  lemma {:induction false} FragmentsCollected(st: Fragments, m: Message, n: nat)
    requires Fragmented(m) && n <= |m.parts|
    ensures FragmentsRead(m, n, RunFrames(st, FramesOf(m, n)))
  {
    hide *;
    FragmentSteps(st, m, n);
    FragmentsReadIs(m, n, RunFrames(st, FramesOf(m, n)));
    if n > 0 {
      var part := m.parts[n - 1].controls + [Frame(n == |m.parts|, OpOf(m, n), m.parts[n - 1].piece)];
      var before := RunFrames(st, FramesOf(m, n - 1));
      FragmentsCollected(st, m, n - 1);
      FragmentsReadIs(m, n - 1, before);
      LengthGrows(m, n - 1, n);
      if before.stop {
        FramesAfterStop(st, FramesOf(m, n - 1), part);
      } else {
        FragmentPart(before.next, m, n);
        FramesConcat(st, FramesOf(m, n - 1), part);
        DeliveredOne(Closed(1009));
        DeliveredOne(Expected(m));
        IsDelivery(m);
        DeliveredEnd(before.actions, m.parts[n - 1].controls,
                     if Length(m, n) > MAX_PAYLOAD then [Closed(1009)] else if n == |m.parts| then [Expected(m)] else []);
      }
    }
  }

  lemma FragmentsReadIs(m: Message, n: nat, h: Handled)
    requires n <= |m.parts|
    ensures FragmentsRead(m, n, h) <==>
              && h.stop == (Length(m, n) > MAX_PAYLOAD)
              && (!h.stop && 0 < n < |m.parts| ==> h.next == Partial(m, n))
              && (h.stop ==> h.actions != [] && h.actions[|h.actions| - 1] == Closed(1009))
              && Delivered(h.actions) == if !h.stop && 0 < n == |m.parts| then [Expected(m)] else []
  {
    hide Length, Partial, Delivered, Expected;
  }

  lemma IsDelivery(m: Message)
    ensures Expected(m).Deliver?
  {
  }

  /**
   * A message in fragments of at most MAX_PAYLOAD bytes each is delivered if and only if it has at most
   * MAX_PAYLOAD bytes in all; a longer one is not delivered and ends the loop with status 1009.
   */
  lemma {:induction false} FragmentedDeliveredExactly(st: Fragments, m: Message)
    requires Fragmented(m)
    ensures var h := RunFrames(st, FramesOf(m, |m.parts|));
            if |Payload(m)| <= MAX_PAYLOAD then !h.stop && Delivered(h.actions) == [Expected(m)]
            else h.stop && Delivered(h.actions) == [] && h.actions != [] && h.actions[|h.actions| - 1] == Closed(1009)
  {
    FragmentsCollected(st, m, |m.parts|);
    LengthOfPieces(m, |m.parts|);
    hide RunFrames, FramesOf, Delivered, Payload, Length;
  }

  /** Whatever bytes arrive, well-formed or not, no delivered payload exceeds MAX_PAYLOAD. */
  lemma {:induction false} DeliveriesBounded(st: Fragments, s: seq<byte>)
    requires |st.buf| <= MAX_PAYLOAD
    ensures forall a :: a in Loop(st, s) && a.Deliver? ==> |a.payload| <= MAX_PAYLOAD
    decreases |s|
  {
    ParsedSize(s);
    ParsedPayload(s);
    hide ParseFrame;
    if ParseFrame(s).Got? {
      var h := Handle(st, ParseFrame(s).frame);
      if !h.stop {
        DeliveriesBounded(h.next, s[ParseFrame(s).size..]);
      }
    }
  }

  lemma ParsedPayload(s: seq<byte>)
    ensures ParseFrame(s).Got? ==> |ParseFrame(s).frame.payload| <= MAX_PAYLOAD
  {
  }
}

/**
 * The outbound queue of a WebSocket connection as a step relation: any number of senders, the read loop's
 * pongs, Close, teardown, and the write loop, interleaved between every two atomic operations.
 */
module WriteQueue {
  import opened Bytes
  import opened Frames

  const MAX_PENDING_PONGS := 2

  /** A frame to be sent, before encoding. */
  datatype Item = Item(op: byte, payload: seq<byte>)

  /** A slice cannot be longer than an int64, and opcodes have four bits. */
  predicate Encodable(i: Item) {
    i.op < 0x10 && |i.payload| < TWO_TO_63
  }

  /** Where the read loop is inside handlePing. */
  datatype ReaderPc = ReaderIdle | CapChecked(pong: Item) | OpenChecked(pong: Item) | PongEnqueued | ReaderStopped

  /** Where the write loop is; `current` was written but its bookkeeping is not done yet. */
  datatype WriterPc = WriterIdle | Writing | Wrote(current: Item) | Settled(current: Item) | WriterStopped

  datatype Teardown = Open | Marked | Done

  datatype Conn = Conn(
    queue: seq<Item>, batch: seq<Item>, shutdown: bool,
    closing: bool, closeOnce: bool, closeSent: bool, teardown: Teardown,
    buffered: int, pongsQueued: int,
    reader: ReaderPc, writer: WriterPc, senders: map<nat, Item>,
    enqueued: seq<Item>, wire: seq<Item>, accounted: seq<Item>)

  const NewConn := Conn([], [], false, false, false, false, Open, 0, 0, ReaderIdle, WriterIdle, map[], [], [], [])

  /** The actors: the read loop, the write loop, and everybody else. */
  datatype ReaderStep = PingChecksCap(ping: seq<byte>) | PongChecksOpen | PongEnqueues | PongCounts | ReaderStops

  datatype WriterStep = WriterTakes | WriterWrites(ok: bool) | WriterSettles | WriterAccounts | WriterEndsBatch

  datatype OutsideStep =
    | SendChecks(sender: nat, item: Item)
    | SendEnqueues(id: nat)
    | CloseEnqueues(payload: seq<byte>)
    | TeardownFinishes

  datatype Step = Read(r: ReaderStep) | Write(w: WriterStep) | Outside(o: OutsideStep)

  /** The first call of terminate wins; the others return at once. */
  function Terminate(c: Conn): Conn {
    if c.teardown == Open then c.(teardown := Marked) else c
  }

  function Enqueue(c: Conn, i: Item): Conn {
    c.(queue := c.queue + [i], enqueued := c.enqueued + [i])
  }

  /** What the write loop subtracts for a frame, read back from its encoding. */
  function EncodedLen(i: Item): int {
    PayloadLenOf(EncodeFrame(i.payload, i.op))
  }

  // ---- one atomic operation; a step that is not enabled does nothing ----

  function CheckCap(c: Conn, ping: seq<byte>): Conn {
    if c.reader != ReaderIdle || |ping| > MAX_PAYLOAD || c.pongsQueued >= MAX_PENDING_PONGS then c
    else c.(reader := CapChecked(Item(OP_PONG, ping)))
  }

  function CheckOpen(c: Conn): Conn {
    if !c.reader.CapChecked? then c
    else c.(reader := if c.teardown != Open then ReaderIdle else OpenChecked(c.reader.pong))
  }

  function EnqueuePong(c: Conn): Conn {
    if !c.reader.OpenChecked? then c
    else if c.closing then c.(reader := ReaderIdle)
    else Enqueue(c, c.reader.pong).(buffered := c.buffered + |c.reader.pong.payload|, reader := PongEnqueued)
  }

  function CountPong(c: Conn): Conn {
    if c.reader != PongEnqueued then c else c.(pongsQueued := c.pongsQueued + 1, reader := ReaderIdle)
  }

  function StopReading(c: Conn): Conn {
    if c.reader != ReaderIdle then c else Terminate(c.(closeOnce := true, reader := ReaderStopped))
  }

  function ReaderActs(c: Conn, step: ReaderStep): Conn {
    match step
    case PingChecksCap(p) => CheckCap(c, p)
    case PongChecksOpen => CheckOpen(c)
    case PongEnqueues => EnqueuePong(c)
    case PongCounts => CountPong(c)
    case ReaderStops => StopReading(c)
  }

  /** Waits until there is something to send or the connection is closing, and takes the whole queue. */
  function TakeBatch(c: Conn): Conn {
    if c.writer != WriterIdle || (c.queue == [] && !c.closing) then c
    else c.(batch := c.queue, queue := [], shutdown := c.closing, writer := Writing)
  }

  function WriteFrame(c: Conn, ok: bool): Conn {
    if c.writer != Writing || c.batch == [] then c
    else if ok then c.(wire := c.wire + [c.batch[0]], writer := Wrote(c.batch[0]), batch := c.batch[1..])
    else Terminate(c.(closeSent := true, writer := WriterStopped))
  }

  function Settle(c: Conn): Conn {
    if !c.writer.Wrote? then c
    else
      var op := c.writer.current.op;
      c.(pongsQueued := if op == OP_PONG then c.pongsQueued - 1 else c.pongsQueued,
         closeSent := c.closeSent || op == OP_CLOSE,
         writer := Settled(c.writer.current))
  }

  function Account(c: Conn): Conn {
    if !c.writer.Settled? then c
    else
      c.(buffered := c.buffered - EncodedLen(c.writer.current),
         accounted := c.accounted + [c.writer.current], writer := Writing)
  }

  function EndBatch(c: Conn): Conn {
    if c.writer != Writing || c.batch != [] then c
    else if c.shutdown then Terminate(c.(writer := WriterStopped))
    else c.(writer := WriterIdle)
  }

  function WriterActs(c: Conn, step: WriterStep): Conn {
    match step
    case WriterTakes => TakeBatch(c)
    case WriterWrites(ok) => WriteFrame(c, ok)
    case WriterSettles => Settle(c)
    case WriterAccounts => Account(c)
    case WriterEndsBatch => EndBatch(c)
  }

  function OutsideActs(c: Conn, step: OutsideStep): Conn {
    match step
    case SendChecks(id, i) =>
      if id in c.senders || !Encodable(i) || i.op !in {OP_TEXT, OP_BINARY, OP_PING} || c.teardown != Open then c
      else c.(senders := c.senders[id := i])
    case SendEnqueues(id) =>
      if id !in c.senders then c
      else
        var i := c.senders[id];
        var rest := c.(senders := c.senders - {id});
        if c.closing then rest else Enqueue(rest, i).(buffered := c.buffered + |i.payload|)
    case CloseEnqueues(p) =>
      if c.closeOnce || !Encodable(Item(OP_CLOSE, p)) then c
      else Enqueue(c, Item(OP_CLOSE, p)).(closeOnce := true, closing := true)
    case TeardownFinishes => if c.teardown == Marked then c.(closing := true, teardown := Done) else c
  }

  function Next(c: Conn, step: Step): Conn {
    match step
    case Read(r) => ReaderActs(c, r)
    case Write(w) => WriterActs(c, w)
    case Outside(o) => OutsideActs(c, o)
  }

  // ---- sums ----

  function PongCount(items: seq<Item>): nat {
    if items == [] then 0 else PongCount(items[..|items| - 1]) + if items[|items| - 1].op == OP_PONG then 1 else 0
  }

  /** Payload bytes of the frames that are, or are not, close frames. */
  function Load(items: seq<Item>, close: bool): nat {
    if items == [] then 0
    else
      var last := items[|items| - 1];
      Load(items[..|items| - 1], close) + if (last.op == OP_CLOSE) == close then |last.payload| else 0
  }

  lemma {:induction false} Sums(a: seq<Item>, b: seq<Item>)
    ensures PongCount(a + b) == PongCount(a) + PongCount(b)
    ensures Load(a + b, true) == Load(a, true) + Load(b, true)
    ensures Load(a + b, false) == Load(a, false) + Load(b, false)
  {
    if b == [] {
      assert a + b == a;
    } else {
      assert (a + b)[..|a + b| - 1] == a + b[..|b| - 1];
      Sums(a, b[..|b| - 1]);
    }
  }

  lemma SumsOne(i: Item)
    ensures PongCount([i]) == if i.op == OP_PONG then 1 else 0
    ensures Load([i], true) == if i.op == OP_CLOSE then |i.payload| else 0
    ensures Load([i], false) == if i.op == OP_CLOSE then 0 else |i.payload|
  {
    assert [i][..0] == [];
  }

  /** The frame written to the wire whose bookkeeping is still open. */
  function InHand(c: Conn): seq<Item> {
    if c.writer.Wrote? || c.writer.Settled? then [c.writer.current] else []
  }

  /** A pong on the wire that the counter still includes. */
  function PongInHand(c: Conn): nat {
    if c.writer.Wrote? && c.writer.current.op == OP_PONG then 1 else 0
  }

  // ---- how a step moves frames ----

  datatype Move = Stays | Appends(item: Item) | Takes | Writes | Accounts

  function ReaderMove(c: Conn, step: ReaderStep): Move {
    if step == PongEnqueues && c.reader.OpenChecked? && !c.closing then Appends(c.reader.pong) else Stays
  }

  function WriterMove(c: Conn, step: WriterStep): Move {
    match step
    case WriterTakes => if c.writer == WriterIdle && (c.queue != [] || c.closing) then Takes else Stays
    case WriterWrites(ok) => if c.writer == Writing && c.batch != [] && ok then Writes else Stays
    case WriterAccounts => if c.writer.Settled? then Accounts else Stays
    case _ => Stays
  }

  function OutsideMove(c: Conn, step: OutsideStep): Move {
    match step
    case SendEnqueues(id) => if id in c.senders && !c.closing then Appends(c.senders[id]) else Stays
    case CloseEnqueues(p) => if c.closeOnce || !Encodable(Item(OP_CLOSE, p)) then Stays else Appends(Item(OP_CLOSE, p))
    case _ => Stays
  }

  function MoveOf(c: Conn, step: Step): Move {
    match step
    case Read(r) => ReaderMove(c, r)
    case Write(w) => WriterMove(c, w)
    case Outside(o) => OutsideMove(c, o)
  }

  predicate Moved(c: Conn, m: Move, c': Conn) {
    match m
    case Stays =>
      && c'.enqueued == c.enqueued && c'.queue == c.queue && c'.batch == c.batch && c'.wire == c.wire
      && c'.accounted == c.accounted && InHand(c') == InHand(c) && c'.buffered == c.buffered
    case Appends(i) =>
      && c'.enqueued == c.enqueued + [i] && c'.queue == c.queue + [i] && c'.batch == c.batch && c'.wire == c.wire
      && c'.accounted == c.accounted && InHand(c') == InHand(c)
      && c'.buffered == c.buffered + if i.op == OP_CLOSE then 0 else |i.payload|
    case Takes =>
      && c'.enqueued == c.enqueued && c.batch == [] && c'.batch == c.queue && c'.queue == [] && c'.wire == c.wire
      && c'.accounted == c.accounted && InHand(c') == InHand(c) && c'.buffered == c.buffered
    case Writes =>
      && c.batch != [] && InHand(c) == [] && InHand(c') == [c.batch[0]]
      && c'.enqueued == c.enqueued && c'.queue == c.queue && c'.batch == c.batch[1..]
      && c'.wire == c.wire + [c.batch[0]] && c'.accounted == c.accounted && c'.buffered == c.buffered
    case Accounts =>
      && |InHand(c)| == 1 && InHand(c') == []
      && c'.enqueued == c.enqueued && c'.queue == c.queue && c'.batch == c.batch && c'.wire == c.wire
      && c'.accounted == c.accounted + InHand(c) && c'.buffered == c.buffered - EncodedLen(InHand(c)[0])
  }

  /** Senders and the read loop hold no close frames, the pong being sent is one, an idle writer has no batch. */
  predicate Roles(c: Conn) {
    && (forall id :: id in c.senders ==> Encodable(c.senders[id]) && c.senders[id].op in {OP_TEXT, OP_BINARY, OP_PING})
    && (c.reader.CapChecked? || c.reader.OpenChecked? ==> Encodable(c.reader.pong) && c.reader.pong.op == OP_PONG)
    && (c.writer == WriterIdle ==> c.batch == [])
  }

  /** What the write loop does to the counters that the pong cap depends on. */
  predicate WriterCounted(c: Conn, m: Move, c': Conn) {
    && c'.reader == c.reader && !m.Appends?
    && if m.Writes? then
         && PongInHand(c) == 0 && c'.pongsQueued == c.pongsQueued && c.batch != []
         && PongInHand(c') == if c.batch[0].op == OP_PONG then 1 else 0
       else
         c'.pongsQueued - PongInHand(c') == c.pongsQueued - PongInHand(c) && PongInHand(c') <= PongInHand(c)
  }

  lemma TakeBatchMoves(c: Conn)
    requires Roles(c)
    ensures var c' := TakeBatch(c); var m := WriterMove(c, WriterTakes);
            Roles(c') && Moved(c, m, c') && WriterCounted(c, m, c')
  {
    hide EncodedLen, Encodable;
  }

  lemma WriteFrameMoves(c: Conn, ok: bool)
    requires Roles(c)
    ensures var c' := WriteFrame(c, ok); var m := WriterMove(c, WriterWrites(ok));
            Roles(c') && Moved(c, m, c') && WriterCounted(c, m, c')
  {
    hide EncodedLen, Encodable;
  }

  lemma SettleMoves(c: Conn)
    requires Roles(c)
    ensures var c' := Settle(c); var m := WriterMove(c, WriterSettles);
            Roles(c') && Moved(c, m, c') && WriterCounted(c, m, c')
  {
    hide EncodedLen, Encodable;
  }

  lemma AccountMoves(c: Conn)
    requires Roles(c)
    ensures var c' := Account(c); var m := WriterMove(c, WriterAccounts);
            Roles(c') && Moved(c, m, c') && WriterCounted(c, m, c')
  {
    hide EncodedLen, Encodable;
  }

  lemma EndBatchMoves(c: Conn)
    requires Roles(c)
    ensures var c' := EndBatch(c); var m := WriterMove(c, WriterEndsBatch);
            Roles(c') && Moved(c, m, c') && WriterCounted(c, m, c')
  {
    hide EncodedLen, Encodable;
  }

  lemma WriterMoves(c: Conn, w: WriterStep)
    requires Roles(c)
    ensures var c' := WriterActs(c, w); var m := WriterMove(c, w);
            Roles(c') && Moved(c, m, c') && WriterCounted(c, m, c')
  {
    hide Roles, Moved, WriterCounted, WriterMove, TakeBatch, WriteFrame, Settle, Account, EndBatch;
    match w {
      case WriterTakes => TakeBatchMoves(c);
      case WriterWrites(ok) => WriteFrameMoves(c, ok);
      case WriterSettles => SettleMoves(c);
      case WriterAccounts => AccountMoves(c);
      case WriterEndsBatch => EndBatchMoves(c);
    }
  }

  /**
   * What the read loop does to the counters: it enqueues the pong, or counts it, or moves towards that below
   * the cap.
   */
  predicate ReaderCounted(c: Conn, m: Move, c': Conn) {
    && c'.writer == c.writer && !m.Writes?
    && (m.Appends? ==> m.item.op == OP_PONG && Encodable(m.item) && c.reader.OpenChecked? && c'.reader == PongEnqueued
                       && c'.pongsQueued == c.pongsQueued)
    && (!m.Appends? ==>
          || (c'.reader == c.reader && c'.pongsQueued == c.pongsQueued)
          || (c.reader == PongEnqueued && c'.reader == ReaderIdle && c'.pongsQueued == c.pongsQueued + 1)
          || (c.reader != PongEnqueued && c'.reader != PongEnqueued && c'.pongsQueued == c.pongsQueued
              && (c'.reader.CapChecked? ==> c.pongsQueued < MAX_PENDING_PONGS)
              && (c'.reader.OpenChecked? ==> c.reader.CapChecked?)))
  }

  lemma CheckCapMoves(c: Conn, ping: seq<byte>)
    requires Roles(c)
    ensures var c' := CheckCap(c, ping); var m := ReaderMove(c, PingChecksCap(ping));
            Roles(c') && Moved(c, m, c') && ReaderCounted(c, m, c')
  {
    hide EncodedLen;
  }

  lemma CheckOpenMoves(c: Conn)
    requires Roles(c)
    ensures var c' := CheckOpen(c); var m := ReaderMove(c, PongChecksOpen);
            Roles(c') && Moved(c, m, c') && ReaderCounted(c, m, c')
  {
    hide EncodedLen, Encodable;
  }

  lemma EnqueuePongMoves(c: Conn)
    requires Roles(c)
    ensures var c' := EnqueuePong(c); var m := ReaderMove(c, PongEnqueues);
            Roles(c') && Moved(c, m, c') && ReaderCounted(c, m, c')
  {
    hide EncodedLen, Encodable;
  }

  lemma CountPongMoves(c: Conn)
    requires Roles(c)
    ensures var c' := CountPong(c); var m := ReaderMove(c, PongCounts);
            Roles(c') && Moved(c, m, c') && ReaderCounted(c, m, c')
  {
    hide EncodedLen, Encodable;
  }

  lemma StopReadingMoves(c: Conn)
    requires Roles(c)
    ensures var c' := StopReading(c); var m := ReaderMove(c, ReaderStops);
            Roles(c') && Moved(c, m, c') && ReaderCounted(c, m, c')
  {
    hide EncodedLen, Encodable;
  }

  lemma ReaderMoves(c: Conn, r: ReaderStep)
    requires Roles(c)
    ensures var c' := ReaderActs(c, r); var m := ReaderMove(c, r);
            Roles(c') && Moved(c, m, c') && ReaderCounted(c, m, c')
    ensures ReaderMove(c, r).Appends? ==> Encodable(ReaderMove(c, r).item)
  {
    hide Roles, Moved, Encodable, ReaderMove, CheckCap, CheckOpen, EnqueuePong, CountPong, StopReading;
    match r {
      case PingChecksCap(p) => CheckCapMoves(c, p);
      case PongChecksOpen => CheckOpenMoves(c);
      case PongEnqueues => EnqueuePongMoves(c);
      case PongCounts => CountPongMoves(c);
      case ReaderStops => StopReadingMoves(c);
    }
  }

  lemma OutsideMoves(c: Conn, o: OutsideStep)
    requires Roles(c)
    ensures Roles(OutsideActs(c, o)) && Moved(c, OutsideMove(c, o), OutsideActs(c, o))
    ensures OutsideMove(c, o).Appends? ==> Encodable(OutsideMove(c, o).item)
  {
    hide EncodedLen;
  }

  lemma {:induction false} StepMoves(c: Conn, step: Step)
    requires Roles(c)
    ensures Roles(Next(c, step)) && Moved(c, MoveOf(c, step), Next(c, step))
    ensures MoveOf(c, step).Appends? ==> Encodable(MoveOf(c, step).item)
  {
    hide Roles, Moved, Encodable;
    match step {
      case Read(r) => ReaderMoves(c, r);
      case Write(w) => WriterMoves(c, w);
      case Outside(o) => OutsideMoves(c, o);
    }
  }

  // ---- invariants ----

  /** Queue order is wire order: nothing is lost, duplicated or reordered on the way. */
  predicate InOrder(c: Conn) {
    && c.enqueued == c.wire + c.batch + c.queue && c.wire == c.accounted + InHand(c)
    && (forall i :: 0 <= i < |c.enqueued| ==> Encodable(c.enqueued[i]))
  }

  /** At most one close frame is ever enqueued, and nothing after it. */
  predicate CloseIsLast(c: Conn) {
    && (forall i :: 0 <= i < |c.enqueued| - 1 ==> c.enqueued[i].op != OP_CLOSE)
    && (c.enqueued != [] && c.enqueued[|c.enqueued| - 1].op == OP_CLOSE ==> c.closing && c.closeOnce)
  }

  /** buffered counts the data not yet accounted for, minus the close frame once that is accounted for. */
  predicate BufferedExact(c: Conn) {
    c.buffered == Load(c.enqueued, false) - Load(c.accounted, false) - Load(c.accounted, true)
  }

  function UnwrittenPongs(c: Conn): nat {
    PongCount(c.batch + c.queue)
  }

  predicate PongsCapped(c: Conn) {
    && c.pongsQueued == UnwrittenPongs(c) + PongInHand(c) - (if c.reader == PongEnqueued then 1 else 0)
    && UnwrittenPongs(c) + PongInHand(c) <= MAX_PENDING_PONGS
    && (c.reader.CapChecked? || c.reader.OpenChecked? ==> c.pongsQueued < MAX_PENDING_PONGS)
  }

  lemma MovedInOrder(c: Conn, m: Move, c': Conn)
    requires InOrder(c) && Moved(c, m, c') && (m.Appends? ==> Encodable(m.item))
    ensures InOrder(c')
  {
    hide EncodedLen, InHand, Encodable;
    assert m.Writes? ==> c.batch == [c.batch[0]] + c.batch[1..];
  }

  /** The gates close for good; only Close enqueues a close frame, once, and it shuts the gate for the others. */
  predicate Gated(c: Conn, m: Move, c': Conn) {
    && (c.closing ==> c'.closing) && (c.closeOnce ==> c'.closeOnce)
    && (m.Appends? && m.item.op == OP_CLOSE ==> !c.closeOnce && c'.closing && c'.closeOnce)
    && (m.Appends? && m.item.op != OP_CLOSE ==> !c.closing)
  }

  lemma ReaderGated(c: Conn, r: ReaderStep)
    requires Roles(c)
    ensures Gated(c, ReaderMove(c, r), ReaderActs(c, r))
  {
    hide Encodable;
  }

  lemma WriterGated(c: Conn, w: WriterStep)
    ensures Gated(c, WriterMove(c, w), WriterActs(c, w))
  {
    hide EncodedLen;
  }

  lemma OutsideGated(c: Conn, o: OutsideStep)
    requires Roles(c)
    ensures Gated(c, OutsideMove(c, o), OutsideActs(c, o))
  {
    hide Encodable;
  }

  lemma StepGated(c: Conn, step: Step)
    requires Roles(c)
    ensures Gated(c, MoveOf(c, step), Next(c, step))
  {
    hide Roles, Gated;
    match step {
      case Read(r) => ReaderGated(c, r);
      case Write(w) => WriterGated(c, w);
      case Outside(o) => OutsideGated(c, o);
    }
  }

  lemma MovedCloseIsLast(c: Conn, m: Move, c': Conn)
    requires CloseIsLast(c) && Moved(c, m, c') && Gated(c, m, c')
    ensures CloseIsLast(c')
  {
    hide EncodedLen, InHand;
  }

  lemma MovedBuffered(c: Conn, m: Move, c': Conn)
    requires InOrder(c) && BufferedExact(c) && Moved(c, m, c')
    ensures BufferedExact(c')
  {
    if m.Accounts? {
      var i := InHand(c)[0];
      assert i == c.enqueued[|c.accounted|];
      EncodeFrameRoundTrip(i.payload, i.op, []);
      hide EncodeFrame, PayloadLenOf, InHand;
      Sums(c.accounted, [i]);
      SumsOne(i);
      assert InHand(c) == [i];
    } else if m.Appends? {
      Sums(c.enqueued, [m.item]);
      SumsOne(m.item);
    }
  }

  lemma MovedPongs(c: Conn, m: Move, c': Conn)
    requires Moved(c, m, c')
    ensures PongsMoved(c, m, c')
  {
    hide EncodedLen, InHand;
    match m {
      case Appends(i) =>
        assert c'.batch + c'.queue == c.batch + c.queue + [i];
        Sums(c.batch + c.queue, [i]);
        SumsOne(i);
      case Takes =>
        assert c'.batch + c'.queue == c.batch + c.queue;
      case Writes =>
        assert c.batch + c.queue == [c.batch[0]] + (c'.batch + c'.queue);
        Sums([c.batch[0]], c'.batch + c'.queue);
        SumsOne(c.batch[0]);
      case _ =>
    }
  }

  lemma OutsideCounts(c: Conn, o: OutsideStep)
    requires Roles(c)
    ensures OutsideCounted(c, OutsideMove(c, o), OutsideActs(c, o))
  {
    hide EncodedLen, Encodable;
  }

  /** How a move changes the number of pongs still to be written. */
  predicate PongsMoved(c: Conn, m: Move, c': Conn) {
    && (m.Writes? ==> c.batch != [])
    && UnwrittenPongs(c') == UnwrittenPongs(c)
         + (if m.Appends? && m.item.op == OP_PONG then 1 else 0)
         - (if m.Writes? && c.batch[0].op == OP_PONG then 1 else 0)
  }

  lemma CappedByReader(c: Conn, m: Move, c': Conn)
    requires PongsCapped(c) && PongsMoved(c, m, c') && ReaderCounted(c, m, c')
    ensures PongsCapped(c')
  {
    hide UnwrittenPongs, Encodable;
    assert PongInHand(c') == PongInHand(c);
  }

  lemma CappedByWriter(c: Conn, m: Move, c': Conn)
    requires PongsCapped(c) && PongsMoved(c, m, c') && WriterCounted(c, m, c')
    ensures PongsCapped(c')
  {
    hide UnwrittenPongs, PongInHand;
  }

  /** Senders, closers and teardown touch no counter and enqueue no pongs. */
  predicate OutsideCounted(c: Conn, m: Move, c': Conn) {
    && c'.writer == c.writer && c'.reader == c.reader && c'.pongsQueued == c.pongsQueued && !m.Writes?
    && (m.Appends? ==> m.item.op != OP_PONG)
  }

  lemma CappedByOutside(c: Conn, m: Move, c': Conn)
    requires PongsCapped(c) && PongsMoved(c, m, c') && OutsideCounted(c, m, c')
    ensures PongsCapped(c')
  {
    hide UnwrittenPongs;
    assert PongInHand(c') == PongInHand(c);
  }

  lemma StepPongsCapped(c: Conn, step: Step)
    requires Roles(c) && PongsCapped(c)
    ensures PongsCapped(Next(c, step))
  {
    StepIs(c, step);
    hide *;
    var m, c' := MoveOf(c, step), Next(c, step);
    StepMoves(c, step);
    MovedPongs(c, m, c');
    match step {
      case Read(r) =>
        ReaderMoves(c, r);
        CappedByReader(c, m, c');
      case Write(w) =>
        WriterMoves(c, w);
        CappedByWriter(c, m, c');
      case Outside(o) =>
        OutsideCounts(c, o);
        CappedByOutside(c, m, c');
    }
  }

  lemma StepIs(c: Conn, step: Step)
    ensures match step
            case Read(r) => MoveOf(c, step) == ReaderMove(c, r) && Next(c, step) == ReaderActs(c, r)
            case Write(w) => MoveOf(c, step) == WriterMove(c, w) && Next(c, step) == WriterActs(c, w)
            case Outside(o) => MoveOf(c, step) == OutsideMove(c, o) && Next(c, step) == OutsideActs(c, o)
  {
    hide ReaderMove, WriterMove, OutsideMove, ReaderActs, WriterActs, OutsideActs;
  }

  // ---- runs ----

  /** A connection after any sequence of steps of its senders, closers, read loop, teardown and write loop. */
  function Run(steps: seq<Step>): Conn {
    if steps == [] then NewConn else Next(Run(steps[..|steps| - 1]), steps[|steps| - 1])
  }

  lemma {:induction false} RunInvariants(steps: seq<Step>)
    ensures var c := Run(steps);
            Roles(c) && InOrder(c) && CloseIsLast(c) && BufferedExact(c) && PongsCapped(c)
  {
    hide *;
    if steps == [] {
      NewConnInvariants();
    } else {
      var b, step := Run(steps[..|steps| - 1]), steps[|steps| - 1];
      RunInvariants(steps[..|steps| - 1]);
      StepMoves(b, step);
      StepGated(b, step);
      StepPongsCapped(b, step);
      RunLast(steps);
      MovedInOrder(b, MoveOf(b, step), Next(b, step));
      MovedCloseIsLast(b, MoveOf(b, step), Next(b, step));
      MovedBuffered(b, MoveOf(b, step), Next(b, step));
    }
  }

  lemma NewConnInvariants()
    ensures var c := Run([]);
            Roles(c) && InOrder(c) && CloseIsLast(c) && BufferedExact(c) && PongsCapped(c)
  {
  }

  lemma RunLast(steps: seq<Step>)
    requires steps != []
    ensures Run(steps) == Next(Run(steps[..|steps| - 1]), steps[|steps| - 1])
  {
  }

  /**
   * Write-queue protocol: in every reachable state what is on the wire is a prefix of the enqueue order; at
   * most one close frame is enqueued and nothing follows it, so nothing follows it on the wire either.
   */
  lemma WireFollowsQueue(steps: seq<Step>)
    ensures var c := Run(steps);
            && c.wire <= c.enqueued
            && (forall i :: 0 <= i < |c.enqueued| - 1 ==> c.enqueued[i].op != OP_CLOSE)
            && (forall i :: 0 <= i < |c.wire| - 1 ==> c.wire[i].op != OP_CLOSE)
  {
    RunInvariants(steps);
    var c := Run(steps);
    hide Run, Roles, BufferedExact, PongsCapped;
    assert c.enqueued == c.wire + (c.batch + c.queue);
    assert forall i :: 0 <= i < |c.wire| ==> c.wire[i] == c.enqueued[i];
  }

  /**
   * Until the close frame is accounted for, BufferedAmount is exactly the payload of the data, ping and
   * pong frames enqueued and not accounted for. The close frame is never added but is subtracted once
   * written, so from then on the amount is too small by exactly its payload.
   */
  lemma BufferedAmount(steps: seq<Step>)
    ensures |Run(steps).accounted| <= |Run(steps).enqueued|
    ensures var c := Run(steps);
            var waiting := c.enqueued[|c.accounted|..];
            c.enqueued == c.accounted + waiting && c.buffered == Load(waiting, false) - Load(c.accounted, true)
  {
    RunInvariants(steps);
    var c := Run(steps);
    hide Run, Roles, PongsCapped, CloseIsLast, Load, InHand;
    var waiting := c.enqueued[|c.accounted|..];
    assert c.enqueued == c.accounted + (InHand(c) + c.batch + c.queue);
    assert c.enqueued == c.accounted + waiting;
    Sums(c.accounted, waiting);
  }

  /** Once everything including a close frame was written, the amount is minus the close payload. */
  lemma BufferedAmountAfterClose(steps: seq<Step>)
    requires var c := Run(steps); c.accounted == c.enqueued != [] && c.enqueued[|c.enqueued| - 1].op == OP_CLOSE
    ensures var c := Run(steps); c.buffered == -|c.enqueued[|c.enqueued| - 1].payload|
  {
    RunInvariants(steps);
    var c := Run(steps);
    var n := |c.enqueued| - 1;
    NoClose(c.enqueued[..n]);
  }

  lemma RunSnoc(steps: seq<Step>, step: Step)
    ensures Run([]) == NewConn && Run(steps + [step]) == Next(Run(steps), step)
  {
    hide Next;
    assert (steps + [step])[..|steps|] == steps;
  }

  function AfterClose(p: seq<byte>): Conn {
    NewConn.(queue := [Item(OP_CLOSE, p)], enqueued := [Item(OP_CLOSE, p)], closeOnce := true, closing := true)
  }

  function AfterWrite(p: seq<byte>): Conn {
    AfterClose(p).(queue := [], shutdown := true, wire := [Item(OP_CLOSE, p)], writer := Wrote(Item(OP_CLOSE, p)))
  }

  lemma CloseQueued(p: seq<byte>)
    requires Encodable(Item(OP_CLOSE, p))
    ensures Next(NewConn, Outside(CloseEnqueues(p))) == AfterClose(p)
  {
    assert [] + [Item(OP_CLOSE, p)] == [Item(OP_CLOSE, p)];
  }

  lemma CloseWritten(p: seq<byte>)
    ensures Next(Next(AfterClose(p), Write(WriterTakes)), Write(WriterWrites(true))) == AfterWrite(p)
  {
    assert [Item(OP_CLOSE, p)][1..] == [] && [] + [Item(OP_CLOSE, p)] == [Item(OP_CLOSE, p)];
  }

  lemma CloseAccounted(p: seq<byte>)
    ensures var c := Next(Next(AfterWrite(p), Write(WriterSettles)), Write(WriterAccounts));
            c.accounted == c.enqueued == [Item(OP_CLOSE, p)] && c.buffered == -EncodedLen(Item(OP_CLOSE, p))
  {
    hide EncodedLen;
    assert [] + [Item(OP_CLOSE, p)] == [Item(OP_CLOSE, p)];
  }

  lemma CloseLength(p: seq<byte>)
    requires Encodable(Item(OP_CLOSE, p))
    ensures EncodedLen(Item(OP_CLOSE, p)) == |p|
  {
    EncodeFrameRoundTrip(p, OP_CLOSE, []);
    hide EncodeFrame, PayloadLenOf;
  }

  /** Such a run: Close on an idle connection, and the write loop writes its frame. */
  lemma CloseAlone(p: seq<byte>)
    requires Encodable(Item(OP_CLOSE, p))
    ensures var c := Run([Outside(CloseEnqueues(p)), Write(WriterTakes), Write(WriterWrites(true)), Write(WriterSettles),
                          Write(WriterAccounts)]);
            c.accounted == c.enqueued == [Item(OP_CLOSE, p)] && c.buffered == -|p|
  {
    hide *;
    var close, takes, writes := Outside(CloseEnqueues(p)), Write(WriterTakes), Write(WriterWrites(true));
    var settles, accounts := Write(WriterSettles), Write(WriterAccounts);
    CloseQueued(p);
    CloseWritten(p);
    CloseAccounted(p);
    CloseLength(p);
    assert [] + [close] == [close];
    RunSnoc([], close);
    assert [close] + [takes] == [close, takes];
    RunSnoc([close], takes);
    assert [close, takes] + [writes] == [close, takes, writes];
    RunSnoc([close, takes], writes);
    assert [close, takes, writes] + [settles] == [close, takes, writes, settles];
    RunSnoc([close, takes, writes], settles);
    assert [close, takes, writes, settles] + [accounts] == [close, takes, writes, settles, accounts];
    RunSnoc([close, takes, writes, settles], accounts);
  }

  lemma {:induction false} NoClose(items: seq<Item>)
    requires forall i :: 0 <= i < |items| ==> items[i].op != OP_CLOSE
    ensures Load(items, true) == 0
  {
    if items != [] {
      NoClose(items[..|items| - 1]);
    }
  }

  /** Pong cap: pong frames waiting to be written never exceed MAX_PENDING_PONGS. */
  lemma PongCap(steps: seq<Step>)
    ensures UnwrittenPongs(Run(steps)) <= MAX_PENDING_PONGS
  {
    RunInvariants(steps);
  }

  /** A ping is dropped only while MAX_PENDING_PONGS pongs are queued or still in the write loop's hands. */
  lemma DroppedPingHasPongs(steps: seq<Step>, ping: seq<byte>)
    requires var c := Run(steps); c.reader == ReaderIdle && |ping| <= MAX_PAYLOAD && Next(c, Read(PingChecksCap(ping))) == c
    ensures var c := Run(steps); UnwrittenPongs(c) + PongInHand(c) == MAX_PENDING_PONGS
  {
    RunInvariants(steps);
    hide Run, Roles, InOrder, CloseIsLast, BufferedExact, UnwrittenPongs;
  }
}

/** What the write loop gets done: everything enqueued is written, and it stops only then. */
module WriteProgress {
  import opened Bytes
  import opened Frames
  import opened WriteQueue

  /** Runs in which no write fails. */
  predicate NoFailure(steps: seq<Step>) {
    forall k :: 0 <= k < |steps| ==> steps[k] != Write(WriterWrites(false))
  }

  // ---- the writer stops only when everything is written ----

  /** Without a failed write: the gate closes only behind closeOnce, and the writer stops only behind the gate. */
  predicate Orderly(c: Conn) {
    && (c.teardown != Open ==> c.closeOnce)
    && (c.closing ==> c.closeOnce)
    && (c.shutdown ==> c.closing)
    && (c.writer == WriterStopped ==> c.shutdown)
    && (c.shutdown ==> c.queue == [])
    && (c.writer == WriterStopped ==> c.batch == [])
    && (c.writer == WriterIdle ==> !c.shutdown)
  }

  lemma ReaderOrderly(c: Conn, r: ReaderStep)
    requires Orderly(c)
    ensures Orderly(ReaderActs(c, r))
  {
  }

  lemma TakeOrderly(c: Conn)
    requires Orderly(c)
    ensures Orderly(TakeBatch(c))
  {
  }

  lemma WriteOrderly(c: Conn)
    requires Orderly(c)
    ensures Orderly(WriteFrame(c, true))
  {
  }

  lemma SettleOrderly(c: Conn)
    requires Orderly(c)
    ensures Orderly(Settle(c)) && Orderly(Account(c))
  {
    hide EncodedLen;
  }

  lemma EndOrderly(c: Conn)
    requires Orderly(c)
    ensures Orderly(EndBatch(c))
  {
  }

  lemma WriterOrderly(c: Conn, w: WriterStep)
    requires Orderly(c) && w != WriterWrites(false)
    ensures Orderly(WriterActs(c, w))
  {
    hide Orderly, TakeBatch, WriteFrame, Settle, Account, EndBatch;
    match w {
      case WriterTakes => TakeOrderly(c);
      case WriterWrites(_) => WriteOrderly(c);
      case WriterSettles => SettleOrderly(c);
      case WriterAccounts => SettleOrderly(c);
      case WriterEndsBatch => EndOrderly(c);
    }
  }

  lemma OutsideOrderly(c: Conn, o: OutsideStep)
    requires Orderly(c)
    ensures Orderly(OutsideActs(c, o))
  {
    hide Encodable;
  }

  lemma StepOrderly(c: Conn, step: Step)
    requires Orderly(c) && step != Write(WriterWrites(false))
    ensures Orderly(Next(c, step))
  {
    hide Orderly, ReaderActs, WriterActs, OutsideActs;
    match step {
      case Read(r) => ReaderOrderly(c, r);
      case Write(w) => WriterOrderly(c, w);
      case Outside(o) => OutsideOrderly(c, o);
    }
  }

  lemma {:induction false} RunOrderly(steps: seq<Step>)
    requires NoFailure(steps)
    ensures Orderly(Run(steps))
  {
    if steps == [] {
      assert Run([]) == NewConn;
    } else {
      hide Orderly, Next;
      RunLast(steps);
      RunOrderly(steps[..|steps| - 1]);
      StepOrderly(Run(steps[..|steps| - 1]), steps[|steps| - 1]);
    }
  }

  /** No call of Close, no end of the read loop, no teardown. */
  predicate LeftOpen(steps: seq<Step>) {
    forall k :: 0 <= k < |steps| ==>
      !(steps[k].Outside? && (steps[k].o.CloseEnqueues? || steps[k].o.TeardownFinishes?)) && steps[k] != Read(ReaderStops)
  }

  lemma StepStaysOpen(c: Conn, step: Step)
    requires Orderly(c) && !c.closing && !c.closeOnce && LeftOpen([step]) && step != Write(WriterWrites(false))
    ensures !Next(c, step).closing && !Next(c, step).closeOnce
  {
    hide EncodedLen, Encodable;
    assert [step][0] == step;
  }

  lemma {:induction false} RunStaysOpen(steps: seq<Step>)
    requires NoFailure(steps) && LeftOpen(steps)
    ensures !Run(steps).closing && !Run(steps).closeOnce
  {
    if steps == [] {
      assert Run([]) == NewConn;
    } else {
      hide Orderly, Next;
      var n := |steps| - 1;
      RunLast(steps);
      RunStaysOpen(steps[..n]);
      RunOrderly(steps[..n]);
      assert LeftOpen([steps[n]]);
      StepStaysOpen(Run(steps[..n]), steps[n]);
    }
  }

  lemma OrderlyStops(c: Conn)
    requires Orderly(c)
    ensures c.writer == WriterStopped ==> c.closing && c.closeOnce && c.queue == [] && c.batch == []
    ensures !c.closeOnce ==> c.writer != WriterStopped && c.teardown == Open
  {
  }

  /**
   * In every run without a failed write: the write loop stops only after Close or teardown, with everything
   * ever enqueued written and accounted for. While a connection is left open it never stops.
   */
  lemma {:induction false} StopsOnlyWhenDone(steps: seq<Step>)
    requires NoFailure(steps)
    ensures var c := Run(steps);
            && (c.writer == WriterStopped ==> c.closing && c.wire == c.enqueued && c.accounted == c.enqueued)
            && (LeftOpen(steps) ==> c.writer != WriterStopped && c.teardown == Open)
  {
    var c := Run(steps);
    RunOrderly(steps);
    RunInvariants(steps);
    if LeftOpen(steps) {
      RunStaysOpen(steps);
    }
    hide Run, Roles, CloseIsLast, BufferedExact, PongsCapped;
  }

  // ---- everything enqueued gets written ----

  /** A connection after more steps. */
  function RunFrom(c: Conn, steps: seq<Step>): Conn
    decreases |steps|
  {
    if steps == [] then c else RunFrom(Next(c, steps[0]), steps[1..])
  }

  lemma {:induction false} RunMore(steps: seq<Step>, more: seq<Step>)
    ensures Run(steps + more) == RunFrom(Run(steps), more)
    decreases |more|
  {
    hide Next;
    if more == [] {
      assert steps + more == steps;
    } else {
      assert steps + more == (steps + [more[0]]) + more[1..];
      RunSnoc(steps, more[0]);
      RunMore(steps + [more[0]], more[1..]);
    }
  }

  lemma {:induction false} RunFromConcat(c: Conn, a: seq<Step>, b: seq<Step>)
    ensures RunFrom(c, a + b) == RunFrom(RunFrom(c, a), b)
    decreases |a|
  {
    hide Next;
    if a == [] {
      assert a + b == b;
    } else {
      assert (a + b)[0] == a[0] && (a + b)[1..] == a[1..] + b;
      RunFromConcat(Next(c, a[0]), a[1..], b);
    }
  }

  lemma RunFromCons(c: Conn, step: Step, rest: seq<Step>)
    ensures RunFrom(c, [step] + rest) == RunFrom(Next(c, step), rest) && RunFrom(c, []) == c
  {
    hide Next;
    assert ([step] + rest)[1..] == rest;
  }

  const FINISH: seq<Step> := [Write(WriterSettles)] + ([Write(WriterAccounts)] + [])

  /** Writing n frames, each with its bookkeeping. */
  function WriteAll(n: nat): seq<Step> {
    if n == 0 then [] else [Write(WriterWrites(true))] + (FINISH + WriteAll(n - 1))
  }

  /** The write loop alone: the frame in hand, the rest of its batch, and one more batch. */
  function Drain(c: Conn): seq<Step> {
    FINISH + (WriteAll(|c.batch|) + ([Write(WriterEndsBatch)]
      + ([Write(WriterTakes)] + (WriteAll(|c.queue|) + ([Write(WriterEndsBatch)] + [])))))
  }

  /** What the write loop's own steps leave alone. */
  predicate SameOutside(c: Conn, d: Conn) {
    d.enqueued == c.enqueued && d.closing == c.closing && d.reader == c.reader && d.senders == c.senders
  }

  lemma SettleEffect(c: Conn)
    ensures var d := Next(c, Write(WriterSettles));
            && SameOutside(c, d) && d.batch == c.batch && d.queue == c.queue && d.shutdown == c.shutdown
            && d.writer == (if c.writer.Wrote? then Settled(c.writer.current) else c.writer)
  {
  }

  lemma AccountEffect(c: Conn)
    ensures var d := Next(c, Write(WriterAccounts));
            && SameOutside(c, d) && d.batch == c.batch && d.queue == c.queue && d.shutdown == c.shutdown
            && d.writer == (if c.writer.Settled? then Writing else c.writer)
  {
    hide EncodedLen;
  }

  lemma FinishEffect(c: Conn)
    ensures var d := RunFrom(c, FINISH);
            && SameOutside(c, d) && d.batch == c.batch && d.queue == c.queue && d.shutdown == c.shutdown
            && d.writer == (if c.writer.Wrote? || c.writer.Settled? then Writing else c.writer)
  {
    hide Next, RunFrom;
    var c1 := Next(c, Write(WriterSettles));
    SettleEffect(c);
    AccountEffect(c1);
    RunFromCons(c, Write(WriterSettles), [Write(WriterAccounts)] + []);
    RunFromCons(c1, Write(WriterAccounts), []);
    RunFromCons(Next(c1, Write(WriterAccounts)), Write(WriterAccounts), []);
  }

  lemma WriteEffect(c: Conn)
    requires c.writer == Writing && c.batch != []
    ensures var d := RunFrom(c, [Write(WriterWrites(true))] + FINISH);
            && SameOutside(c, d) && d.batch == c.batch[1..] && d.queue == c.queue && d.shutdown == c.shutdown
            && d.writer == Writing
  {
    RunFromCons(c, Write(WriterWrites(true)), FINISH);
    hide RunFrom, EncodedLen;
    FinishEffect(WriteFrame(c, true));
  }

  lemma {:induction false} WriteAllEffect(c: Conn, n: nat)
    requires (c.writer == Writing || n == 0) && |c.batch| == n
    ensures var d := RunFrom(c, WriteAll(n));
            && SameOutside(c, d) && d.batch == [] && d.queue == c.queue && d.shutdown == c.shutdown && d.writer == c.writer
    decreases n
  {
    hide RunFrom, Next;
    if n == 0 {
      RunFromCons(c, Write(WriterTakes), []);
    } else {
      WriteEffect(c);
      assert WriteAll(n) == ([Write(WriterWrites(true))] + FINISH) + WriteAll(n - 1);
      RunFromConcat(c, [Write(WriterWrites(true))] + FINISH, WriteAll(n - 1));
      WriteAllEffect(RunFrom(c, [Write(WriterWrites(true))] + FINISH), n - 1);
    }
  }

  lemma EndEffect(c: Conn)
    requires c.batch == []
    ensures var d := Next(c, Write(WriterEndsBatch));
            && SameOutside(c, d) && d.batch == [] && d.queue == c.queue && d.shutdown == c.shutdown
            && d.writer == (if c.writer != Writing then c.writer else if c.shutdown then WriterStopped else WriterIdle)
  {
  }

  lemma TakeEffect(c: Conn)
    requires c.batch == []
    ensures var d := Next(c, Write(WriterTakes));
            && SameOutside(c, d)
            && if c.writer == WriterIdle && (c.queue != [] || c.closing) then
                 d.writer == Writing && d.batch == c.queue && d.queue == [] && d.shutdown == c.closing
               else d == c
  {
  }

  /** Between two of its steps, the writer has a batch only while it is writing. */
  predicate BatchInUse(c: Conn) {
    c.batch != [] ==> c.writer.Writing? || c.writer.Wrote? || c.writer.Settled?
  }

  /** The first half of the drain: the batch in hand. */
  lemma DrainBatch(c: Conn)
    requires BatchInUse(c)
    ensures var d := RunFrom(c, FINISH + (WriteAll(|c.batch|) + [Write(WriterEndsBatch)]));
            && SameOutside(c, d) && d.batch == [] && d.queue == c.queue && d.shutdown == c.shutdown
            && d.writer == (if c.writer == WriterIdle || c.writer == WriterStopped then c.writer
                            else if c.shutdown then WriterStopped else WriterIdle)
  {
    hide RunFrom, Next, WriteAll;
    var c1 := RunFrom(c, FINISH);
    var c2 := RunFrom(c1, WriteAll(|c.batch|));
    RunFromConcat(c, FINISH, WriteAll(|c.batch|) + [Write(WriterEndsBatch)]);
    RunFromConcat(c1, WriteAll(|c.batch|), [Write(WriterEndsBatch)]);
    assert [Write(WriterEndsBatch)] == [Write(WriterEndsBatch)] + [];
    RunFromCons(c2, Write(WriterEndsBatch), []);
    RunFromCons(Next(c2, Write(WriterEndsBatch)), Write(WriterEndsBatch), []);
    FinishEffect(c);
    WriteAllEffect(c1, |c.batch|);
    EndEffect(c2);
  }

  /** The second half: what is queued. */
  lemma DrainQueue(c: Conn)
    requires c.batch == [] && (c.writer == WriterIdle || (c.writer == WriterStopped && c.queue == []))
    ensures var d := RunFrom(c, [Write(WriterTakes)] + (WriteAll(|c.queue|) + [Write(WriterEndsBatch)]));
            && SameOutside(c, d) && d.batch == [] && d.queue == []
            && d.writer == (if c.writer == WriterStopped || c.closing then WriterStopped else WriterIdle)
  {
    hide RunFrom, Next, WriteAll;
    var c1 := Next(c, Write(WriterTakes));
    var c2 := RunFrom(c1, WriteAll(|c.queue|));
    RunFromCons(c, Write(WriterTakes), WriteAll(|c.queue|) + [Write(WriterEndsBatch)]);
    RunFromConcat(c1, WriteAll(|c.queue|), [Write(WriterEndsBatch)]);
    assert [Write(WriterEndsBatch)] == [Write(WriterEndsBatch)] + [];
    RunFromCons(c2, Write(WriterEndsBatch), []);
    RunFromCons(Next(c2, Write(WriterEndsBatch)), Write(WriterEndsBatch), []);
    TakeEffect(c);
    WriteAllEffect(c1, |c.queue|);
    EndEffect(c2);
  }

  lemma DrainParts(c: Conn)
    ensures Drain(c) == (FINISH + (WriteAll(|c.batch|) + [Write(WriterEndsBatch)]))
                        + ([Write(WriterTakes)] + (WriteAll(|c.queue|) + [Write(WriterEndsBatch)]))
  {
    hide WriteAll;
  }

  lemma ReachableBatch(c: Conn)
    requires Orderly(c) && Roles(c)
    ensures BatchInUse(c)
    ensures c.writer == WriterStopped ==> c.queue == []
    ensures c.shutdown ==> c.queue == [] && c.closing
  {
  }

  lemma DrainEnds(c: Conn)
    requires Orderly(c) && Roles(c)
    ensures var d := RunFrom(c, Drain(c));
            && SameOutside(c, d) && d.batch == [] && d.queue == []
            && d.writer == if c.closing then WriterStopped else WriterIdle
  {
    OrderlyStops(c);
    ReachableBatch(c);
    DrainParts(c);
    hide *;
    var first := FINISH + (WriteAll(|c.batch|) + [Write(WriterEndsBatch)]);
    RunFromConcat(c, first, [Write(WriterTakes)] + (WriteAll(|c.queue|) + [Write(WriterEndsBatch)]));
    DrainBatch(c);
    SameOutsideIs(c, RunFrom(c, first));
    DrainQueue(RunFrom(c, first));
    SameOutsideIs(RunFrom(c, first), RunFrom(c, Drain(c)));
    SameOutsideIs(c, RunFrom(c, Drain(c)));
  }

  lemma SameOutsideIs(c: Conn, d: Conn)
    ensures SameOutside(c, d) <==>
              d.enqueued == c.enqueued && d.closing == c.closing && d.reader == c.reader && d.senders == c.senders
  {
  }

  lemma AllWritten(c: Conn)
    requires InOrder(c) && BufferedExact(c)
    requires c.batch == [] && c.queue == [] && (c.writer == WriterIdle || c.writer == WriterStopped)
    ensures c.wire == c.enqueued && c.accounted == c.enqueued && c.buffered == 0 - Load(c.enqueued, true)
  {
    hide Load;
  }

  /**
   * From every state reached without a failed write, the write loop's own next steps, if the writes succeed,
   * bring everything enqueued to the wire, in order, with every frame accounted for: the buffered amount is
   * then 0 but for the payload of a close frame. The loop has stopped then iff the connection is closing, and
   * otherwise waits for more.
   */
  lemma {:induction false} EverythingIsWritten(steps: seq<Step>)
    requires NoFailure(steps)
    ensures var c := Run(steps);
            var d := Run(steps + Drain(c));
            && d.wire == c.enqueued && d.enqueued == c.enqueued && d.accounted == c.enqueued
            && d.buffered == 0 - Load(c.enqueued, true)
            && d.writer == (if c.closing then WriterStopped else WriterIdle)
  {
    var c := Run(steps);
    hide *;
    RunOrderly(steps);
    RunInvariants(steps);
    RunMore(steps, Drain(c));
    DrainEnds(c);
    SameOutsideIs(c, RunFrom(c, Drain(c)));
    RunInvariants(steps + Drain(c));
    AllWritten(Run(steps + Drain(c)));
  }

  lemma OpenHasNoClose(c: Conn)
    requires CloseIsLast(c) && !c.closing
    ensures Load(c.enqueued, true) == 0
  {
    hide Load;
    forall i | 0 <= i < |c.enqueued| ensures c.enqueued[i].op != OP_CLOSE {
    }
    NoClose(c.enqueued);
  }

  // ---- from the caller to the wire ----

  /** A sender that finds the connection open and the gate not closed. */
  lemma SendEffect(c: Conn, id: nat, i: Item)
    requires !c.closing && c.teardown == Open && id !in c.senders && Encodable(i) && i.op in {OP_TEXT, OP_BINARY, OP_PING}
    ensures var d := Next(Next(c, Outside(SendChecks(id, i))), Outside(SendEnqueues(id)));
            d.enqueued == c.enqueued + [i] && !d.closing
  {
    hide Encodable;
  }

  /** The read loop, idle, below the cap, on an open connection. */
  lemma PingEffect(c: Conn, ping: seq<byte>)
    requires !c.closing && c.teardown == Open && c.reader == ReaderIdle && |ping| <= MAX_PAYLOAD
    requires c.pongsQueued < MAX_PENDING_PONGS
    ensures var c1 := Next(Next(c, Read(PingChecksCap(ping))), Read(PongChecksOpen));
            var d := Next(Next(c1, Read(PongEnqueues)), Read(PongCounts));
            d.enqueued == c.enqueued + [Item(OP_PONG, ping)] && !d.closing && d.reader == ReaderIdle
  {
  }

  lemma CloseEffect(c: Conn, p: seq<byte>)
    requires !c.closeOnce && Encodable(Item(OP_CLOSE, p))
    ensures var d := Next(c, Outside(CloseEnqueues(p)));
            d.enqueued == c.enqueued + [Item(OP_CLOSE, p)] && d.closing && d.closeOnce
  {
  }

  /** What a caller does: send, or the answer to a ping, or Close. */
  datatype Deed = Sends(id: nat, item: Item) | Pings(ping: seq<byte>) | Closes(payload: seq<byte>)

  function DeedSteps(deed: Deed): seq<Step> {
    match deed
    case Sends(id, i) => [Outside(SendChecks(id, i)), Outside(SendEnqueues(id))]
    case Pings(p) => [Read(PingChecksCap(p)), Read(PongChecksOpen), Read(PongEnqueues), Read(PongCounts)]
    case Closes(p) => [Outside(CloseEnqueues(p))]
  }

  function FrameOf(deed: Deed): Item {
    match deed
    case Sends(_, i) => i
    case Pings(p) => Item(OP_PONG, p)
    case Closes(p) => Item(OP_CLOSE, p)
  }

  predicate Possible(c: Conn, deed: Deed) {
    match deed
    case Sends(id, i) => id !in c.senders && Encodable(i) && i.op in {OP_TEXT, OP_BINARY, OP_PING}
    case Pings(p) => c.reader == ReaderIdle && |p| <= MAX_PAYLOAD && c.pongsQueued < MAX_PENDING_PONGS
    case Closes(p) => Encodable(Item(OP_CLOSE, p))
  }

  lemma DeedEffect(c: Conn, deed: Deed)
    requires !c.closing && !c.closeOnce && c.teardown == Open && Possible(c, deed)
    ensures RunFrom(c, DeedSteps(deed)).enqueued == c.enqueued + [FrameOf(deed)]
    ensures RunFrom(c, DeedSteps(deed)).closing == deed.Closes?
  {
    hide Next, RunFrom, Encodable;
    match deed {
      case Sends(id, i) =>
        var a, b := Outside(SendChecks(id, i)), Outside(SendEnqueues(id));
        assert DeedSteps(deed) == [a] + ([b] + []);
        RunFromCons(c, a, [b] + []);
        RunFromCons(Next(c, a), b, []);
        RunFromCons(Next(Next(c, a), b), b, []);
        SendEffect(c, id, i);
      case Pings(p) =>
        var a, b, x, y := Read(PingChecksCap(p)), Read(PongChecksOpen), Read(PongEnqueues), Read(PongCounts);
        assert DeedSteps(deed) == [a] + ([b] + ([x] + ([y] + [])));
        RunFromCons(c, a, [b] + ([x] + ([y] + [])));
        RunFromCons(Next(c, a), b, [x] + ([y] + []));
        RunFromCons(Next(Next(c, a), b), x, [y] + []);
        RunFromCons(Next(Next(Next(c, a), b), x), y, []);
        RunFromCons(Next(Next(Next(Next(c, a), b), x), y), y, []);
        PingEffect(c, p);
      case Closes(p) =>
        var a := Outside(CloseEnqueues(p));
        assert DeedSteps(deed) == [a] + [];
        RunFromCons(c, a, []);
        RunFromCons(Next(c, a), a, []);
        CloseEffect(c, p);
    }
  }

  lemma NoFailureConcat(steps: seq<Step>, deed: Deed)
    requires NoFailure(steps)
    ensures NoFailure(steps + DeedSteps(deed))
  {
    assert forall k :: 0 <= k < |DeedSteps(deed)| ==> DeedSteps(deed)[k] != Write(WriterWrites(false));
  }

  lemma OpenFacts(steps: seq<Step>)
    requires NoFailure(steps) && LeftOpen(steps)
    ensures var c := Run(steps); !c.closing && !c.closeOnce && c.teardown == Open
  {
    RunStaysOpen(steps);
    RunOrderly(steps);
    hide Run;
  }

  /**
   * On every connection left open without a failed write, a message sent, a ping answered below the cap, and a
   * close frame reach the wire, behind everything enqueued before; the write loop stops only behind the close
   * frame.
   */
  lemma {:induction false} DeedReachesWire(steps: seq<Step>, deed: Deed)
    requires NoFailure(steps) && LeftOpen(steps) && Possible(Run(steps), deed)
    ensures var c := Run(steps);
            var sent := Run(steps + DeedSteps(deed));
            var d := Run((steps + DeedSteps(deed)) + Drain(sent));
            && d.wire == c.enqueued + [FrameOf(deed)] && d.accounted == d.wire
            && d.writer == (if deed.Closes? then WriterStopped else WriterIdle)
            && (!deed.Closes? ==> d.buffered == 0)
  {
    var c := Run(steps);
    hide *;
    OpenFacts(steps);
    RunMore(steps, DeedSteps(deed));
    DeedEffect(c, deed);
    NoFailureConcat(steps, deed);
    EverythingIsWritten(steps + DeedSteps(deed));
    RunInvariants(steps + DeedSteps(deed));
    if !deed.Closes? {
      OpenHasNoClose(Run(steps + DeedSteps(deed)));
    }
  }
}

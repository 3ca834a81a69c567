/**
 * Whole runs of one relay attachment under every interleaving of PTY output, timer callbacks (stale
 * ones included), pause, the two steps of resume, and backpressure ticks, on a live open session.
 */
module RelayRuns {
  import opened Bytes
  import opened RingBuffer
  import opened Relay

  // ---- the machine ----

  /** A byte of PTY output and its position in the stream. */
  datatype Tagged = Tagged(b: byte, pos: nat)

  /**
   * An attachment with its environment: the timers whose callback may still run, whether a resume has
   * been cleared but not flushed yet, and everything received so far.
   */
  datatype System = System(r: State<Tagged>, armed: set<nat>, resuming: bool, received: seq<Tagged>)

  datatype Step =
    | Pty(data: seq<byte>, amount: int, now: int, id: nat, stopped: bool)
    | Fire(timer: nat, at: int)
    | Pause
    | ResumeClears
    | ResumeFlushes(resumeAmount: nat -> int)
    | Tick(tickAmount: nat -> int)

  /** Pause and resume messages come from one goroutine, so a pending resume flushes before the next one. */
  predicate Enabled(s: System, step: Step) {
    match step
    case Pty(_, _, _, id, _) => id !in s.armed
    case Fire(t, _) => t in s.armed
    case Pause => !s.resuming
    case ResumeClears => !s.resuming
    case ResumeFlushes(_) => s.resuming
    case Tick(_) => true
  }

  function Tag(data: seq<byte>, from: nat): seq<Tagged> {
    seq(|data|, i requires 0 <= i < |data| => Tagged(data[i], from + i))
  }

  /** Stopping a timer that has already fired does not take its callback back. */
  function ArmedAfter(s: System, r: State<Tagged>, stopped: bool): set<nat> {
    var kept := if stopped && s.r.timer.Some? && r.timer != s.r.timer then s.armed - {s.r.timer.value} else s.armed;
    if r.timer.Some? then kept + {r.timer.value} else kept
  }

  function Next(s: System, step: Step, cfg: Config): System {
    match step
    case Pty(data, amount, now, id, stopped) =>
      var tagged := Tag(data, |s.received|);
      var r := OnPty(s.r, tagged, amount, now, id, cfg);
      System(r, ArmedAfter(s, r, stopped), s.resuming, s.received + tagged)
    case Fire(t, at) => s.(r := Flush(s.r, at, cfg.outputBufferMax), armed := s.armed - {t})
    case Pause => s.(r := s.r.(paused := true))
    case ResumeClears => s.(r := ResumeClear(s.r), resuming := true)
    case ResumeFlushes(amount) => s.(r := FlushClient(s.r, amount, 0, cfg), resuming := false)
    case Tick(amount) => s.(r := Backpressure(s.r, amount, cfg))
  }

  predicate CanRun(s: System, steps: seq<Step>, cfg: Config) {
    steps == [] ||
    (CanRun(s, steps[..|steps| - 1], cfg) && Enabled(RunSteps(s, steps[..|steps| - 1], cfg), steps[|steps| - 1]))
  }

  function RunSteps(s: System, steps: seq<Step>, cfg: Config): System {
    if steps == [] then s else Next(RunSteps(s, steps[..|steps| - 1], cfg), steps[|steps| - 1], cfg)
  }

  /** The PTY output of a step, and of a run. */
  function OutputOf(step: Step): seq<byte> {
    if step.Pty? then step.data else []
  }

  function Output(steps: seq<Step>): seq<byte> {
    if steps == [] then [] else Output(steps[..|steps| - 1]) + OutputOf(steps[|steps| - 1])
  }

  /** Right after attaching: what was replayed is sent or held back. Timers of an earlier attachment may linger. */
  ghost predicate Initial(s: System) {
    && !s.resuming && !s.r.paused && s.r.pausedBytes == 0 && s.r.lastActSig == None
    && s.r.coalesce == [] && s.r.timer == None && s.r.lastFlush == None && s.r.evicted == []
    && s.received == s.r.sent + RingBytes(s.r.ring) && Positioned(s.received)
    && (s.r.ring != [] ==> s.r.throttled) && |s.r.ring| <= 1
  }

  predicate Positioned(received: seq<Tagged>) {
    forall i :: 0 <= i < |received| ==> received[i].pos == i
  }

  // ---- what the operations do to the bytes ----

  /** All bytes in the attachment's hands, wherever they are. */
  ghost function Held<T>(r: State<T>): multiset<T> {
    multiset(r.sent) + multiset(RingBytes(r.ring)) + multiset(r.coalesce) + multiset(r.evicted)
  }

  /** Delivered bytes, then those in the ring, then those being coalesced. */
  function Line<T>(r: State<T>): seq<T> {
    r.sent + RingBytes(r.ring) + r.coalesce
  }

  lemma RingBytesConcat<T>(a: seq<Entry<T>>, b: seq<Entry<T>>)
    ensures RingBytes(a + b) == RingBytes(a) + RingBytes(b)
  {
    assert Datas(a + b) == Datas(a) + Datas(b);
    FlattenConcat(Datas(a), Datas(b));
  }

  lemma RingBytesOne<T>(e: Entry<T>)
    ensures RingBytes([e]) == e.data
  {
    assert Datas([e]) == [e.data];
    FlattenOne(e.data);
  }

  /** Pushing drops bytes from the front of the ring only, logs them, and always keeps the new chunk. */
  lemma PushFacts<T>(r: State<T>, chunk: seq<T>, max: nat) returns (lost: seq<T>)
    ensures var r' := PushChunk(r, chunk, max);
            && r' == r.(ring := r'.ring, evicted := r.evicted + lost) && r'.ring != []
            && RingBytes(r.ring) + chunk == lost + RingBytes(r'.ring)
            && |lost| <= |RingBytes(r.ring)|
  {
    hide Flatten;
    var es := r.ring + [Entry(chunk, |chunk|)];
    EvictIsLongestFittingSuffix(es, max);
    hide Evict;
    var k := |es| - EvictedTo(es, max);
    lost := RingBytes(es[..k]);
    assert es == es[..k] + es[k..];
    RingBytesConcat(es[..k], es[k..]);
    RingBytesConcat(r.ring, [Entry(chunk, |chunk|)]);
    RingBytesOne(Entry(chunk, |chunk|));
    assert r.ring == es[..k] + r.ring[k..];
    RingBytesConcat(es[..k], r.ring[k..]);
  }

  lemma MoveLost<T>(sent: multiset<T>, before: multiset<T>, after: multiset<T>, coalesce: multiset<T>,
                    evicted: multiset<T>, lost: multiset<T>, chunk: multiset<T>)
    requires before + chunk == lost + after
    ensures sent + after + coalesce + (evicted + lost) == sent + before + coalesce + evicted + chunk
  {
    var rest := sent + coalesce + evicted;
    assert sent + after + coalesce + (evicted + lost) == rest + (lost + after);
    assert sent + before + coalesce + evicted + chunk == rest + (before + chunk);
  }

  lemma PushHolds<T>(r: State<T>, chunk: seq<T>, max: nat)
    ensures Held(PushChunk(r, chunk, max)) == Held(r) + multiset(chunk)
  {
    hide PushChunk, RingBytes;
    var lost := PushFacts(r, chunk, max);
    var r' := PushChunk(r, chunk, max);
    var before, after := RingBytes(r.ring), RingBytes(r'.ring);
    assert multiset(before) + multiset(chunk) == multiset(before + chunk)
        == multiset(lost + after) == multiset(lost) + multiset(after);
    assert multiset(r'.evicted) == multiset(r.evicted + lost) == multiset(r.evicted) + multiset(lost);
    MoveLost(multiset(r.sent), multiset(before), multiset(after), multiset(r.coalesce), multiset(r.evicted),
             multiset(lost), multiset(chunk));
  }

  lemma FlushHolds<T>(r: State<T>, now: int, max: nat)
    ensures Held(Flush(r, now, max)) == Held(r)
  {
    hide PushChunk, RingBytes;
    if r.coalesce != [] && (r.paused || r.throttled) {
      PushHolds(r.(coalesce := [], timer := None, lastFlush := Some(now)), r.coalesce, max);
    }
  }

  /** The two destinations of a chunk of PTY output. */
  predicate GoesToRing<T>(r: State<T>, amount: int, cfg: Config) {
    r.paused || r.throttled || amount > cfg.hwm
  }

  function Throttle<T>(r: State<T>, amount: int, cfg: Config): State<T> {
    if amount > cfg.hwm then r.(throttled := true) else r
  }

  /** OnPty by destination, up to the heartbeat's bookkeeping. */
  lemma OnPtyCases<T>(r: State<T>, data: seq<T>, amount: int, now: int, id: nat, cfg: Config)
    ensures var r' := OnPty(r, data, amount, now, id, cfg);
            if GoesToRing(r, amount, cfg) then
              r' == PushChunk(Throttle(r, amount, cfg), data, cfg.outputBufferMax)
                      .(pausedBytes := r'.pausedBytes, lastActSig := r'.lastActSig, activity := r'.activity)
            else if FlushesAtOnce(r, data, now) then
              r' == Flush(r.(coalesce := r.coalesce + data, timer := None), now, cfg.outputBufferMax)
            else
              r' == r.(coalesce := r.coalesce + data, timer := if r.timer == None then Some(id) else r.timer)
  {
    hide PushChunk, Flush, FlushesAtOnce;
  }

  lemma OnPtyHolds<T>(r: State<T>, data: seq<T>, amount: int, now: int, id: nat, cfg: Config)
    ensures Held(OnPty(r, data, amount, now, id, cfg)) == Held(r) + multiset(data)
  {
    hide PushChunk, RingBytes, Flush, OnPty;
    OnPtyCases(r, data, amount, now, id, cfg);
    if GoesToRing(r, amount, cfg) {
      PushHolds(Throttle(r, amount, cfg), data, cfg.outputBufferMax);
    } else if FlushesAtOnce(r, data, now) {
      FlushHolds(r.(coalesce := r.coalesce + data, timer := None), now, cfg.outputBufferMax);
    }
  }

  /** Draining moves bytes from the front of the ring to the end of what was sent, and nothing else. */
  lemma {:induction false} FlushClientFacts<T>(r: State<T>, amount: nat -> int, i: nat, cfg: Config)
    ensures var r' := FlushClient(r, amount, i, cfg);
            && r' == r.(ring := r'.ring, sent := r'.sent, throttled := r'.throttled)
            && r'.sent + RingBytes(r'.ring) == r.sent + RingBytes(r.ring)
            && (r'.ring != [] ==> r'.throttled)
            && (r'.throttled && !r.throttled ==> r.ring != [])
    decreases |r.ring|
  {
    hide RingBytes;
    if r.ring != [] && amount(i) <= cfg.hwm {
      FlushClientFacts(r.(ring := r.ring[1..], sent := r.sent + r.ring[0].data), amount, i + 1, cfg);
      assert r.ring == [r.ring[0]] + r.ring[1..];
      RingBytesConcat([r.ring[0]], r.ring[1..]);
      RingBytesOne(r.ring[0]);
    }
  }

  /** Of n entries, the first look at the write queue that finds it full. */
  predicate FullFirstAt(n: nat, size: nat, amount: nat -> int, i: nat, hwm: int) {
    && n <= size && (forall look: nat :: i <= look < i + n ==> amount(look) <= hwm)
    && (n < size ==> amount(i + n) > hwm)
  }

  /**
   * Draining sends the oldest entries, one for each look at a write queue that is not full, and stops at the
   * first look that finds it full; when all are sent, a look below the low mark ends throttling.
   */
  lemma {:induction false} FlushClientUntilFull<T>(r: State<T>, amount: nat -> int, i: nat, cfg: Config)
      returns (n: nat)
    ensures FullFirstAt(n, |r.ring|, amount, i, cfg.hwm)
    ensures var r' := FlushClient(r, amount, i, cfg);
            && r'.ring == r.ring[n..] && r'.sent == r.sent + RingBytes(r.ring[..n])
            && r'.throttled == (if n < |r.ring| then true else r.throttled && amount(i + n) >= cfg.lwm)
            && r' == r.(ring := r'.ring, sent := r'.sent, throttled := r'.throttled)
    decreases |r.ring|
  {
    hide RingBytes;
    if r.ring == [] || amount(i) > cfg.hwm {
      n := 0;
      NoRingBytes<T>();
      assert r.ring[..0] == [] && r.ring[0..] == r.ring && r.sent + [] == r.sent;
    } else {
      var rest := r.(ring := r.ring[1..], sent := r.sent + r.ring[0].data);
      var m := FlushClientUntilFull(rest, amount, i + 1, cfg);
      n := m + 1;
      assert r.ring[..n] == [r.ring[0]] + r.ring[1..][..m] && r.ring[n..] == r.ring[1..][m..];
      RingBytesConcat([r.ring[0]], r.ring[1..][..m]);
      RingBytesOne(r.ring[0]);
      assert r.sent + r.ring[0].data + RingBytes(r.ring[1..][..m]) == r.sent + (r.ring[0].data + RingBytes(r.ring[1..][..m]));
    }
  }

  lemma NoRingBytes<T>()
    ensures RingBytes<T>([]) == []
  {
  }

  lemma FlushClientHolds<T>(r: State<T>, amount: nat -> int, i: nat, cfg: Config)
    ensures Held(FlushClient(r, amount, i, cfg)) == Held(r)
  {
    hide RingBytes, FlushClient;
    FlushClientFacts(r, amount, i, cfg);
    var r' := FlushClient(r, amount, i, cfg);
    assert multiset(r'.sent + RingBytes(r'.ring)) == multiset(r.sent + RingBytes(r.ring));
  }

  // ---- safety in every interleaving ----

  /** Every received byte is in exactly one place. */
  ghost predicate Conserving(s: System) {
    Positioned(s.received) && Held(s.r) == multiset(s.received)
  }

  /**
   * A non-empty ring means paused, throttled or about to be flushed by a resume; coalesced bytes wait for
   * a timer that will fire, and stay below the flush size.
   */
  predicate Scheduled(s: System) {
    && (s.r.ring != [] ==> s.r.paused || s.r.throttled || s.resuming)
    && (s.r.timer.Some? ==> s.r.timer.value in s.armed)
    && (s.r.coalesce != [] ==> s.r.timer.Some?)
    && |s.r.coalesce| < COALESCE_FLUSH_BYTES
  }

  lemma InitialSafe(s: System)
    requires Initial(s)
    ensures Conserving(s) && Scheduled(s)
  {
    hide RingBytes;
  }

  lemma {:induction false} StepConserves(s: System, step: Step, cfg: Config)
    requires Conserving(s)
    ensures Conserving(Next(s, step, cfg))
  {
    hide RingBytes, FlushClient, OnPty, Flush;
    match step {
      case Pty(data, amount, now, id, _) =>
        OnPtyHolds(s.r, Tag(data, |s.received|), amount, now, id, cfg);
      case Fire(_, at) => FlushHolds(s.r, at, cfg.outputBufferMax);
      case Pause =>
      case ResumeClears =>
      case ResumeFlushes(amount) => FlushClientHolds(s.r, amount, 0, cfg);
      case Tick(amount) => FlushClientHolds(s.r, amount, 2, cfg);
    }
  }

  lemma FlushFacts<T>(r: State<T>, now: int, max: nat)
    ensures var r' := Flush(r, now, max);
            && r'.coalesce == [] && r'.timer == None && r'.paused == r.paused && r'.throttled == r.throttled
            && (r'.ring == r.ring || r.paused || r.throttled)
  {
    if r.coalesce != [] && (r.paused || r.throttled) {
      hide PushChunk;
      var _ := PushFacts(r.(coalesce := [], timer := None, lastFlush := Some(now)), r.coalesce, max);
    }
  }

  lemma StepScheduled(s: System, step: Step, cfg: Config)
    requires Scheduled(s) && Enabled(s, step)
    ensures Scheduled(Next(s, step, cfg))
  {
    hide RingBytes, FlushClient, OnPty, Flush, PushChunk;
    match step {
      case Pty(data, amount, now, id, _) =>
        var tagged := Tag(data, |s.received|);
        OnPtyCases(s.r, tagged, amount, now, id, cfg);
        if GoesToRing(s.r, amount, cfg) {
          var _ := PushFacts(Throttle(s.r, amount, cfg), tagged, cfg.outputBufferMax);
        } else if FlushesAtOnce(s.r, tagged, now) {
          FlushFacts(s.r.(coalesce := s.r.coalesce + tagged, timer := None), now, cfg.outputBufferMax);
        }
      case Fire(_, at) => FlushFacts(s.r, at, cfg.outputBufferMax);
      case Pause =>
      case ResumeClears =>
      case ResumeFlushes(amount) => FlushClientFacts(s.r, amount, 0, cfg);
      case Tick(amount) => FlushClientFacts(s.r, amount, 2, cfg);
    }
  }

  /** Relay safety: from any attachment, every interleaving of any length keeps both invariants. */
  lemma {:induction false} RunSafe(s: System, steps: seq<Step>, cfg: Config)
    requires Initial(s) && CanRun(s, steps, cfg)
    ensures Conserving(RunSteps(s, steps, cfg)) && Scheduled(RunSteps(s, steps, cfg))
  {
    hide Next, Initial, Conserving, Scheduled, Enabled;
    if steps == [] {
      InitialSafe(s);
    } else {
      RunSafe(s, steps[..|steps| - 1], cfg);
      StepConserves(RunSteps(s, steps[..|steps| - 1], cfg), steps[|steps| - 1], cfg);
      StepScheduled(RunSteps(s, steps[..|steps| - 1], cfg), steps[|steps| - 1], cfg);
    }
  }

  // ---- what was received ----

  lemma TagConcat(a: seq<byte>, b: seq<byte>, from: nat)
    ensures Tag(a + b, from) == Tag(a, from) + Tag(b, from + |a|)
  {
  }

  lemma TagLength(bytes: seq<byte>, from: nat)
    ensures |Tag(bytes, from)| == |bytes|
  {
  }

  lemma StepReceives(s: System, step: Step, cfg: Config)
    ensures Next(s, step, cfg).received == s.received + Tag(OutputOf(step), |s.received|)
  {
    hide OnPty, Flush, FlushClient, Backpressure;
    assert Tag([], |s.received|) == [] && s.received + [] == s.received;
  }

  lemma OutputSnoc(steps: seq<Step>, cfg: Config, s: System)
    requires steps != []
    ensures var n := |steps| - 1;
            && Output(steps) == Output(steps[..n]) + OutputOf(steps[n])
            && RunSteps(s, steps, cfg) == Next(RunSteps(s, steps[..n], cfg), steps[n], cfg)
  {
    hide Next;
  }

  lemma {:induction false} ReceivedIsOutput(s: System, steps: seq<Step>, cfg: Config)
    ensures RunSteps(s, steps, cfg).received == s.received + Tag(Output(steps), |s.received|)
  {
    if steps == [] {
      assert s.received + Tag([], |s.received|) == s.received;
    } else {
      hide *;
      var n := |steps| - 1;
      ReceivedIsOutput(s, steps[..n], cfg);
      OutputSnoc(steps, cfg, s);
      StepReceives(RunSteps(s, steps[..n], cfg), steps[n], cfg);
      TagLength(Output(steps[..n]), |s.received|);
      TagConcat(Output(steps[..n]), OutputOf(steps[n]), |s.received|);
      Regroup3(s.received, Tag(Output(steps[..n]), |s.received|),
               Tag(OutputOf(steps[n]), |s.received| + |Output(steps[..n])|));
    }
  }

  lemma Regroup3<T>(a: seq<T>, b: seq<T>, c: seq<T>)
    ensures a + b + c == a + (b + c)
  {
  }
}

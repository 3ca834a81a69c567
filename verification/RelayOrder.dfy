/** When the relay delivers in order: the exact step that breaks the order, and the discipline that avoids it. */
module RelayOrder {
  import opened Bytes
  import opened RingBuffer
  import opened Relay
  import opened RelayRuns

  // ---- exactly one place ----

  lemma CountOne(received: seq<Tagged>, p: nat)
    requires Positioned(received) && p < |received|
    ensures multiset(received)[received[p]] == 1
  {
    var x := received[p];
    assert received == received[..p] + [x] + received[p + 1..];
    assert x !in received[..p] && x !in received[p + 1..];
    assert multiset(received)[x] == multiset(received[..p])[x] + multiset([x])[x] + multiset(received[p + 1..])[x];
  }

  /** Each received byte occurs once, in one of: delivered, ring, coalesce buffer, evicted. */
  lemma ExactlyOnePlace(s: System, p: nat)
    requires Conserving(s) && p < |s.received|
    ensures var x := s.received[p];
            multiset(s.r.sent)[x] + multiset(RingBytes(s.r.ring))[x]
              + multiset(s.r.coalesce)[x] + multiset(s.r.evicted)[x] == 1
  {
    CountOne(s.received, p);
  }

  lemma OnlyReceived(s: System, x: Tagged)
    requires Conserving(s)
    requires x in s.r.sent || x in RingBytes(s.r.ring) || x in s.r.coalesce || x in s.r.evicted
    ensures x.pos < |s.received| && s.received[x.pos] == x
  {
    assert x in Held(s.r);
    assert x in s.received;
  }

  // ---- order ----

  predicate Increasing(xs: seq<Tagged>) {
    forall i, j :: 0 <= i < j < |xs| ==> xs[i].pos < xs[j].pos
  }

  lemma DropMiddle(a: seq<Tagged>, b: seq<Tagged>, c: seq<Tagged>)
    requires Increasing(a + b + c)
    ensures Increasing(a + c)
  {
    var all := a + b + c;
    forall i, j | 0 <= i < j < |a + c| ensures (a + c)[i].pos < (a + c)[j].pos {
      var i' := if i < |a| then i else i + |b|;
      var j' := if j < |a| then j else j + |b|;
      assert all[i'] == (a + c)[i] && all[j'] == (a + c)[j];
    }
  }

  lemma AppendFresh(s: System, data: seq<byte>)
    requires Conserving(s) && Increasing(Line(s.r))
    ensures Increasing(Line(s.r) + Tag(data, |s.received|))
  {
    var line, tagged := Line(s.r), Tag(data, |s.received|);
    forall i | 0 <= i < |line| ensures line[i].pos < |s.received| {
      OnlyReceived(s, line[i]);
    }
  }

  /** Later bytes placed before earlier ones break the order. */
  lemma SwapBreaks(a: seq<Tagged>, b: seq<Tagged>, c: seq<Tagged>)
    requires Increasing(a + b + c) && b != [] && c != []
    ensures !Increasing(a + c + b)
  {
    assert (a + b + c)[|a|] == b[0] && (a + b + c)[|a| + |b|] == c[0];
    assert (a + c + b)[|a|] == c[0] && (a + c + b)[|a| + |c|] == b[0];
  }

  /** The step hands out or queues bytes ahead of older ones. */
  predicate Overtakes(s: System, step: Step, cfg: Config) {
    match step
    case Pty(data, amount, now, _, _) =>
      if GoesToRing(s.r, amount, cfg) then data != [] && s.r.coalesce != []
      else FlushesAtOnce(s.r, Tag(data, 0), now) && |s.r.coalesce| + |data| > 0 && RingBytes(s.r.ring) != []
    case Fire(_, _) => !s.r.paused && !s.r.throttled && s.r.coalesce != [] && RingBytes(s.r.ring) != []
    case _ => false
  }

  lemma ToRingOrder(s: System, data: seq<byte>, r1: State<Tagged>, max: nat)
    requires Conserving(s) && Increasing(Line(s.r)) && r1 == s.r.(throttled := r1.throttled)
    ensures Increasing(Line(PushChunk(r1, Tag(data, |s.received|), max))) <==> data == [] || s.r.coalesce == []
  {
    hide PushChunk, RingBytes, Conserving;
    var tagged := Tag(data, |s.received|);
    var lost := PushFacts(r1, tagged, max);
    var after := RingBytes(PushChunk(r1, tagged, max).ring);
    var ring, sent, coalesce := RingBytes(s.r.ring), s.r.sent, s.r.coalesce;
    AppendFresh(s, data);
    if coalesce == [] {
      assert Line(s.r) + tagged == sent + (ring + tagged) == sent + lost + after;
      DropMiddle(sent, lost, after);
      assert sent + after + coalesce == sent + after;
    } else if data == [] {
      assert ring + tagged == ring;
      assert Line(s.r) == sent + lost + (after + coalesce);
      DropMiddle(sent, lost, after + coalesce);
      assert sent + after + coalesce == sent + (after + coalesce);
    } else {
      var kept := |after| - |tagged|;
      assert after[kept..] == tagged by {
        assert (ring + tagged)[|ring|..] == tagged;
        assert (lost + after)[|ring|..] == after[kept..];
      }
      assert Line(s.r) + tagged == sent + ring + (coalesce + tagged);
      var moved := sent + after + coalesce;
      assert moved[|sent| + kept] == tagged[0] && moved[|sent| + |after|] == coalesce[0];
      assert (Line(s.r) + tagged)[|sent| + |ring|] == coalesce[0];
      assert (Line(s.r) + tagged)[|Line(s.r)|] == tagged[0];
    }
  }

  /** A flush of what is coalesced, plus `data` just appended to it. */
  lemma FlushOrder(s: System, data: seq<byte>, now: int, max: nat)
    requires Conserving(s) && Increasing(Line(s.r))
    ensures var all := s.r.coalesce + Tag(data, |s.received|);
            (Increasing(Line(Flush(s.r.(coalesce := all, timer := None), now, max)))
             <==> s.r.paused || s.r.throttled || all == [] || RingBytes(s.r.ring) == [])
  {
    hide PushChunk, RingBytes, Conserving;
    var tagged := Tag(data, |s.received|);
    var all := s.r.coalesce + tagged;
    var r1 := s.r.(coalesce := all, timer := None);
    var ring, sent := RingBytes(s.r.ring), s.r.sent;
    AppendFresh(s, data);
    assert Line(s.r) + tagged == sent + ring + all;
    if all == [] {
      assert Line(Flush(r1, now, max)) == sent + ring + all;
    } else if s.r.paused || s.r.throttled {
      var idle := r1.(coalesce := [], lastFlush := Some(now));
      var lost := PushFacts(idle, all, max);
      var after := RingBytes(PushChunk(idle, all, max).ring);
      assert sent + ring + all == sent + (ring + all) == sent + lost + after;
      DropMiddle(sent, lost, after);
      assert sent + after + [] == sent + after;
    } else {
      assert Line(Flush(r1, now, max)) == sent + all + ring;
      if ring == [] {
        assert sent + all + ring == sent + ring + all;
      } else {
        SwapBreaks(sent, ring, all);
      }
    }
  }

  /** From an ordered state, a step keeps the order if and only if it does not overtake. */
  lemma OrderBrokenExactlyByOvertaking(s: System, step: Step, cfg: Config)
    requires Conserving(s) && Scheduled(s) && Increasing(Line(s.r)) && Enabled(s, step)
    ensures Increasing(Line(Next(s, step, cfg).r)) <==> !Overtakes(s, step, cfg)
  {
    hide PushChunk, RingBytes, Conserving, Increasing, OnPty, Flush, FlushClient, LeadingEdgeDue;
    match step {
      case Pty(data, amount, now, id, _) =>
        var tagged := Tag(data, |s.received|);
        OnPtyCases(s.r, tagged, amount, now, id, cfg);
        assert FlushesAtOnce(s.r, tagged, now) == FlushesAtOnce(s.r, Tag(data, 0), now);
        if GoesToRing(s.r, amount, cfg) {
          ToRingOrder(s, data, Throttle(s.r, amount, cfg), cfg.outputBufferMax);
        } else if FlushesAtOnce(s.r, tagged, now) {
          FlushOrder(s, data, now, cfg.outputBufferMax);
        } else {
          AppendFresh(s, data);
          assert Line(Next(s, step, cfg).r) == Line(s.r) + tagged;
        }
      case Fire(_, at) =>
        FlushOrder(s, [], at, cfg.outputBufferMax);
        assert s.r.coalesce + Tag([], |s.received|) == s.r.coalesce;
        FlushIgnoresTimer(s.r, at, cfg.outputBufferMax);
      case Pause =>
      case ResumeClears =>
      case ResumeFlushes(amount) => FlushClientFacts(s.r, amount, 0, cfg);
      case Tick(amount) => FlushClientFacts(s.r, amount, 2, cfg);
    }
  }

  lemma FlushIgnoresTimer<T>(r: State<T>, now: int, max: nat)
    ensures Flush(r, now, max) == Flush(r.(timer := None), now, max)
  {
    hide PushChunk;
    if r.coalesce != [] && (r.paused || r.throttled) {
      assert r.(coalesce := [], timer := None, lastFlush := Some(now))
          == r.(timer := None).(coalesce := [], timer := None, lastFlush := Some(now));
    }
  }

  // ---- ordered runs ----

  /** The received bytes without those in gone. */
  function Without(received: seq<Tagged>, gone: seq<Tagged>): seq<Tagged> {
    if received == [] then []
    else
      var n := |received| - 1;
      Without(received[..n], gone) + if received[n] in gone then [] else [received[n]]
  }

  lemma {:induction false} WithoutFacts(received: seq<Tagged>, gone: seq<Tagged>)
    requires Positioned(received)
    ensures Increasing(Without(received, gone))
    ensures forall x :: x in Without(received, gone) <==> x in received && x !in gone
  {
    if received != [] {
      var n := |received| - 1;
      WithoutFacts(received[..n], gone);
      var before := Without(received[..n], gone);
      forall i | 0 <= i < |before| ensures before[i].pos < n {
        assert before[i] in received[..n];
      }
      assert received == received[..n] + [received[n]];
    }
  }

  lemma HeadIsMember(a: seq<Tagged>)
    ensures |a| > 0 ==> a[0] in a
  {
  }

  /** The last element of an increasing sequence is its largest. */
  lemma LastIsLargest(a: seq<Tagged>)
    requires a != [] && Increasing(a)
    ensures a[|a| - 1] in a && a[|a| - 1] !in a[..|a| - 1]
    ensures forall x :: x in a ==> x.pos <= a[|a| - 1].pos && (x == a[|a| - 1] || x.pos < a[|a| - 1].pos)
    ensures forall x :: x in a <==> x in a[..|a| - 1] || x == a[|a| - 1]
    ensures Increasing(a[..|a| - 1])
  {
    assert a == a[..|a| - 1] + [a[|a| - 1]];
  }

  lemma {:induction false} IncreasingUnique(a: seq<Tagged>, b: seq<Tagged>)
    requires Increasing(a) && Increasing(b)
    requires forall x :: x in a <==> x in b
    ensures a == b
  {
    HeadIsMember(a);
    HeadIsMember(b);
    if |a| > 0 {
      hide Increasing;
      var m, n := |a| - 1, |b| - 1;
      LastIsLargest(a);
      LastIsLargest(b);
      assert a[m] == b[n];
      forall x ensures x in a[..m] <==> x in b[..n] {
        assert x in a <==> x in b;
        assert x == a[m] ==> x !in a[..m] && x !in b[..n];
      }
      IncreasingUnique(a[..m], b[..n]);
      assert a == a[..m] + [a[m]] && b == b[..n] + [b[n]];
    }
  }

  /** In an ordered state the line is the received stream, in order, minus exactly the evicted bytes. */
  lemma OrderedLine(s: System)
    requires Conserving(s) && Increasing(Line(s.r))
    ensures Line(s.r) == Without(s.received, s.r.evicted)
  {
    WithoutFacts(s.received, s.r.evicted);
    forall x ensures x in Line(s.r) <==> x in Without(s.received, s.r.evicted) {
      if x in s.received {
        var p :| 0 <= p < |s.received| && s.received[p] == x;
        ExactlyOnePlace(s, p);
      } else if x in Line(s.r) {
        OnlyReceived(s, x);
      }
    }
    IncreasingUnique(Line(s.r), Without(s.received, s.r.evicted));
  }

  /** The line is in order after the first k steps. */
  ghost predicate OrderedAt(s: System, steps: seq<Step>, k: nat, cfg: Config)
    requires k <= |steps|
  {
    Increasing(Line(RunSteps(s, steps[..k], cfg).r))
  }

  predicate OvertakesAt(s: System, steps: seq<Step>, k: nat, cfg: Config)
    requires k < |steps|
  {
    Overtakes(RunSteps(s, steps[..k], cfg), steps[k], cfg)
  }

  lemma InitialOrdered(s: System)
    requires Initial(s)
    ensures Increasing(Line(s.r))
  {
    hide RingBytes;
    assert Line(s.r) == s.received;
  }

  lemma CanRunPrefix(s: System, steps: seq<Step>, cfg: Config)
    requires CanRun(s, steps, cfg) && steps != []
    ensures var n := |steps| - 1;
            && CanRun(s, steps[..n], cfg) && Enabled(RunSteps(s, steps[..n], cfg), steps[n])
            && RunSteps(s, steps, cfg) == Next(RunSteps(s, steps[..n], cfg), steps[n], cfg)
  {
    hide Enabled, Next;
  }

  lemma OrderedPrefix(s: System, steps: seq<Step>, cfg: Config)
    requires steps != []
    ensures var n := |steps| - 1;
            && (forall k :: 0 <= k <= n ==> OrderedAt(s, steps, k, cfg) == OrderedAt(s, steps[..n], k, cfg))
            && OrderedAt(s, steps, n, cfg) == Increasing(Line(RunSteps(s, steps[..n], cfg).r))
            && OrderedAt(s, steps, n + 1, cfg) == Increasing(Line(RunSteps(s, steps, cfg).r))
  {
    hide RunSteps, Increasing, Line;
    var n := |steps| - 1;
    assert forall k | 0 <= k <= n :: steps[..n][..k] == steps[..k];
    assert steps[..n + 1] == steps;
  }

  lemma OvertakesPrefix(s: System, steps: seq<Step>, cfg: Config)
    requires steps != []
    ensures var n := |steps| - 1;
            && (forall k :: 0 <= k < n ==> OvertakesAt(s, steps, k, cfg) == OvertakesAt(s, steps[..n], k, cfg))
            && OvertakesAt(s, steps, n, cfg) == Overtakes(RunSteps(s, steps[..n], cfg), steps[n], cfg)
  {
    hide RunSteps, Overtakes;
    var n := |steps| - 1;
    assert forall k | 0 <= k < n :: steps[..n][..k] == steps[..k] && steps[..n][k] == steps[k];
  }

  /** Whole runs: the line is in order at every moment if and only if no step overtakes. */
  lemma {:induction false} OrderKeptWithoutOvertaking(s: System, steps: seq<Step>, cfg: Config)
    requires Initial(s) && CanRun(s, steps, cfg)
    ensures (forall k :: 0 <= k <= |steps| ==> OrderedAt(s, steps, k, cfg))
       <==> (forall k :: 0 <= k < |steps| ==> !OvertakesAt(s, steps, k, cfg))
  {
    hide *;
    if steps == [] {
      InitialOrdered(s);
      OrderedAtOnce(s, cfg);
    } else {
      var n := |steps| - 1;
      CanRunPrefix(s, steps, cfg);
      RunSafe(s, steps[..n], cfg);
      OrderKeptWithoutOvertaking(s, steps[..n], cfg);
      OrderedPrefix(s, steps, cfg);
      OvertakesPrefix(s, steps, cfg);
      if OrderedAt(s, steps, n, cfg) {
        OrderBrokenExactlyByOvertaking(RunSteps(s, steps[..n], cfg), steps[n], cfg);
      }
    }
  }

  lemma OrderedAtOnce(s: System, cfg: Config)
    ensures OrderedAt(s, [], 0, cfg) == Increasing(Line(s.r))
  {
    hide Increasing;
  }

  /**
   * Relay order over whole runs: if no step overtakes, then delivered bytes, ring and coalesce buffer
   * together are the received stream in order, minus only what the ring evicted.
   */
  lemma {:induction false} RunDeliversInOrder(s: System, steps: seq<Step>, cfg: Config)
    requires Initial(s) && CanRun(s, steps, cfg)
    requires forall k :: 0 <= k < |steps| ==> !OvertakesAt(s, steps, k, cfg)
    ensures var t := RunSteps(s, steps, cfg);
            Line(t.r) == Without(t.received, t.r.evicted)
  {
    hide Initial, CanRun, RunSteps, Conserving, OvertakesAt;
    OrderKeptWithoutOvertaking(s, steps, cfg);
    assert OrderedAt(s, steps, |steps|, cfg) && steps[..|steps|] == steps;
    RunSafe(s, steps, cfg);
    OrderedLine(RunSteps(s, steps, cfg));
  }

  // ---- a discipline that never overtakes ----

  /** Holding back (pause or throttle) begins only with nothing coalesced; no output arrives inside a resume. */
  predicate Disciplined(s: System, step: Step, cfg: Config) {
    var t := Next(s, step, cfg);
    && (!(s.r.paused || s.r.throttled) && (t.r.paused || t.r.throttled) ==> s.r.coalesce == [])
    && !(step.Pty? && s.resuming)
  }

  predicate Quiet(s: System) {
    s.r.ring != [] || s.r.paused || s.r.throttled ==> s.r.coalesce == []
  }

  lemma DisciplinedStep(s: System, step: Step, cfg: Config)
    requires Scheduled(s) && Quiet(s) && Enabled(s, step) && Disciplined(s, step, cfg)
    ensures !Overtakes(s, step, cfg) && Quiet(Next(s, step, cfg))
  {
    assert RingBytes<Tagged>([]) == [];
    hide PushChunk, RingBytes, OnPty, Flush, FlushClient, FlushesAtOnce;
    match step {
      case Pty(data, amount, now, id, _) =>
        var tagged := Tag(data, |s.received|);
        OnPtyCases(s.r, tagged, amount, now, id, cfg);
        if GoesToRing(s.r, amount, cfg) {
          var _ := PushFacts(Throttle(s.r, amount, cfg), tagged, cfg.outputBufferMax);
        } else {
          FlushFacts(s.r.(coalesce := s.r.coalesce + tagged, timer := None), now, cfg.outputBufferMax);
        }
      case Fire(_, at) => FlushFacts(s.r, at, cfg.outputBufferMax);
      case Pause =>
      case ResumeClears =>
      case ResumeFlushes(amount) => FlushClientFacts(s.r, amount, 0, cfg);
      case Tick(amount) => FlushClientFacts(s.r, amount, 2, cfg);
    }
  }

  predicate DisciplinedAt(s: System, steps: seq<Step>, k: nat, cfg: Config)
    requires k < |steps|
  {
    Disciplined(RunSteps(s, steps[..k], cfg), steps[k], cfg)
  }

  lemma {:induction false} DisciplinedRun(s: System, steps: seq<Step>, cfg: Config)
    requires Initial(s) && CanRun(s, steps, cfg)
    requires forall k :: 0 <= k < |steps| ==> DisciplinedAt(s, steps, k, cfg)
    ensures Quiet(RunSteps(s, steps, cfg))
    ensures forall k :: 0 <= k < |steps| ==> !OvertakesAt(s, steps, k, cfg)
  {
    hide *;
    if steps == [] {
      InitialQuiet(s, cfg);
    } else {
      var n := |steps| - 1;
      CanRunPrefix(s, steps, cfg);
      DisciplinedPrefix(s, steps, cfg);
      OvertakesPrefix(s, steps, cfg);
      DisciplinedRun(s, steps[..n], cfg);
      RunSafe(s, steps[..n], cfg);
      DisciplinedStep(RunSteps(s, steps[..n], cfg), steps[n], cfg);
    }
  }

  lemma DisciplinedPrefix(s: System, steps: seq<Step>, cfg: Config)
    requires steps != []
    ensures var n := |steps| - 1;
            && (forall k :: 0 <= k < n ==> DisciplinedAt(s, steps, k, cfg) == DisciplinedAt(s, steps[..n], k, cfg))
            && DisciplinedAt(s, steps, n, cfg) == Disciplined(RunSteps(s, steps[..n], cfg), steps[n], cfg)
  {
    hide RunSteps, Disciplined;
    var n := |steps| - 1;
    assert forall k | 0 <= k < n :: steps[..n][..k] == steps[..k] && steps[..n][k] == steps[k];
  }

  lemma InitialQuiet(s: System, cfg: Config)
    requires Initial(s)
    ensures Quiet(RunSteps(s, [], cfg))
  {
  }

  // ---- everything gets delivered ----

  /** A write queue that is always found empty. */
  function NoBacklog(look: nat): int {
    0
  }

  /** Draining with an empty write queue sends the whole ring and ends throttling. */
  lemma {:induction false} DrainsAll<T>(r: State<T>, i: nat, cfg: Config)
    requires 0 < cfg.lwm && 0 <= cfg.hwm
    ensures FlushClient(r, NoBacklog, i, cfg)
         == r.(ring := [], sent := r.sent + RingBytes(r.ring), throttled := false)
    decreases |r.ring|
  {
    hide RingBytes;
    if r.ring == [] {
      assert RingBytes<T>([]) == [] by { NoRingBytes<T>(); }
      assert r.sent + [] == r.sent;
    } else {
      var rest := r.(ring := r.ring[1..], sent := r.sent + r.ring[0].data);
      DrainsAll(rest, i + 1, cfg);
      assert r.ring == [r.ring[0]] + r.ring[1..];
      RingBytesConcat([r.ring[0]], r.ring[1..]);
      RingBytesOne(r.ring[0]);
      assert rest.sent + RingBytes(r.ring[1..]) == r.sent + (r.ring[0].data + RingBytes(r.ring[1..]));
    }
  }

  /**
   * Nothing is stuck: in any scheduled state that is not paused, one backpressure tick with an empty write
   * queue and one firing of the coalescing timer, which is still armed, deliver every byte in the line.
   */
  lemma NothingStuck(s: System, at: int, cfg: Config)
    requires Scheduled(s) && !s.r.paused && !s.resuming && 0 < cfg.lwm && 0 <= cfg.hwm && 0 <= cfg.cwm
    ensures var t := Next(s, Tick(NoBacklog), cfg);
            var u := if t.r.timer.Some? then Next(t, Fire(t.r.timer.value, at), cfg) else t;
            && (t.r.timer.Some? ==> Enabled(t, Fire(t.r.timer.value, at)))
            && u.r.sent == Line(s.r) && u.r.ring == [] && u.r.coalesce == [] && !u.r.throttled
  {
    hide RingBytes, FlushClient, PushChunk;
    NoRingBytes<Tagged>();
    DrainsAll(s.r, 2, cfg);
    assert s.r.ring == [] ==> s.r.sent + RingBytes(s.r.ring) == s.r.sent;
    assert s.r.coalesce == [] ==> s.r.sent + RingBytes(s.r.ring) + s.r.coalesce == s.r.sent + RingBytes(s.r.ring);
  }

  /** The client has everything that was received and not evicted. */
  ghost predicate CaughtUp(s: System) {
    multiset(s.r.sent) + multiset(s.r.evicted) == multiset(s.received)
  }

  lemma CaughtUpIs(s: System)
    requires Conserving(s)
    ensures CaughtUp(s) <==> RingBytes(s.r.ring) == [] && s.r.coalesce == []
  {
    hide RingBytes;
    var ring, coalesce := RingBytes(s.r.ring), s.r.coalesce;
    assert multiset(s.received) == multiset(s.r.sent) + multiset(s.r.evicted) + (multiset(ring) + multiset(coalesce));
    if CaughtUp(s) {
      assert |multiset(s.received)| == |multiset(s.r.sent) + multiset(s.r.evicted)|;
      assert |multiset(ring)| == |ring| && |multiset(coalesce)| == |coalesce|;
    }
  }

  /**
   * In any run, output that arrives while nothing holds it back leaves the client with everything received so
   * far (but for what its ring evicted) exactly when it is the first after an idle coalescing window, fills
   * the coalesce buffer, or there is nothing at all to send; otherwise some of it waits for the timer.
   */
  lemma {:induction false} LeadingEdgeDelivers(s: System, steps: seq<Step>, data: seq<byte>, amount: int, now: int, id: nat,
                            stopped: bool, cfg: Config)
    requires Initial(s) && CanRun(s, steps, cfg)
    requires var p := RunSteps(s, steps, cfg); !p.resuming && !GoesToRing(p.r, amount, cfg) && id !in p.armed
    ensures var p := RunSteps(s, steps, cfg);
            var t := Next(p, Pty(data, amount, now, id, stopped), cfg);
            && (CaughtUp(t) <==> LeadingEdgeDue(p.r, now) || |p.r.coalesce| + |data| >= COALESCE_FLUSH_BYTES
                                 || |p.r.coalesce| + |data| == 0)
            && (!CaughtUp(t) ==> t.r.timer.Some? && t.r.timer.value in t.armed)
  {
    var p := RunSteps(s, steps, cfg);
    var tagged := Tag(data, |p.received|);
    var step := Pty(data, amount, now, id, stopped);
    RunSafe(s, steps, cfg);
    NoRingBytes<Tagged>();
    hide RunSteps, Initial, CanRun, RingBytes, PushChunk, OnPty, Flush, Conserving, CaughtUp, LeadingEdgeDue;
    StepConserves(p, step, cfg);
    StepScheduled(p, step, cfg);
    CaughtUpIs(Next(p, step, cfg));
    OnPtyCases(p.r, tagged, amount, now, id, cfg);
    FlushFacts(p.r.(coalesce := p.r.coalesce + tagged, timer := None), now, cfg.outputBufferMax);
  }

  // ---- what happens otherwise ----

  /**
   * Without the discipline the order is lost: whenever bytes are being coalesced, one pause and resume
   * around the next chunk, followed by the coalescing timer, delivers that chunk before those bytes.
   */
  lemma PauseReorders(s: System, data: seq<byte>, now: int, id: nat, cfg: Config)
    requires Scheduled(s) && s.r.coalesce != [] && s.r.ring == [] && !s.r.throttled && !s.r.paused && !s.resuming
    requires id !in s.armed && 0 <= cfg.lwm <= cfg.hwm
    ensures var s1 := Next(s, Pause, cfg);
            var s2 := Next(s1, Pty(data, 0, now, id, false), cfg);
            var s3 := Next(s2, ResumeClears, cfg);
            var s4 := Next(s3, ResumeFlushes(NoBacklog), cfg);
            var s5 := Next(s4, Fire(s.r.timer.value, now), cfg);
            && Enabled(s, Pause) && Enabled(s1, Pty(data, 0, now, id, false)) && Enabled(s2, ResumeClears)
            && Enabled(s3, ResumeFlushes(NoBacklog)) && Enabled(s4, Fire(s.r.timer.value, now))
            && s4.armed == s.armed
            && s5.r.sent == s.r.sent + Tag(data, |s.received|) + s.r.coalesce
  {
    var tagged := Tag(data, |s.received|);
    var s1 := Next(s, Pause, cfg);
    var s2 := Next(s1, Pty(data, 0, now, id, false), cfg);
    PushAlone(s1.r, tagged, cfg.outputBufferMax);
    hide PushChunk;
    OnPtyCases(s1.r, tagged, 0, now, id, cfg);
    hide OnPty;
    var s3 := Next(s2, ResumeClears, cfg);
    FlushClientStep(s3.r, NoBacklog, 0, cfg);
    FlushClientStep(s3.r.(ring := s3.r.ring[1..], sent := s3.r.sent + s3.r.ring[0].data), NoBacklog, 1, cfg);
  }

  /**
   * And such states are reachable: right after an attach to an idle terminal, the first chunk goes out at
   * once and a second one inside the coalescing window is held back. So three chunks, one pause and one
   * resume deliver the third chunk before the second.
   */
  lemma ReorderingRun(s: System, first: seq<byte>, second: seq<byte>, third: seq<byte>, now: int, cfg: Config)
    requires Initial(s) && s.armed == {} && s.r.ring == [] && !s.r.throttled && 0 <= cfg.lwm <= cfg.hwm
    requires first != [] && 0 < |second| < COALESCE_FLUSH_BYTES
    ensures var s1 := Next(s, Pty(first, 0, now, 1, false), cfg);
            var s2 := Next(s1, Pty(second, 0, now, 2, false), cfg);
            var s3 := Next(s2, Pause, cfg);
            var s4 := Next(s3, Pty(third, 0, now, 3, false), cfg);
            var s5 := Next(s4, ResumeClears, cfg);
            var s6 := Next(s5, ResumeFlushes(NoBacklog), cfg);
            var s7 := Next(s6, Fire(2, now), cfg);
            && s6.armed == {2}
            && s7.r.sent == s.r.sent + Tag(first, |s.received|)
                          + Tag(third, |s.received| + |first| + |second|) + Tag(second, |s.received| + |first|)
  {
    var s1 := Next(s, Pty(first, 0, now, 1, false), cfg);
    var s2 := Next(s1, Pty(second, 0, now, 2, false), cfg);
    SecondChunkWaits(s, first, second, now, cfg);
    hide Initial, Next, Scheduled, Tag;
    PauseReorders(s2, third, now, 3, cfg);
  }

  lemma SecondChunkWaits(s: System, first: seq<byte>, second: seq<byte>, now: int, cfg: Config)
    requires Initial(s) && s.armed == {} && s.r.ring == [] && !s.r.throttled && 0 <= cfg.lwm <= cfg.hwm
    requires first != [] && 0 < |second| < COALESCE_FLUSH_BYTES
    ensures var s1 := Next(s, Pty(first, 0, now, 1, false), cfg);
            var s2 := Next(s1, Pty(second, 0, now, 2, false), cfg);
            && Scheduled(s2) && !s2.resuming && s2.armed == {2} && |s2.received| == |s.received| + |first| + |second|
            && s2.r == s.r.(sent := s.r.sent + Tag(first, |s.received|), lastFlush := Some(now),
                            coalesce := Tag(second, |s.received| + |first|), timer := Some(2))
  {
    hide RingBytes, OnPty;
    var tagged1, tagged2 := Tag(first, |s.received|), Tag(second, |s.received| + |first|);
    OnPtyCases(s.r, tagged1, 0, now, 1, cfg);
    assert [] + tagged1 == tagged1 && [] + tagged2 == tagged2;
    var s1 := Next(s, Pty(first, 0, now, 1, false), cfg);
    assert s1.r == s.r.(sent := s.r.sent + tagged1, lastFlush := Some(now));
    assert s1.armed == {};
    OnPtyCases(s1.r, tagged2, 0, now, 2, cfg);
  }

  lemma PushAlone<T>(r: State<T>, chunk: seq<T>, max: nat)
    requires r.ring == []
    ensures PushChunk(r, chunk, max) == r.(ring := [Entry(chunk, |chunk|)])
  {
    var es := r.ring + [Entry(chunk, |chunk|)];
    assert es == [Entry(chunk, |chunk|)];
    assert r.evicted + RingBytes(es[..0]) == r.evicted;
  }
}

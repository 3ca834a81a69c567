/** What a client's ring may drop: only what its budget leaves no room for, over whole runs. */
module RelayBudget {
  import opened Bytes
  import opened RingBuffer
  import opened Relay
  import opened RelayRuns
  import opened RelayOrder
  import opened RelayPauses

  /** From entry k on: the longest suffix below the byte budget and within the entry cap, or the newest alone. */
  ghost predicate Retained<T>(all: seq<Entry<T>>, k: nat, max: nat) {
    && k <= |all| && (all != [] ==> k < |all| && (Fits(all[k..], max) || k == |all| - 1))
    && forall j :: 0 <= j < k ==> !Fits(all[j..], max)
  }

  /** A ring that needs no eviction. */
  predicate Kept<T>(ring: seq<Entry<T>>, max: nat) {
    |ring| <= 1 || Fits(ring, max)
  }

  /** The ring after `pushed` came in: what is retained of everything, and the rest logged as evicted. */
  ghost predicate Grown<T>(r: State<T>, pushed: seq<Entry<T>>, r': State<T>, max: nat) {
    var all := r.ring + pushed;
    var k := |all| - |r'.ring|;
    && 0 <= k && r'.ring == all[k..] && r'.evicted == r.evicted + RingBytes(all[..k]) && Retained(all, k, max)
  }

  // ---- one push ----

  lemma PushGrows<T>(r: State<T>, chunk: seq<T>, max: nat)
    ensures Grown(r, [Entry(chunk, |chunk|)], PushChunk(r, chunk, max), max)
  {
    hide RingBytes, Fits;
    var es := r.ring + [Entry(chunk, |chunk|)];
    EvictIsLongestFittingSuffix(es, max);
    hide Evict;
  }

  lemma SameGrows<T>(r: State<T>, r': State<T>, max: nat)
    requires Kept(r.ring, max) && r'.ring == r.ring && r'.evicted == r.evicted
    ensures Grown(r, [], r', max)
  {
    assert r.ring + [] == r.ring && r.ring[0..] == r.ring && r.ring[..0] == [];
    NoRingBytes<T>();
    assert r.evicted + [] == r.evicted;
  }

  lemma MoreDoesNotFit<T>(es: seq<Entry<T>>, more: seq<Entry<T>>, max: nat)
    ensures Fits(es + more, max) ==> Fits(es, max) && Fits(more, max)
  {
    TotalConcat(es, more);
  }

  lemma RetainedSnoc<T>(all: seq<Entry<T>>, k: nat, e: Entry<T>, j: nat, max: nat)
    requires Retained(all, k, max) && Retained(all[k..] + [e], j, max)
    ensures Retained(all + [e], k + j, max)
    ensures (all + [e])[k + j..] == (all[k..] + [e])[j..]
    ensures (all + [e])[..k + j] == all[..k] + (all[k..] + [e])[..j]
  {
    hide Fits;
    var grown, tail := all + [e], all[k..] + [e];
    assert grown[k + j..] == tail[j..];
    forall i | 0 <= i < k + j ensures !Fits(grown[i..], max) {
      if i < k {
        assert grown[i..] == all[i..] + [e];
        MoreDoesNotFit(all[i..], [e], max);
      } else {
        assert grown[i..] == tail[i - k..];
      }
    }
  }

  lemma GrownSnoc<T>(r: State<T>, pushed: seq<Entry<T>>, r1: State<T>, e: Entry<T>, r2: State<T>, max: nat)
    requires Grown(r, pushed, r1, max) && Grown(r1, [e], r2, max)
    ensures Grown(r, pushed + [e], r2, max)
  {
    hide Retained, RingBytes;
    var all := r.ring + pushed;
    var k, j := |all| - |r1.ring|, |r1.ring + [e]| - |r2.ring|;
    assert r1.ring + [e] == all[k..] + [e] && r.ring + (pushed + [e]) == all + [e];
    RetainedSnoc(all, k, e, j, max);
    RingBytesConcat(all[..k], (all[k..] + [e])[..j]);
    assert r.evicted + (RingBytes(all[..k]) + RingBytes((all[k..] + [e])[..j]))
        == r.evicted + RingBytes(all[..k]) + RingBytes((all[k..] + [e])[..j]);
  }

  lemma GrownKept<T>(r: State<T>, pushed: seq<Entry<T>>, r': State<T>, max: nat)
    requires Grown(r, pushed, r', max)
    ensures Kept(r'.ring, max)
  {
    hide RingBytes, Fits;
  }

  // ---- steps ----

  /** The chunk a step puts into the ring: output while held back, or what the timer finds while held back. */
  function PushedBy(s: System, step: Step, cfg: Config): seq<Entry<Tagged>> {
    match step
    case Pty(data, amount, _, _, _) =>
      if s.r.paused || s.r.throttled || amount > cfg.hwm then [Entry(Tag(data, |s.received|), |data|)] else []
    case Fire(_, _) =>
      if s.r.coalesce != [] && (s.r.paused || s.r.throttled) then [Entry(s.r.coalesce, |s.r.coalesce|)] else []
    case _ => []
  }

  function PushedIn(s: System, steps: seq<Step>, cfg: Config): seq<Entry<Tagged>> {
    if steps == [] then []
    else
      var n := |steps| - 1;
      PushedIn(s, steps[..n], cfg) + PushedBy(RunSteps(s, steps[..n], cfg), steps[n], cfg)
  }

  /** No resume flushes, and a tick finds nothing to do. */
  predicate DrainsNothing(s: System, step: Step, cfg: Config) {
    && !step.ResumeFlushes?
    && (step.Tick? ==> s.r.paused || !s.r.throttled || step.tickAmount(0) > cfg.cwm || step.tickAmount(1) >= cfg.lwm)
  }

  predicate DrainsNothingAt(s: System, steps: seq<Step>, k: nat, cfg: Config)
    requires k < |steps|
  {
    DrainsNothing(RunSteps(s, steps[..k], cfg), steps[k], cfg)
  }

  lemma FlushGrows<T>(r: State<T>, now: int, max: nat)
    requires Kept(r.ring, max)
    ensures Grown(r, if r.coalesce != [] && (r.paused || r.throttled) then [Entry(r.coalesce, |r.coalesce|)] else [],
                  Flush(r, now, max), max)
  {
    hide Kept, Grown, PushChunk;
    if r.coalesce != [] && (r.paused || r.throttled) {
      var idle := r.(coalesce := [], timer := None, lastFlush := Some(now));
      PushGrows(idle, r.coalesce, max);
      GrownFrom(idle, r, [Entry(r.coalesce, |r.coalesce|)], PushChunk(idle, r.coalesce, max), max);
    } else {
      SameGrows(r, Flush(r, now, max), max);
    }
  }

  /** Only ring and log matter. */
  lemma GrownFrom<T>(a: State<T>, b: State<T>, pushed: seq<Entry<T>>, r': State<T>, max: nat)
    requires Grown(a, pushed, r', max) && a.ring == b.ring && a.evicted == b.evicted
    ensures Grown(b, pushed, r', max)
  {
  }

  lemma GrownTo<T>(r: State<T>, pushed: seq<Entry<T>>, a: State<T>, b: State<T>, max: nat)
    requires Grown(r, pushed, a, max) && a.ring == b.ring && a.evicted == b.evicted
    ensures Grown(r, pushed, b, max)
  {
  }

  lemma OnPtyGrows<T>(r: State<T>, data: seq<T>, amount: int, now: int, id: nat, cfg: Config)
    requires Kept(r.ring, cfg.outputBufferMax)
    ensures Grown(r, if r.paused || r.throttled || amount > cfg.hwm then [Entry(data, |data|)] else [],
                  OnPty(r, data, amount, now, id, cfg), cfg.outputBufferMax)
  {
    hide Kept, Grown, PushChunk, OnPty, FlushesAtOnce, Flush;
    var max := cfg.outputBufferMax;
    var r' := OnPty(r, data, amount, now, id, cfg);
    OnPtyCases(r, data, amount, now, id, cfg);
    if GoesToRing(r, amount, cfg) {
      var held := Throttle(r, amount, cfg);
      PushGrows(held, data, max);
      GrownFrom(held, r, [Entry(data, |data|)], PushChunk(held, data, max), max);
      GrownTo(r, [Entry(data, |data|)], PushChunk(held, data, max), r', max);
    } else if FlushesAtOnce(r, data, now) {
      var grown := r.(coalesce := r.coalesce + data, timer := None);
      FlushGrows(grown, now, max);
      GrownFrom(grown, r, [], r', max);
    } else {
      SameGrows(r, r', max);
    }
  }

  lemma StepGrows(s: System, step: Step, cfg: Config)
    requires Kept(s.r.ring, cfg.outputBufferMax) && DrainsNothing(s, step, cfg)
    ensures Grown(s.r, PushedBy(s, step, cfg), Next(s, step, cfg).r, cfg.outputBufferMax)
  {
    hide Kept, Grown, OnPty, Flush, FlushClient;
    match step {
      case Pty(data, amount, now, id, _) => OnPtyGrows(s.r, Tag(data, |s.received|), amount, now, id, cfg);
      case Fire(_, at) => FlushGrows(s.r, at, cfg.outputBufferMax);
      case _ => SameGrows(s.r, Next(s, step, cfg).r, cfg.outputBufferMax);
    }
  }

  // ---- runs ----

  lemma SuffixKept<T>(ring: seq<Entry<T>>, n: nat, max: nat)
    requires Kept(ring, max) && n <= |ring|
    ensures Kept(ring[n..], max)
  {
    assert ring == ring[..n] + ring[n..];
    MoreDoesNotFit(ring[..n], ring[n..], max);
  }

  lemma FlushClientKept<T>(r: State<T>, amount: nat -> int, i: nat, cfg: Config)
    requires Kept(r.ring, cfg.outputBufferMax)
    ensures Kept(FlushClient(r, amount, i, cfg).ring, cfg.outputBufferMax)
  {
    hide *;
    var n := FlushClientUntilFull(r, amount, i, cfg);
    FullWithin(n, |r.ring|, amount, i, cfg.hwm);
    SuffixKept(r.ring, n, cfg.outputBufferMax);
  }

  lemma FullWithin(n: nat, size: nat, amount: nat -> int, i: nat, hwm: int)
    requires FullFirstAt(n, size, amount, i, hwm)
    ensures n <= size
  {
  }

  lemma StepKept(s: System, step: Step, cfg: Config)
    requires Kept(s.r.ring, cfg.outputBufferMax)
    ensures Kept(Next(s, step, cfg).r.ring, cfg.outputBufferMax)
  {
    hide Kept, Grown, OnPty, Flush, FlushClient;
    match step {
      case ResumeFlushes(amount) => FlushClientKept(s.r, amount, 0, cfg);
      case Tick(amount) => FlushClientKept(s.r, amount, 2, cfg);
      case _ =>
        StepGrows(s, step, cfg);
        GrownKept(s.r, PushedBy(s, step, cfg), Next(s, step, cfg).r, cfg.outputBufferMax);
    }
  }

  lemma InitialKept(s: System, cfg: Config)
    requires Initial(s)
    ensures Kept(RunSteps(s, [], cfg).r.ring, cfg.outputBufferMax)
  {
  }

  lemma {:induction false} RunKept(s: System, steps: seq<Step>, cfg: Config)
    requires Initial(s) && CanRun(s, steps, cfg)
    ensures Kept(RunSteps(s, steps, cfg).r.ring, cfg.outputBufferMax)
  {
    hide *;
    if steps == [] {
      InitialKept(s, cfg);
    } else {
      CanRunPrefix(s, steps, cfg);
      RunKept(s, steps[..|steps| - 1], cfg);
      StepKept(RunSteps(s, steps[..|steps| - 1], cfg), steps[|steps| - 1], cfg);
    }
  }

  lemma PushedAtMostOne(s: System, step: Step, cfg: Config)
    ensures |PushedBy(s, step, cfg)| <= 1
  {
  }

  lemma GrownByAtMostOne<T>(r: State<T>, pushed: seq<Entry<T>>, r1: State<T>, more: seq<Entry<T>>, r2: State<T>, max: nat)
    requires Grown(r, pushed, r1, max) && Grown(r1, more, r2, max) && |more| <= 1
    ensures Grown(r, pushed + more, r2, max)
  {
    hide *;
    if more == [] {
      GrownKept(r, pushed, r1, max);
      NothingGrown(r1, r2, max);
      assert pushed + more == pushed;
      GrownTo(r, pushed, r1, r2, max);
    } else {
      assert more == [more[0]];
      GrownSnoc(r, pushed, r1, more[0], r2, max);
    }
  }

  lemma NothingGrown<T>(r: State<T>, r': State<T>, max: nat)
    requires Grown(r, [], r', max) && Kept(r.ring, max)
    ensures r'.ring == r.ring && r'.evicted == r.evicted
  {
    hide Fits;
    assert r.ring + [] == r.ring && r.ring[0..] == r.ring && r.ring[..0] == [];
    NoRingBytes<T>();
    assert r.evicted + [] == r.evicted;
  }

  lemma DrainsPrefix(s: System, steps: seq<Step>, cfg: Config)
    requires steps != [] && forall k :: 0 <= k < |steps| ==> DrainsNothingAt(s, steps, k, cfg)
    ensures var n := |steps| - 1;
            && (forall k :: 0 <= k < n ==> DrainsNothingAt(s, steps[..n], k, cfg))
            && DrainsNothing(RunSteps(s, steps[..n], cfg), steps[n], cfg)
            && PushedIn(s, steps, cfg) == PushedIn(s, steps[..n], cfg) + PushedBy(RunSteps(s, steps[..n], cfg), steps[n], cfg)
            && RunSteps(s, steps, cfg) == Next(RunSteps(s, steps[..n], cfg), steps[n], cfg)
  {
    hide DrainsNothing, PushedBy, Next;
    var n := |steps| - 1;
    assert DrainsNothingAt(s, steps, n, cfg);
    forall k | 0 <= k < n ensures DrainsNothingAt(s, steps[..n], k, cfg) {
      assert DrainsNothingAt(s, steps, k, cfg) && steps[..n][..k] == steps[..k];
    }
  }

  lemma EmptyRun(s: System, cfg: Config)
    ensures RunSteps(s, [], cfg) == s && PushedIn(s, [], cfg) == []
  {
  }

  lemma {:induction false} RunGrows(s: System, steps: seq<Step>, cfg: Config)
    requires Kept(s.r.ring, cfg.outputBufferMax)
    requires forall k :: 0 <= k < |steps| ==> DrainsNothingAt(s, steps, k, cfg)
    ensures Grown(s.r, PushedIn(s, steps, cfg), RunSteps(s, steps, cfg).r, cfg.outputBufferMax)
  {
    hide *;
    EmptyRun(s, cfg);
    if steps == [] {
      SameGrows(s.r, s.r, cfg.outputBufferMax);
    } else {
      var n := |steps| - 1;
      DrainsPrefix(s, steps, cfg);
      RunGrows(s, steps[..n], cfg);
      var t, pushed := RunSteps(s, steps[..n], cfg), PushedIn(s, steps[..n], cfg);
      GrownKept(s.r, pushed, t.r, cfg.outputBufferMax);
      StepGrows(t, steps[n], cfg);
      PushedAtMostOne(t, steps[n], cfg);
      GrownByAtMostOne(s.r, pushed, t.r, PushedBy(t, steps[n], cfg), Next(t, steps[n], cfg).r, cfg.outputBufferMax);
    }
  }

  /**
   * In any run, from any moment on, for as long as nothing is drained: the client ring is the longest suffix of
   * what it held and what came in that is below the byte budget and within 10000 entries (or the newest entry
   * alone), and only what comes before that suffix is evicted.
   */
  lemma {:induction false} EvictsOnlyOverBudget(s: System, before: seq<Step>, during: seq<Step>, cfg: Config)
    requires Initial(s) && CanRun(s, before, cfg)
    requires forall k :: 0 <= k < |during| ==> DrainsNothingAt(RunSteps(s, before, cfg), during, k, cfg)
    ensures var p := RunSteps(s, before, cfg);
            var t := RunSteps(p, during, cfg);
            var all := p.r.ring + PushedIn(p, during, cfg);
            var k := |all| - |t.r.ring|;
            && 0 <= k && t.r.ring == all[k..] && t.r.evicted == p.r.evicted + RingBytes(all[..k])
            && (forall j :: 0 <= j < k ==> Total(all[j..]) >= cfg.outputBufferMax || |all| - j > 10000)
            && (all != [] ==> k < |all|)
            && (k < |all| - 1 ==> Total(all[k..]) < cfg.outputBufferMax && |all| - k <= 10000)
  {
    var p := RunSteps(s, before, cfg);
    RunKept(s, before, cfg);
    RunGrows(p, during, cfg);
    hide RunSteps, CanRun, Initial, Kept, PushedIn, DrainsNothingAt, RingBytes, Total;
  }

  // ---- a pause within the budget loses nothing ----

  lemma WithinBudget<T>(r: State<T>, pushed: seq<Entry<T>>, r': State<T>, max: nat)
    requires Grown(r, pushed, r', max) && Fits(r.ring + pushed, max)
    ensures r'.ring == r.ring + pushed && r'.evicted == r.evicted
  {
    hide Fits;
    var all := r.ring + pushed;
    assert all[0..] == all && all[..0] == [];
    NoRingBytes<T>();
    assert r.evicted + [] == r.evicted;
  }

  lemma NoResumeDrainsNothing(s: System, steps: seq<Step>, cfg: Config)
    requires s.r.paused && !s.resuming && s.r.lastActSig == None && CanRun(s, steps, cfg) && NoResume(steps)
    ensures forall k :: 0 <= k < |steps| ==> DrainsNothingAt(s, steps, k, cfg)
  {
    forall k | 0 <= k < |steps| ensures DrainsNothingAt(s, steps, k, cfg) {
      CanRunUpTo(s, steps, k, cfg);
      hide CanRun, RunSteps;
      PausedRun(s, steps[..k], cfg);
      PausedOnly(s, steps[..k], RunSteps(s, steps[..k], cfg), BeatTimes(s, steps[..k], cfg));
    }
  }

  lemma {:induction false} CanRunUpTo(s: System, steps: seq<Step>, k: nat, cfg: Config)
    requires CanRun(s, steps, cfg) && k < |steps|
    ensures CanRun(s, steps[..k], cfg) && Enabled(RunSteps(s, steps[..k], cfg), steps[k])
  {
    hide *;
    var n := |steps| - 1;
    CanRunPrefix(s, steps, cfg);
    if k < n {
      CanRunUpTo(s, steps[..n], k, cfg);
      assert steps[..n][..k] == steps[..k];
    }
  }

  lemma ResumedState(t: System, cfg: Config)
    requires 0 < cfg.lwm && 0 <= cfg.hwm
    ensures var u := Next(Next(t, ResumeClears, cfg), ResumeFlushes(NoBacklog), cfg);
            && u.r.sent == t.r.sent + RingBytes(t.r.ring) && u.r.ring == [] && u.r.evicted == t.r.evicted
            && u.r.coalesce == t.r.coalesce && !u.r.throttled && !u.r.paused && u.received == t.received
  {
    hide RingBytes, FlushClient;
    DrainsAll(ResumeClear(t.r), 0, cfg);
  }

  /**
   * A pause that holds back less than the budget, in at most 10000 chunks, loses nothing: resumed with an empty
   * write queue, the client gets all that was in its ring and all that came in, in order, and nothing has been
   * evicted. If nothing was being coalesced when the pause began, that is all output received in it.
   */
  lemma {:induction false} ResumedPauseDeliversAll(s: System, before: seq<Step>, during: seq<Step>, cfg: Config)
    requires Initial(s) && CanRun(s, before, cfg) && 0 < cfg.lwm && 0 <= cfg.hwm
    requires !RunSteps(s, before, cfg).r.paused && !RunSteps(s, before, cfg).resuming
    requires CanRun(Next(RunSteps(s, before, cfg), Pause, cfg), during, cfg) && NoResume(during)
    requires var p := RunSteps(s, before, cfg);
             var all := p.r.ring + PushedIn(Next(p, Pause, cfg), during, cfg);
             Total(all) < cfg.outputBufferMax && |all| <= 10000
    ensures var p := RunSteps(s, before, cfg);
            var q := Next(p, Pause, cfg);
            var t := RunSteps(q, during, cfg);
            var u := Next(Next(t, ResumeClears, cfg), ResumeFlushes(NoBacklog), cfg);
            && u.r.sent == p.r.sent + RingBytes(p.r.ring) + RingBytes(PushedIn(q, during, cfg))
            && u.r.evicted == p.r.evicted && u.r.ring == [] && !u.r.throttled
            && (p.r.coalesce == [] ==>
                  u.r.coalesce == [] && RingBytes(PushedIn(q, during, cfg)) == Tag(Output(during), |p.received|))
  {
    var p := RunSteps(s, before, cfg);
    var q := Next(p, Pause, cfg);
    RunKept(s, before, cfg);
    RunCalm(s, before, cfg);
    assert q == p.(r := p.r.(paused := true)) && q.r.lastActSig == None && !q.resuming;
    assert Fits(p.r.ring + PushedIn(q, during, cfg), cfg.outputBufferMax);
    hide *;
    PausedRing(q, during, cfg);
    ResumedState(RunSteps(q, during, cfg), cfg);
    RingAppended(p.r, PushedIn(q, during, cfg));
    if p.r.coalesce == [] {
      PausedPushes(q, during, cfg);
    }
  }

  lemma RingAppended<T>(r: State<T>, pushed: seq<Entry<T>>)
    ensures r.sent + RingBytes(r.ring + pushed) == r.sent + RingBytes(r.ring) + RingBytes(pushed)
  {
    hide RingBytes;
    RingBytesConcat(r.ring, pushed);
    assert r.sent + (RingBytes(r.ring) + RingBytes(pushed)) == r.sent + RingBytes(r.ring) + RingBytes(pushed);
  }

  /** In a pause within the budget, everything stays in the ring. */
  lemma PausedRing(q: System, during: seq<Step>, cfg: Config)
    requires q.r.paused && !q.resuming && q.r.lastActSig == None && CanRun(q, during, cfg) && NoResume(during)
    requires Kept(q.r.ring, cfg.outputBufferMax) && Fits(q.r.ring + PushedIn(q, during, cfg), cfg.outputBufferMax)
    ensures var t := RunSteps(q, during, cfg);
            && t.r.ring == q.r.ring + PushedIn(q, during, cfg) && t.r.evicted == q.r.evicted && t.r.sent == q.r.sent
            && (q.r.coalesce == [] ==> t.r.coalesce == [])
  {
    hide *;
    var t := RunSteps(q, during, cfg);
    NoResumeDrainsNothing(q, during, cfg);
    RunGrows(q, during, cfg);
    WithinBudget(q.r, PushedIn(q, during, cfg), t.r, cfg.outputBufferMax);
    PausedRun(q, during, cfg);
    PausedSent(q, during, t, BeatTimes(q, during, cfg));
  }

  lemma PausedSent(s: System, steps: seq<Step>, t: System, times: seq<int>)
    requires PausedSoFar(s, steps, t, times)
    ensures t.r.sent == s.r.sent && (s.r.coalesce == [] ==> t.r.coalesce == [])
  {
  }

  /** In a pause with nothing coalesced, all output goes into the ring, chunk by chunk. */
  lemma {:induction false} PausedPushes(s: System, steps: seq<Step>, cfg: Config)
    requires s.r.paused && !s.resuming && s.r.lastActSig == None && s.r.coalesce == []
    requires CanRun(s, steps, cfg) && NoResume(steps)
    ensures RingBytes(PushedIn(s, steps, cfg)) == Tag(Output(steps), |s.received|)
  {
    hide *;
    NothingPushed(s, cfg);
    if steps != [] {
      var n := |steps| - 1;
      var t := RunSteps(s, steps[..n], cfg);
      CanRunPrefix(s, steps, cfg);
      PausedUnfold(s, steps, cfg);
      PausedPushes(s, steps[..n], cfg);
      PausedRun(s, steps[..n], cfg);
      PausedOnly(s, steps[..n], t, BeatTimes(s, steps[..n], cfg));
      PausedSent(s, steps[..n], t, BeatTimes(s, steps[..n], cfg));
      PushedUnfold(s, steps, cfg);
      ReceivedIsOutput(s, steps[..n], cfg);
      TagLength(Output(steps[..n]), |s.received|);
      PausedPush(t, steps[n], cfg);
      RingBytesConcat(PushedIn(s, steps[..n], cfg), PushedBy(t, steps[n], cfg));
      TagConcat(Output(steps[..n]), OutputOf(steps[n]), |s.received|);
    }
  }

  lemma NothingPushed(s: System, cfg: Config)
    ensures RingBytes(PushedIn(s, [], cfg)) == Tag(Output([]), |s.received|)
  {
  }

  lemma PushedUnfold(s: System, steps: seq<Step>, cfg: Config)
    requires steps != []
    ensures var n := |steps| - 1;
            && PushedIn(s, steps, cfg) == PushedIn(s, steps[..n], cfg) + PushedBy(RunSteps(s, steps[..n], cfg), steps[n], cfg)
            && Output(steps) == Output(steps[..n]) + OutputOf(steps[n])
  {
    hide PushedBy;
  }

  lemma PausedPush(t: System, step: Step, cfg: Config)
    requires t.r.paused && t.r.coalesce == []
    ensures RingBytes(PushedBy(t, step, cfg)) == Tag(OutputOf(step), |t.received|)
  {
    NoRingBytes<Tagged>();
    if step.Pty? {
      RingBytesOne(Entry(Tag(step.data, |t.received|), |step.data|));
    }
    assert Tag([], |t.received|) == [];
  }

  // ---- when data may be sent ----

  /** The step may hand data to the connection: output or timer while nothing holds back, or a drain with room. */
  predicate MaySend(s: System, step: Step, cfg: Config) {
    match step
    case Pty(_, amount, _, _, _) => !s.r.paused && !s.r.throttled && amount <= cfg.hwm
    case Fire(_, _) => !s.r.paused && !s.r.throttled
    case ResumeFlushes(amount) => amount(0) <= cfg.hwm
    case Tick(amount) => !s.r.paused && s.r.throttled && amount(0) <= cfg.cwm && amount(1) < cfg.lwm
    case _ => false
  }

  /** The step starts throttling: it finds the write queue above the high mark. */
  predicate FindsFull(s: System, step: Step, cfg: Config) {
    match step
    case Pty(_, amount, _, _, _) => amount > cfg.hwm
    case ResumeFlushes(amount) => exists look: nat :: look <= |s.r.ring| && amount(look) > cfg.hwm
    case Tick(amount) => exists look: nat :: 2 <= look <= |s.r.ring| + 2 && amount(look) > cfg.hwm
    case _ => false
  }

  lemma OnPtySends<T>(r: State<T>, data: seq<T>, amount: int, now: int, id: nat, cfg: Config)
    ensures var r' := OnPty(r, data, amount, now, id, cfg);
            && (r'.sent != r.sent ==> !r.paused && !r.throttled && amount <= cfg.hwm)
            && r'.throttled == (r.throttled || amount > cfg.hwm)
  {
    hide PushChunk, Flush, FlushesAtOnce;
    OnPtyCases(r, data, amount, now, id, cfg);
    if GoesToRing(r, amount, cfg) {
      var _ := PushFacts(Throttle(r, amount, cfg), data, cfg.outputBufferMax);
    } else {
      FlushFacts(r.(coalesce := r.coalesce + data, timer := None), now, cfg.outputBufferMax);
    }
  }

  lemma FlushSends<T>(r: State<T>, now: int, max: nat)
    ensures var r' := Flush(r, now, max);
            && (r'.sent != r.sent ==> !r.paused && !r.throttled) && r'.throttled == r.throttled
  {
    FlushFacts(r, now, max);
    hide PushChunk;
    if r.coalesce != [] && (r.paused || r.throttled) {
      var _ := PushFacts(r.(coalesce := [], timer := None, lastFlush := Some(now)), r.coalesce, max);
    }
  }

  lemma FlushClientSends<T>(r: State<T>, amount: nat -> int, i: nat, cfg: Config)
    ensures var r' := FlushClient(r, amount, i, cfg);
            && (r'.sent != r.sent ==> amount(i) <= cfg.hwm)
            && (r'.throttled && !r.throttled ==> exists look: nat :: i <= look <= |r.ring| + i && amount(look) > cfg.hwm)
            && (!r'.throttled && r.throttled ==> r'.ring == [] && exists look: nat :: amount(look) < cfg.lwm)
  {
    var n := FlushClientUntilFull(r, amount, i, cfg);
    hide FlushClient, RingBytes;
    if n == 0 {
      NoRingBytes<T>();
      assert r.ring[..0] == [] && r.sent + [] == r.sent;
    } else {
      assert i <= i < i + n;
    }
  }

  /**
   * In every state, data is handed to the connection only by output or the timer while the attachment is neither
   * paused nor throttled, or by a drain that finds room. Throttling starts exactly when output finds the write
   * queue above the high mark, or a drain does, and ends only with an empty ring.
   */
  lemma SendsOnlyWhenAllowed(s: System, step: Step, cfg: Config)
    ensures var t := Next(s, step, cfg);
            && (t.r.sent != s.r.sent ==> MaySend(s, step, cfg))
            && (t.r.throttled && !s.r.throttled ==> FindsFull(s, step, cfg))
            && (step.Pty? && FindsFull(s, step, cfg) ==> t.r.throttled)
            && (s.r.throttled && !t.r.throttled ==> (step.Tick? || step.ResumeFlushes?) && t.r.ring == [])
  {
    hide OnPty, Flush, FlushClient;
    match step {
      case Pty(data, amount, now, id, _) => OnPtySends(s.r, Tag(data, |s.received|), amount, now, id, cfg);
      case Fire(_, at) => FlushSends(s.r, at, cfg.outputBufferMax);
      case ResumeFlushes(amount) => FlushClientSends(s.r, amount, 0, cfg);
      case Tick(amount) =>
        FlushClientSends(s.r, amount, 2, cfg);
      case _ =>
    }
  }
}

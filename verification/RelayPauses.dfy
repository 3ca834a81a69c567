/** Activity heartbeats: what they account for between a pause and its resume, and what they do not. */
module RelayPauses {
  import opened Bytes
  import opened RingBuffer
  import opened Relay
  import opened RelayRuns
  import opened RelayOrder

  function Sum(ns: seq<nat>): nat {
    if ns == [] then 0 else Sum(ns[..|ns| - 1]) + ns[|ns| - 1]
  }

  lemma SumSnoc(ns: seq<nat>, n: nat)
    ensures Sum(ns + [n]) == Sum(ns) + n
  {
    assert (ns + [n])[..|ns|] == ns;
  }

  /** Bytes reported by heartbeats, or counted for the next one. */
  function Reported<T>(r: State<T>): nat {
    Sum(r.activity) + r.pausedBytes
  }

  /** Bytes put into the client ring, whether still there or evicted (while nothing is drained from it). */
  function HeldBack<T>(r: State<T>): nat {
    |RingBytes(r.ring)| + |r.evicted|
  }

  /** Counters are zero outside a pause, and a resume is over before the next pause. */
  predicate Calm(s: System) {
    && (s.r.paused ==> !s.resuming)
    && (!s.r.paused ==> s.r.pausedBytes == 0 && s.r.lastActSig == None)
  }

  // ---- single operations ----

  predicate SameBeats<T>(r: State<T>, r': State<T>) {
    r'.paused == r.paused && r'.pausedBytes == r.pausedBytes && r'.lastActSig == r.lastActSig && r'.activity == r.activity
  }

  lemma FlushBeats<T>(r: State<T>, now: int, max: nat)
    ensures SameBeats(r, Flush(r, now, max))
  {
    if r.coalesce != [] && (r.paused || r.throttled) {
      hide PushChunk;
      var _ := PushFacts(r.(coalesce := [], timer := None, lastFlush := Some(now)), r.coalesce, max);
    }
  }

  /** A timer callback in a pause puts the coalesced bytes into the ring. */
  lemma FlushPaused<T>(r: State<T>, now: int, max: nat)
    requires r.paused
    ensures var r' := Flush(r, now, max);
            r'.sent == r.sent && r'.coalesce == [] && HeldBack(r') == HeldBack(r) + |r.coalesce|
  {
    hide PushChunk, RingBytes;
    if r.coalesce != [] {
      var _ := PushHeldBack(r.(coalesce := [], timer := None, lastFlush := Some(now)), r.coalesce, max);
    }
  }

  lemma PushHeldBack<T>(r: State<T>, chunk: seq<T>, max: nat) returns (lost: seq<T>)
    ensures var r' := PushChunk(r, chunk, max);
            && r' == r.(ring := r'.ring, evicted := r.evicted + lost)
            && HeldBack(r') == HeldBack(r) + |chunk|
  {
    hide PushChunk, RingBytes;
    lost := PushFacts(r, chunk, max);
    var r' := PushChunk(r, chunk, max);
    assert |RingBytes(r.ring) + chunk| == |lost + RingBytes(r'.ring)|;
  }

  lemma OnPtyUnpaused<T>(r: State<T>, data: seq<T>, amount: int, now: int, id: nat, cfg: Config)
    requires !r.paused
    ensures SameBeats(r, OnPty(r, data, amount, now, id, cfg))
  {
    hide PushChunk, Flush, FlushesAtOnce;
    if GoesToRing(r, amount, cfg) {
      var _ := PushFacts(Throttle(r, amount, cfg), data, cfg.outputBufferMax);
    } else {
      FlushBeats(r.(coalesce := r.coalesce + data, timer := None), now, cfg.outputBufferMax);
    }
  }

  predicate Beats<T>(r: State<T>, now: int) {
    Elapsed(r.lastActSig, now, ACTIVITY_INTERVAL)
  }

  /** Output in a pause: into the ring and into the count, with a heartbeat if one is due. */
  lemma OnPtyPaused<T>(r: State<T>, data: seq<T>, amount: int, now: int, id: nat, cfg: Config)
    requires r.paused
    ensures var r' := OnPty(r, data, amount, now, id, cfg);
            && r'.paused && r'.sent == r.sent && r'.coalesce == r.coalesce && r'.timer == r.timer
            && HeldBack(r') == HeldBack(r) + |data| && Reported(r') == Reported(r) + |data|
            && r'.lastActSig == (if Beats(r, now) then Some(now) else r.lastActSig)
            && r'.activity == r.activity + (if Beats(r, now) then [r.pausedBytes + |data|] else [])
            && r'.pausedBytes == (if Beats(r, now) then 0 else r.pausedBytes + |data|)
  {
    hide PushChunk, RingBytes, Sum;
    var _ := PushHeldBack(Throttle(r, amount, cfg), data, cfg.outputBufferMax);
    SumSnoc(r.activity, r.pausedBytes + |data|);
    assert r.activity + [] == r.activity;
  }

  // ---- steps ----

  lemma StepCalm(s: System, step: Step, cfg: Config)
    requires Calm(s) && Enabled(s, step)
    ensures Calm(Next(s, step, cfg))
  {
    hide OnPty, Flush, FlushClient, RingBytes, Sum;
    match step {
      case Pty(data, amount, now, id, _) =>
        var tagged := Tag(data, |s.received|);
        if s.r.paused {
          OnPtyPaused(s.r, tagged, amount, now, id, cfg);
        } else {
          OnPtyUnpaused(s.r, tagged, amount, now, id, cfg);
        }
      case Fire(_, at) => FlushBeats(s.r, at, cfg.outputBufferMax);
      case ResumeFlushes(amount) => FlushClientFacts(s.r, amount, 0, cfg);
      case Tick(amount) => FlushClientFacts(s.r, amount, 2, cfg);
      case _ =>
    }
  }

  lemma {:induction false} RunCalm(s: System, steps: seq<Step>, cfg: Config)
    requires Initial(s) && CanRun(s, steps, cfg)
    ensures Calm(RunSteps(s, steps, cfg))
  {
    if steps == [] {
      assert RunSteps(s, [], cfg) == s;
    } else {
      hide *;
      CanRunPrefix(s, steps, cfg);
      RunCalm(s, steps[..|steps| - 1], cfg);
      StepCalm(RunSteps(s, steps[..|steps| - 1], cfg), steps[|steps| - 1], cfg);
    }
  }

  predicate BeatsAt(s: System, step: Step) {
    step.Pty? && Beats(s.r, step.now)
  }

  function FlushedBy(s: System, step: Step): nat {
    if step.Fire? then |s.r.coalesce| else 0
  }

  /** What a step other than a resume does in a pause. */
  predicate PausedEffect(s: System, step: Step, t: System) {
    && t.r.paused && !t.resuming && t.r.sent == s.r.sent
    && t.r.coalesce == (if step.Fire? then [] else s.r.coalesce)
    && HeldBack(t.r) == HeldBack(s.r) + |OutputOf(step)| + FlushedBy(s, step)
    && Reported(t.r) == Reported(s.r) + |OutputOf(step)|
    && t.r.lastActSig == (if BeatsAt(s, step) then Some(step.now) else s.r.lastActSig)
    && |t.r.activity| == |s.r.activity| + (if BeatsAt(s, step) then 1 else 0)
  }

  lemma PausedStep(s: System, step: Step, cfg: Config)
    requires s.r.paused && !s.resuming && Enabled(s, step) && !step.ResumeClears?
    ensures PausedEffect(s, step, Next(s, step, cfg))
  {
    hide OnPty, Flush, FlushClient, RingBytes, Sum;
    match step {
      case Pty(data, amount, now, id, _) =>
        OnPtyPaused(s.r, Tag(data, |s.received|), amount, now, id, cfg);
      case Fire(_, at) =>
        FlushBeats(s.r, at, cfg.outputBufferMax);
        FlushPaused(s.r, at, cfg.outputBufferMax);
      case _ =>
    }
  }

  // ---- from a pause to its resume ----

  predicate NoResume(steps: seq<Step>) {
    forall k :: 0 <= k < |steps| ==> !steps[k].ResumeClears?
  }

  predicate Fires(steps: seq<Step>) {
    exists k :: 0 <= k < |steps| && steps[k].Fire?
  }

  /** When the heartbeats of a run are sent. */
  function BeatTimes(s: System, steps: seq<Step>, cfg: Config): seq<int> {
    if steps == [] then []
    else
      var n := |steps| - 1;
      BeatTimes(s, steps[..n], cfg)
      + if BeatsAt(RunSteps(s, steps[..n], cfg), steps[n]) then [steps[n].now] else []
  }

  /** At least ACTIVITY_INTERVAL apart. */
  predicate Spaced(times: seq<int>) {
    forall i :: 0 <= i < |times| - 1 ==> times[i + 1] - times[i] >= ACTIVITY_INTERVAL
  }

  /** The last heartbeat of the pause so far, if there was one. */
  function LastOf(times: seq<int>): Option<int> {
    if times == [] then None else Some(times[|times| - 1])
  }

  predicate PausedSoFar(s: System, steps: seq<Step>, t: System, times: seq<int>) {
    && t.r.paused && !t.resuming && t.r.sent == s.r.sent
    && t.r.coalesce == (if Fires(steps) then [] else s.r.coalesce)
    && HeldBack(t.r) + |t.r.coalesce| == HeldBack(s.r) + |s.r.coalesce| + |Output(steps)|
    && Reported(t.r) == Reported(s.r) + |Output(steps)|
    && t.r.lastActSig == LastOf(times) && Spaced(times) && |t.r.activity| == |s.r.activity| + |times|
  }

  lemma SpacedSnoc(times: seq<int>, now: int)
    requires Spaced(times) && Elapsed(LastOf(times), now, ACTIVITY_INTERVAL)
    ensures Spaced(times + [now]) && LastOf(times + [now]) == Some(now)
  {
  }

  lemma FiresSnoc(steps: seq<Step>, step: Step)
    ensures Fires(steps + [step]) <==> Fires(steps) || step.Fire?
  {
    assert (steps + [step])[|steps|] == step;
    assert forall k | 0 <= k < |steps| :: (steps + [step])[k] == steps[k];
  }

  lemma PausedSnoc(s: System, steps: seq<Step>, t: System, times: seq<int>, step: Step, u: System)
    requires PausedSoFar(s, steps, t, times) && PausedEffect(t, step, u)
    ensures PausedSoFar(s, steps + [step], u, times + if BeatsAt(t, step) then [step.now] else [])
  {
    hide HeldBack, Reported, Spaced, Fires;
    FiresSnoc(steps, step);
    assert (steps + [step])[..|steps|] == steps;
    assert times + [] == times;
    if BeatsAt(t, step) {
      SpacedSnoc(times, step.now);
    }
  }

  lemma {:induction false} PausedRun(s: System, steps: seq<Step>, cfg: Config)
    requires s.r.paused && !s.resuming && s.r.lastActSig == None && CanRun(s, steps, cfg) && NoResume(steps)
    ensures PausedSoFar(s, steps, RunSteps(s, steps, cfg), BeatTimes(s, steps, cfg))
  {
    hide *;
    PausedUnfold(s, steps, cfg);
    if steps != [] {
      var n := |steps| - 1;
      CanRunPrefix(s, steps, cfg);
      var t := RunSteps(s, steps[..n], cfg);
      PausedRun(s, steps[..n], cfg);
      PausedOnly(s, steps[..n], t, BeatTimes(s, steps[..n], cfg));
      PausedStep(t, steps[n], cfg);
      assert steps == steps[..n] + [steps[n]];
      PausedSnoc(s, steps[..n], t, BeatTimes(s, steps[..n], cfg), steps[n], Next(t, steps[n], cfg));
    }
  }

  lemma PausedOnly(s: System, steps: seq<Step>, t: System, times: seq<int>)
    requires PausedSoFar(s, steps, t, times)
    ensures t.r.paused && !t.resuming
  {
  }

  lemma PausedUnfold(s: System, steps: seq<Step>, cfg: Config)
    requires NoResume(steps)
    ensures steps == [] ==> (s.r.paused && !s.resuming && s.r.lastActSig == None ==>
              PausedSoFar(s, steps, RunSteps(s, steps, cfg), BeatTimes(s, steps, cfg)))
    ensures steps != [] ==>
              var n := |steps| - 1;
              && NoResume(steps[..n]) && !steps[n].ResumeClears?
              && BeatTimes(s, steps, cfg) == BeatTimes(s, steps[..n], cfg)
                   + if BeatsAt(RunSteps(s, steps[..n], cfg), steps[n]) then [steps[n].now] else []
  {
    hide HeldBack, Reported, BeatsAt;
  }

  /**
   * From a pause to its resume, in any run: the heartbeats together with the count kept for the next one
   * account for every byte of output received in the pause, and they are at least ACTIVITY_INTERVAL apart.
   * The pause also holds back what was being coalesced when it began, once the timer puts that into the ring;
   * so the heartbeats account for everything held back if and only if nothing was being coalesced or no timer
   * fired.
   */
  lemma {:induction false} HeartbeatAccounting(s: System, before: seq<Step>, during: seq<Step>, cfg: Config)
    requires Initial(s) && CanRun(s, before, cfg) && !RunSteps(s, before, cfg).r.paused
    requires !RunSteps(s, before, cfg).resuming
    requires CanRun(Next(RunSteps(s, before, cfg), Pause, cfg), during, cfg) && NoResume(during)
    ensures var p := RunSteps(s, before, cfg);
            var q := Next(p, Pause, cfg);
            var t := RunSteps(q, during, cfg);
            && Reported(t.r) == Sum(p.r.activity) + |Output(during)|
            && Spaced(BeatTimes(q, during, cfg)) && |t.r.activity| == |p.r.activity| + |BeatTimes(q, during, cfg)|
            && t.r.sent == p.r.sent
            && (HeldBack(t.r) - HeldBack(p.r) == Reported(t.r) - Reported(p.r) <==> p.r.coalesce == [] || !Fires(during))
  {
    var p := RunSteps(s, before, cfg);
    RunCalm(s, before, cfg);
    hide RunSteps, CanRun, Initial, Output, Sum, HeldBack;
    var q := Next(p, Pause, cfg);
    assert q.r == p.r.(paused := true) && HeldBack(q.r) == HeldBack(p.r) by { SameHeldBack(p.r, q.r); }
    PausedRun(q, during, cfg);
  }

  lemma SameHeldBack<T>(r: State<T>, r': State<T>)
    requires r'.ring == r.ring && r'.evicted == r.evicted
    ensures HeldBack(r') == HeldBack(r)
  {
  }

  // ---- what they do not account for ----

  /** Whenever bytes are being coalesced, a pause and the timer put them into the ring unreported. */
  lemma TimerFlushUnreported(s: System, at: int, cfg: Config)
    requires Scheduled(s) && s.r.coalesce != [] && !s.r.paused && !s.resuming
    ensures var p := Next(s, Pause, cfg);
            var t := Next(p, Fire(s.r.timer.value, at), cfg);
            && Enabled(s, Pause) && Enabled(p, Fire(s.r.timer.value, at))
            && HeldBack(t.r) == HeldBack(s.r) + |s.r.coalesce| && Reported(t.r) == Reported(s.r)
            && t.r.sent == s.r.sent
  {
    hide Flush, RingBytes, Sum;
    var p := Next(s, Pause, cfg);
    SameHeldBack(s.r, p.r);
    FlushPaused(p.r, at, cfg.outputBufferMax);
    FlushBeats(p.r, at, cfg.outputBufferMax);
  }

  /** A resume forgets when the last heartbeat was: two pauses in a row send two heartbeats at one instant. */
  lemma ResumeForgetsLastBeat(s: System, first: seq<byte>, second: seq<byte>, now: int, id: nat, cfg: Config)
    requires Calm(s) && Scheduled(s) && !s.r.paused && !s.resuming && id !in s.armed
    ensures var s1 := Next(s, Pause, cfg);
            var s2 := Next(s1, Pty(first, 0, now, id, false), cfg);
            var s3 := Next(s2, ResumeClears, cfg);
            var s4 := Next(s3, ResumeFlushes(NoBacklog), cfg);
            var s5 := Next(s4, Pause, cfg);
            var s6 := Next(s5, Pty(second, 0, now, id, false), cfg);
            && Enabled(s, Pause) && Enabled(s1, Pty(first, 0, now, id, false)) && Enabled(s2, ResumeClears)
            && Enabled(s3, ResumeFlushes(NoBacklog)) && Enabled(s4, Pause) && Enabled(s5, Pty(second, 0, now, id, false))
            && BeatsAt(s1, Pty(first, 0, now, id, false)) && BeatsAt(s5, Pty(second, 0, now, id, false))
            && s6.r.activity == s.r.activity + [|first|] + [|second|]
  {
    hide OnPty, FlushClient, RingBytes, Sum, HeldBack, Reported;
    var s1 := Next(s, Pause, cfg);
    OnPtyPaused(s1.r, Tag(first, |s.received|), 0, now, id, cfg);
    var s2 := Next(s1, Pty(first, 0, now, id, false), cfg);
    var s3 := Next(s2, ResumeClears, cfg);
    FlushClientFacts(s3.r, NoBacklog, 0, cfg);
    var s4 := Next(s3, ResumeFlushes(NoBacklog), cfg);
    var s5 := Next(s4, Pause, cfg);
    OnPtyPaused(s5.r, Tag(second, |s5.received|), 0, now, id, cfg);
  }
}

/** The update check of internal/api/api.go: single flight with a cache, as a step relation over callers. */
module SingleFlight {
  import opened Bytes

  type Info = nat

  /** A cached result: what was found, by which flight, and when that flight finished. */
  datatype Entry = Entry(info: Info, flight: nat, finished: nat)

  /** Where one caller of updateCheckResult is. */
  datatype Pc =
    | Flying(flight: nat)                                  // inside CheckLatest, no lock held
    | Waiting(flight: nat, began: nat)                     // in the select
    | Released(flight: nat, began: nat)                    // done was closed; about to take the lock
    | Answered(result: Option<Info>, waited: Option<(nat, nat)>, source: Option<Entry>)

  datatype State = State(
    clock: nat, inFlight: bool, flights: nat, closings: seq<nat>, nils: set<nat>,
    cache: Option<Entry>, callers: map<nat, Pc>)

  const Idle := State(0, false, 0, [], {}, None, map[])

  datatype Step =
    | Enter(caller: nat, usesCache: bool)      // the first critical section; usesCache: not forced and fresh
    | Land(lander: nat, found: Option<Info>)   // the second critical section, after CheckLatest
    | Release(waiter: nat)
    | GiveUp(quitter: nat)                     // the request's context ended
    | ReadCache(reader: nat)

  predicate Enabled(s: State, step: Step) {
    match step
    case Enter(t, _) => t !in s.callers
    case Land(t, _) => t in s.callers && s.callers[t].Flying?
    case Release(t) => t in s.callers && s.callers[t].Waiting? && s.callers[t].flight in s.closings
    case GiveUp(t) => t in s.callers && s.callers[t].Waiting?
    case ReadCache(t) => t in s.callers && s.callers[t].Released?
  }

  /** flights counts the done channels made so far; the one in flight is the last. */
  function Act(s: State, step: Step): State
    requires Enabled(s, step)
  {
    match step
    case Enter(t, usesCache) =>
      if usesCache && s.cache.Some? then
        s.(callers := s.callers[t := Answered(Some(s.cache.value.info), None, s.cache)])
      else if s.inFlight then s.(callers := s.callers[t := Waiting(s.flights, s.clock)])
      else s.(inFlight := true, flights := s.flights + 1, callers := s.callers[t := Flying(s.flights + 1)])
    case Land(t, found) =>
      s.(inFlight := false, closings := s.closings + [s.flights],
         cache := if found.Some? then Some(Entry(found.value, s.flights, s.clock)) else s.cache,
         nils := if found.Some? then s.nils else s.nils + {s.flights},
         callers := s.callers[t := Answered(found, None, None)])
    case Release(t) => s.(callers := s.callers[t := Released(s.callers[t].flight, s.callers[t].began)])
    case GiveUp(t) => s.(callers := s.callers[t := Answered(None, None, None)])
    case ReadCache(t) =>
      var pc := s.callers[t];
      s.(callers := s.callers[t := Answered(if s.cache.Some? then Some(s.cache.value.info) else None,
                                            Some((pc.flight, pc.began)), s.cache)])
  }

  function Next(s: State, step: Step): State {
    if Enabled(s, step) then Act(s, step).(clock := s.clock + 1) else s
  }

  function Run(steps: seq<Step>): State {
    if steps == [] then Idle else Next(Run(steps[..|steps| - 1]), steps[|steps| - 1])
  }

  // ---- invariants ----

  /** Exactly one caller is inside CheckLatest while inFlight is set, none otherwise; it flies the last flight. */
  predicate OneFlight(s: State) {
    && (s.inFlight ==> s.flights > 0 && exists t :: t in s.callers && s.callers[t].Flying?)
    && (forall t :: t in s.callers && s.callers[t].Flying? ==> s.inFlight && s.callers[t].flight == s.flights)
    && (forall t, u :: t in s.callers && u in s.callers && s.callers[t].Flying? && s.callers[u].Flying? ==> t == u)
  }

  /** Channels are closed once each, in the order they were made, by the flight that made them. */
  predicate ClosedOnce(s: State) {
    && |s.closings| == s.flights - (if s.inFlight then 1 else 0)
    && forall i :: 0 <= i < |s.closings| ==> s.closings[i] == i + 1
  }

  /** What waiting for flight f since `began` guarantees once its channel is closed. */
  predicate FreshEnough(cache: Option<Entry>, nils: set<nat>, f: nat, began: nat) {
    f !in nils ==> cache.Some? && cache.value.flight >= f && cache.value.finished >= began
  }

  predicate CallerOk(s: State, pc: Pc) {
    match pc
    case Flying(_) => true
    case Waiting(f, began) =>
      began < s.clock && 0 < f <= s.flights && (f in s.closings ==> FreshEnough(s.cache, s.nils, f, began))
    case Released(f, began) => began < s.clock && f in s.closings && FreshEnough(s.cache, s.nils, f, began)
    case Answered(result, waited, source) =>
      waited.Some? ==>
        && FreshEnough(source, s.nils, waited.value.0, waited.value.1) && waited.value.0 in s.closings
        && result == if source.Some? then Some(source.value.info) else None
  }

  predicate Waits(s: State) {
    && (forall t :: t in s.callers ==> CallerOk(s, s.callers[t]))
    && (s.cache.Some? ==> s.cache.value.flight in s.closings && s.cache.value.finished < s.clock)
    && (forall f :: f in s.nils ==> f in s.closings)
  }

  lemma StepOneFlight(s: State, step: Step)
    requires OneFlight(s)
    ensures OneFlight(Next(s, step))
  {
    var s' := Next(s, step);
    if s'.inFlight {
      if step.Enter? && Enabled(s, step) {
        assert step.caller in s'.callers;
      }
      if s.inFlight {
        var t :| t in s.callers && s.callers[t].Flying?;
        assert t in s'.callers && s'.callers[t].Flying?;
      }
    }
  }

  lemma StepClosedOnce(s: State, step: Step)
    requires OneFlight(s) && ClosedOnce(s)
    ensures ClosedOnce(Next(s, step))
  {
  }

  lemma StepWaits(s: State, step: Step)
    requires OneFlight(s) && ClosedOnce(s) && Waits(s)
    ensures Waits(Next(s, step))
  {
    var s' := Next(s, step);
    if Enabled(s, step) {
      ClosingsGrow(s, step);
      StepCache(s, step);
      forall t | t in s'.callers ensures CallerOk(s', s'.callers[t]) {
        StepCaller(s, step, t);
      }
    }
  }

  /** What a step does to the results: nothing, or a landing adds one for the last flight. */
  lemma StepCache(s: State, step: Step)
    requires OneFlight(s) && ClosedOnce(s) && Waits(s) && Enabled(s, step)
    ensures var s' := Next(s, step);
            && (s'.cache.Some? ==> s'.cache.value.flight in s'.closings && s'.cache.value.finished < s'.clock)
            && (forall f :: f in s'.nils ==> f in s'.closings)
  {
    ClosingsGrow(s, step);
    hide OneFlight, ClosedOnce, CallerOk;
  }

  /** A caller that does not take the step is as well off as before. */
  lemma OtherCallerOk(s: State, step: Step, pc: Pc)
    requires OneFlight(s) && ClosedOnce(s) && Waits(s) && Enabled(s, step) && CallerOk(s, pc)
    ensures CallerOk(Next(s, step), pc)
  {
    ClosingsGrow(s, step);
    hide OneFlight, ClosedOnce, Waits;
    LandingIsFresh(s, step, pc);
  }

  /** A landing gives those who wait for it a result that is fresh enough. */
  lemma LandingIsFresh(s: State, step: Step, pc: Pc)
    requires Enabled(s, step) && CallerOk(s, pc)
    ensures var s' := Next(s, step);
            && s.clock < s'.clock && s.flights <= s'.flights
            && (!step.Land? ==> s'.cache == s.cache && s'.nils == s.nils && s'.closings == s.closings)
            && (step.Land? ==>
                  if step.found.Some? then s'.nils == s.nils && s'.cache == Some(Entry(step.found.value, s.flights, s.clock))
                  else s'.nils == s.nils + {s.flights} && s'.cache == s.cache)
  {
    hide CallerOk;
  }

  /** The caller that takes the step. */
  lemma ActorOk(s: State, step: Step, t: nat)
    requires OneFlight(s) && ClosedOnce(s) && Waits(s) && Enabled(s, step)
    requires t == match step
                  case Enter(c, _) => c
                  case Land(c, _) => c
                  case Release(c) => c
                  case GiveUp(c) => c
                  case ReadCache(c) => c
    ensures t in Next(s, step).callers && CallerOk(Next(s, step), Next(s, step).callers[t])
    ensures forall u :: u != t && u in Next(s, step).callers ==> u in s.callers && Next(s, step).callers[u] == s.callers[u]
  {
    if t in s.callers {
      assert CallerOk(s, s.callers[t]);
    }
  }

  lemma StepCaller(s: State, step: Step, t: nat)
    requires OneFlight(s) && ClosedOnce(s) && Waits(s) && Enabled(s, step) && t in Next(s, step).callers
    ensures CallerOk(Next(s, step), Next(s, step).callers[t])
  {
    var actor := match step
      case Enter(c, _) => c
      case Land(c, _) => c
      case Release(c) => c
      case GiveUp(c) => c
      case ReadCache(c) => c;
    ActorOk(s, step, actor);
    if t != actor {
      assert CallerOk(s, s.callers[t]);
      hide Next, OneFlight, ClosedOnce, CallerOk;
      OtherCallerOk(s, step, s.callers[t]);
    }
  }

  lemma ClosingsGrow(s: State, step: Step)
    requires OneFlight(s) && ClosedOnce(s) && Waits(s) && Enabled(s, step)
    ensures forall f :: f in s.closings ==> f in Next(s, step).closings && f <= |s.closings|
    ensures step.Land? ==> s.flights !in s.closings && s.flights in Next(s, step).closings
    ensures forall f :: f in Next(s, step).closings ==> f in s.closings || (step.Land? && f == s.flights)
  {
    if step.Land? {
      assert (s.closings + [s.flights])[|s.closings|] == s.flights;
    }
  }

  lemma {:induction false} RunInvariants(steps: seq<Step>)
    ensures OneFlight(Run(steps)) && ClosedOnce(Run(steps)) && Waits(Run(steps))
  {
    if steps != [] {
      var n := |steps| - 1;
      RunInvariants(steps[..n]);
      hide OneFlight, ClosedOnce, Waits, Next;
      StepOneFlight(Run(steps[..n]), steps[n]);
      StepClosedOnce(Run(steps[..n]), steps[n]);
      StepWaits(Run(steps[..n]), steps[n]);
    }
  }

  /** In every interleaving at most one CheckLatest runs at a time. */
  lemma OneCheckAtATime(steps: seq<Step>, t: nat, u: nat)
    requires var s := Run(steps); t in s.callers && u in s.callers && s.callers[t].Flying? && s.callers[u].Flying?
    ensures t == u
  {
    RunInvariants(steps);
  }

  /** Each done channel is closed at most once, and only one made so far. */
  lemma ChannelsClosedOnce(steps: seq<Step>)
    ensures var s := Run(steps);
            && (forall i, j :: 0 <= i < j < |s.closings| ==> s.closings[i] != s.closings[j])
            && (forall f :: f in s.closings ==> 0 < f <= s.flights)
  {
    RunInvariants(steps);
  }

  /**
   * A caller that waited for a flight and read the cache got the result of a flight that finished after its
   * own call began, provided the flight it waited for returned a result (CheckLatest always does). If
   * that flight returned nil the cache may be older or empty.
   */
  lemma WaiterGetsFreshResult(steps: seq<Step>, t: nat)
    requires var s := Run(steps); t in s.callers && s.callers[t].Answered? && s.callers[t].waited.Some?
    requires var s := Run(steps); s.callers[t].waited.value.0 !in s.nils
    ensures var s := Run(steps);
            var pc := s.callers[t];
            && pc.source.Some? && pc.result == Some(pc.source.value.info)
            && pc.source.value.finished >= pc.waited.value.1 && pc.source.value.flight >= pc.waited.value.0
  {
    RunInvariants(steps);
    assert CallerOk(Run(steps), Run(steps).callers[t]);
  }

  // ---- callers get answers ----

  lemma WaitedFor(s: State, t: nat)
    requires OneFlight(s) && ClosedOnce(s) && Waits(s) && t in s.callers && s.callers[t].Waiting?
    ensures var f := s.callers[t].flight;
            f in s.closings || (s.inFlight && f == s.flights && exists u :: u in s.callers && s.callers[u].Flying?)
  {
    var f := s.callers[t].flight;
    assert CallerOk(s, s.callers[t]);
    assert f <= |s.closings| ==> s.closings[f - 1] == f;
  }

  /**
   * Nobody waits forever: the flight that a caller waits for has landed, so that it can go on, or somebody is
   * flying it, and landing closes its channel, whatever was found.
   */
  lemma NobodyWaitsForever(steps: seq<Step>, t: nat)
    requires t in Run(steps).callers && Run(steps).callers[t].Waiting?
    ensures var s := Run(steps);
            var f := s.callers[t].flight;
            || f in s.closings
            || exists u :: u in s.callers && s.callers[u].Flying?
                 && forall found :: f in Next(s, Land(u, found)).closings
  {
    RunInvariants(steps);
    var s := Run(steps);
    hide Run, OneFlight, ClosedOnce, Waits;
    WaitedFor(s, t);
    if s.callers[t].flight !in s.closings {
      var u :| u in s.callers && s.callers[u].Flying?;
      assert forall found :: s.callers[t].flight in Next(s, Land(u, found)).closings;
    }
  }

  /**
   * In any reachable state without a flight: a caller flies, gets what it found, and a later caller is served
   * from the cache without a flight, while a forced one flies again.
   */
  lemma FlightServesCallers(steps: seq<Step>, t: nat, u: nat, v: nat, info: Info)
    requires var s := Run(steps); !s.inFlight && t !in s.callers && u !in s.callers && v !in s.callers
    requires t != u && t != v && u != v
    ensures var s1 := Next(Run(steps), Enter(t, false));
            var s2 := Next(s1, Land(t, Some(info)));
            var s3 := Next(s2, Enter(u, true));
            var s4 := Next(s3, Enter(v, false));
            && s1.inFlight && s1.callers[t] == Flying(s1.flights)
            && !s2.inFlight && s2.callers[t].Answered? && s2.callers[t].result == Some(info)
            && u in s3.callers && s3.callers[u].Answered? && s3.callers[u].result == Some(info) && !s3.inFlight
            && s4.inFlight && v in s4.callers && s4.callers[v] == Flying(s4.flights) && s4.flights == s1.flights + 1
  {
    hide Run;
  }

  /** A caller that joins a flight gets what that flight found, once it has landed. */
  lemma JoinersGetTheResult(steps: seq<Step>, t: nat, u: nat, info: Info)
    requires var s := Run(steps); t in s.callers && s.callers[t].Flying? && u !in s.callers
    ensures var s1 := Next(Run(steps), Enter(u, false));
            var s2 := Next(s1, Land(t, Some(info)));
            var s4 := Next(Next(s2, Release(u)), ReadCache(u));
            && u in s1.callers && s1.callers[u].Waiting? && s1.flights == Run(steps).flights
            && u in s4.callers && s4.callers[u].Answered? && s4.callers[u].result == Some(info)
  {
    RunInvariants(steps);
    var s := Run(steps);
    assert s.inFlight;
    hide Run, OneFlight, ClosedOnce, Waits;
    assert s.flights in s.closings + [s.flights];
  }
}

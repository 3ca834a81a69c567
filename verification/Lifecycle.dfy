/** Creation and destruction of sessions, internal/session/session.go, as a step relation. */
module Lifecycle {
  import opened Bytes

  type Sid = nat

  /** What the winner of a session's destroyed flag still has to do. */
  datatype Task = Unregister(sid: Sid) | Notify(sid: Sid) | AwaitExit(sid: Sid)

  datatype Event = Destroyed(sid: Sid) | OpBegan(sid: Sid)

  datatype State = State(
    spawned: set<Sid>, exited: set<Sid>, registry: set<Sid>, destroyed: set<Sid>,
    creators: map<nat, Sid>,      // Create calls between spawning and registering
    sweeping: multiset<Sid>,      // DestroyAll goroutines that have not looked at the flag yet
    tasks: multiset<Task>,
    notified: multiset<Sid>,      // onDestroy callbacks made
    ops: map<nat, Sid>,           // guarded PTY operations in flight
    termOps: map<Sid, int>,
    log: seq<Event>)

  const Empty := State({}, {}, {}, {}, map[], multiset{}, multiset{}, multiset{}, map[], map[], [])

  datatype Step =
    | Spawn(creator: nat, spawnedSid: Sid)
    | Register(registering: nat)
    | ChildExits(child: Sid)
    | Claim(claimed: Sid)              // destroy: Destroy of a looked-up session, or its exit hook
    | RunTask(task: Task)
    | SweepTakes                       // DestroyAll empties the registry
    | SweepClaims(swept: Sid)
    | BeginOp(op: nat, on: Sid)
    | EndOp(ended: nat)

  predicate Enabled(s: State, step: Step, maxSessions: int) {
    match step
    case Spawn(c, sid) => c !in s.creators && sid !in s.spawned && |s.registry| < maxSessions
    case Register(c) => c in s.creators
    case ChildExits(sid) => sid in s.spawned - s.exited
    case Claim(sid) => sid in s.spawned
    case RunTask(t) => t in s.tasks && (t.AwaitExit? ==> t.sid in s.exited)
    case SweepTakes => true
    case SweepClaims(sid) => sid in s.sweeping
    case BeginOp(op, sid) => op !in s.ops && sid in s.spawned
    case EndOp(op) => op in s.ops && s.ops[op] in s.termOps
  }

  /** The in-flight counter of a session, zero before its first operation. */
  function OpCount(termOps: map<Sid, int>, sid: Sid): int {
    if sid in termOps then termOps[sid] else 0
  }

  /** The flag is tested and set under the session's lock. */
  function SetDestroyed(s: State, sid: Sid, next: Task): State {
    if sid in s.destroyed then s
    else s.(destroyed := s.destroyed + {sid}, tasks := s.tasks + multiset{next}, log := s.log + [Destroyed(sid)])
  }

  function Act(s: State, step: Step, maxSessions: int): State
    requires Enabled(s, step, maxSessions)
  {
    match step
    case Spawn(c, sid) => s.(spawned := s.spawned + {sid}, creators := s.creators[c := sid])
    case Register(c) =>
      var done := s.(creators := s.creators - {c});
      if |s.registry| >= maxSessions then done else done.(registry := s.registry + {s.creators[c]})
    case ChildExits(sid) => s.(exited := s.exited + {sid})
    case Claim(sid) => SetDestroyed(s, sid, Unregister(sid))
    case RunTask(t) =>
      var rest := s.tasks - multiset{t};
      if t.Unregister? then s.(registry := s.registry - {t.sid}, tasks := rest + multiset{Notify(t.sid)})
      else s.(notified := s.notified + multiset{t.sid}, tasks := rest)
    case SweepTakes => s.(registry := {}, sweeping := s.sweeping + multiset(s.registry))
    case SweepClaims(sid) => SetDestroyed(s.(sweeping := s.sweeping - multiset{sid}), sid, AwaitExit(sid))
    case BeginOp(op, sid) =>
      if sid in s.destroyed then s
      else s.(ops := s.ops[op := sid], termOps := s.termOps[sid := OpCount(s.termOps, sid) + 1], log := s.log + [OpBegan(sid)])
    case EndOp(op) =>
      s.(ops := s.ops - {op}, termOps := s.termOps[s.ops[op] := s.termOps[s.ops[op]] - 1])
  }

  function Next(s: State, step: Step, maxSessions: int): State {
    if Enabled(s, step, maxSessions) then Act(s, step, maxSessions) else s
  }

  function Run(steps: seq<Step>, maxSessions: int): State {
    if steps == [] then Empty else Next(Run(steps[..|steps| - 1], maxSessions), steps[|steps| - 1], maxSessions)
  }

  // ---- invariants ----

  /** A session's flag is held by exactly one pending task or notification, once set, and by none before. */
  ghost predicate OneOwner(s: State) {
    forall sid :: Owners(s, sid) == if sid in s.destroyed then 1 else 0
  }

  function Owners(s: State, sid: Sid): nat {
    s.notified[sid] + Pending(s.tasks, sid)
  }

  function Pending(tasks: multiset<Task>, sid: Sid): nat {
    tasks[Unregister(sid)] + tasks[Notify(sid)] + tasks[AwaitExit(sid)]
  }

  /** Once destroyed, no operation begins. */
  predicate NoLateOps(s: State) {
    && (forall i, j :: 0 <= i < j < |s.log| && s.log[i].Destroyed? ==> s.log[j] != OpBegan(s.log[i].sid))
    && (forall i :: 0 <= i < |s.log| && s.log[i].Destroyed? ==> s.log[i].sid in s.destroyed)
  }

  function OpsOn(ops: map<nat, Sid>, sid: Sid): set<nat> {
    set op | op in ops && ops[op] == sid
  }

  ghost predicate OpsCounted(ops: map<nat, Sid>, termOps: map<Sid, int>) {
    && (forall sid :: OpCount(termOps, sid) == |OpsOn(ops, sid)|)
    && (forall op :: op in ops ==> ops[op] in termOps)
  }

  predicate Bounded(s: State, maxSessions: int) {
    |s.registry| <= if maxSessions > 0 then maxSessions else 0
  }

  lemma SetDestroyedOneOwner(s: State, sid: Sid, next: Task)
    requires OneOwner(s) && next.sid == sid
    ensures OneOwner(SetDestroyed(s, sid, next))
  {
    var s' := SetDestroyed(s, sid, next);
    forall q ensures Owners(s', q) == if q in s'.destroyed then 1 else 0 {
      assert Owners(s, q) == if q in s.destroyed then 1 else 0;
    }
  }

  lemma Retasked(tasks: multiset<Task>, t: Task, u: Task)
    requires t in tasks
    ensures (tasks - multiset{t})[u] == tasks[u] - if u == t then 1 else 0
  {
  }

  /** Doing the task hands the session on: from removal to notification, or from a task to the notification made. */
  lemma TaskHandedOn(tasks: multiset<Task>, notified: multiset<Sid>, t: Task, q: Sid)
    requires t in tasks
    ensures var rest := tasks - multiset{t};
            var (tasks', notified') :=
              if t.Unregister? then (rest + multiset{Notify(t.sid)}, notified) else (rest, notified + multiset{t.sid});
            notified'[q] + Pending(tasks', q) == notified[q] + Pending(tasks, q)
  {
    Retasked(tasks, t, Unregister(q));
    Retasked(tasks, t, Notify(q));
    Retasked(tasks, t, AwaitExit(q));
  }

  lemma RunTaskOneOwner(s: State, t: Task, maxSessions: int)
    requires OneOwner(s) && Enabled(s, RunTask(t), maxSessions)
    ensures OneOwner(Act(s, RunTask(t), maxSessions))
  {
    var s' := Act(s, RunTask(t), maxSessions);
    hide Pending;
    forall q ensures Owners(s', q) == if q in s'.destroyed then 1 else 0 {
      assert Owners(s, q) == if q in s.destroyed then 1 else 0;
      TaskHandedOn(s.tasks, s.notified, t, q);
    }
  }

  lemma StepOneOwner(s: State, step: Step, maxSessions: int)
    requires OneOwner(s)
    ensures OneOwner(Next(s, step, maxSessions))
  {
    if Enabled(s, step, maxSessions) {
      match step {
        case Claim(sid) => SetDestroyedOneOwner(s, sid, Unregister(sid));
        case SweepClaims(sid) =>
          var swept := s.(sweeping := s.sweeping - multiset{sid});
          OthersOneOwner(s, swept);
          SetDestroyedOneOwner(swept, sid, AwaitExit(sid));
        case RunTask(t) => RunTaskOneOwner(s, t, maxSessions);
        case _ => OthersOneOwner(s, Act(s, step, maxSessions));
      }
    }
  }

  lemma OthersOneOwner(s: State, s': State)
    requires OneOwner(s) && s'.notified == s.notified && s'.tasks == s.tasks && s'.destroyed == s.destroyed
    ensures OneOwner(s')
  {
    forall q ensures Owners(s', q) == if q in s'.destroyed then 1 else 0 {
      assert Owners(s, q) == if q in s.destroyed then 1 else 0;
    }
  }

  lemma LogNoLateOps(s: State, e: Event, s': State)
    requires NoLateOps(s) && s'.log == s.log + [e] && s.destroyed <= s'.destroyed
    requires if e.Destroyed? then e.sid in s'.destroyed else e.sid !in s.destroyed
    ensures NoLateOps(s')
  {
  }

  /** The event that a step may log. */
  function EventOf(step: Step): Option<Event> {
    match step
    case Claim(sid) => Some(Destroyed(sid))
    case SweepClaims(sid) => Some(Destroyed(sid))
    case BeginOp(_, sid) => Some(OpBegan(sid))
    case _ => None
  }

  /** One more event in the log, of a session that is destroyed, or was not when its operation began. */
  predicate Logs(s: State, e: Event, s': State) {
    && s'.log == s.log + [e]
    && if e.Destroyed? then e.sid in s'.destroyed else e.sid !in s.destroyed
  }

  predicate LogsAtMost(s: State, e: Option<Event>, s': State) {
    s.destroyed <= s'.destroyed && (s'.log == s.log || (e.Some? && Logs(s, e.value, s')))
  }

  lemma QuietStepLogs(s: State, step: Step, maxSessions: int)
    requires !step.Claim? && !step.SweepClaims? && !step.BeginOp?
    ensures LogsAtMost(s, None, Next(s, step, maxSessions))
  {
  }

  lemma ClaimLogs(s: State, step: Step, maxSessions: int)
    requires step.Claim? || step.SweepClaims?
    ensures LogsAtMost(s, EventOf(step), Next(s, step, maxSessions))
  {
  }

  lemma BeginOpLogs(s: State, op: nat, sid: Sid, maxSessions: int)
    ensures LogsAtMost(s, Some(OpBegan(sid)), Next(s, BeginOp(op, sid), maxSessions))
  {
  }

  lemma StepNoLateOps(s: State, step: Step, maxSessions: int)
    requires NoLateOps(s)
    ensures NoLateOps(Next(s, step, maxSessions))
  {
    hide Next, NoLateOps;
    match step {
      case Claim(_) => ClaimLogs(s, step, maxSessions);
      case SweepClaims(_) => ClaimLogs(s, step, maxSessions);
      case BeginOp(op, sid) => BeginOpLogs(s, op, sid, maxSessions);
      case _ => QuietStepLogs(s, step, maxSessions);
    }
    var s' := Next(s, step, maxSessions);
    if s'.log == s.log {
      SameLogNoLateOps(s, s');
    } else {
      LogNoLateOps(s, EventOf(step).value, s');
    }
  }

  lemma SameLogNoLateOps(s: State, s': State)
    requires NoLateOps(s) && s'.log == s.log && s.destroyed <= s'.destroyed
    ensures NoLateOps(s')
  {
  }

  lemma BeginOpCounted(ops: map<nat, Sid>, termOps: map<Sid, int>, op: nat, sid: Sid)
    requires OpsCounted(ops, termOps) && op !in ops
    ensures OpsCounted(ops[op := sid], termOps[sid := OpCount(termOps, sid) + 1])
  {
    var ops', termOps' := ops[op := sid], termOps[sid := OpCount(termOps, sid) + 1];
    forall q ensures OpCount(termOps', q) == |OpsOn(ops', q)| {
      assert OpCount(termOps, q) == |OpsOn(ops, q)|;
      InsertedOps(ops, op, sid, q);
      hide OpsOn;
    }
    assert forall o :: o in ops' ==> ops'[o] in termOps';
  }

  lemma InsertedOps(ops: map<nat, Sid>, op: nat, sid: Sid, q: Sid)
    requires op !in ops
    ensures |OpsOn(ops[op := sid], q)| == |OpsOn(ops, q)| + if q == sid then 1 else 0
  {
    assert OpsOn(ops[op := sid], q) == if q == sid then OpsOn(ops, q) + {op} else OpsOn(ops, q);
  }

  lemma EndOpCounted(ops: map<nat, Sid>, termOps: map<Sid, int>, op: nat)
    requires OpsCounted(ops, termOps) && op in ops
    ensures OpsCounted(ops - {op}, termOps[ops[op] := termOps[ops[op]] - 1])
  {
    var ops', termOps' := ops - {op}, termOps[ops[op] := termOps[ops[op]] - 1];
    forall q ensures OpCount(termOps', q) == |OpsOn(ops', q)| {
      assert OpCount(termOps, q) == |OpsOn(ops, q)|;
      assert OpsOn(ops', q) == if q == ops[op] then OpsOn(ops, q) - {op} else OpsOn(ops, q);
    }
  }

  lemma StepOpsCounted(s: State, step: Step, maxSessions: int)
    requires OpsCounted(s.ops, s.termOps)
    ensures var s' := Next(s, step, maxSessions); OpsCounted(s'.ops, s'.termOps)
  {
    hide OpsCounted;
    if step.BeginOp? && Enabled(s, step, maxSessions) {
      BeginOpCounted(s.ops, s.termOps, step.op, step.on);
    } else if step.EndOp? && Enabled(s, step, maxSessions) {
      EndOpCounted(s.ops, s.termOps, step.ended);
    }
  }

  /** A step leaves the registry alone, empties it, takes a session out, or adds one below the limit. */
  lemma RegistryMoves(s: State, step: Step, maxSessions: int)
    ensures var r, r' := s.registry, Next(s, step, maxSessions).registry;
            || r' == r || r' == {} || (step.RunTask? && r' == r - {step.task.sid})
            || (step.Register? && |r| < maxSessions && step.registering in s.creators && r' == r + {s.creators[step.registering]})
  {
  }

  lemma StepBounded(s: State, step: Step, maxSessions: int)
    requires Bounded(s, maxSessions)
    ensures Bounded(Next(s, step, maxSessions), maxSessions)
  {
    RegistryMoves(s, step, maxSessions);
    hide Next;
    if step.RunTask? {
      SubsetSize(s.registry - {step.task.sid}, s.registry);
    } else if step.Register? && step.registering in s.creators {
      AddedSize(s.registry, s.creators[step.registering]);
    }
  }

  lemma AddedSize(a: set<Sid>, x: Sid)
    ensures |a + {x}| <= |a| + 1
  {
    assert a + {x} == a + ({x} - a);
  }

  lemma SubsetSize(a: set<Sid>, b: set<Sid>)
    requires a <= b
    ensures |a| <= |b|
  {
    assert b == a + (b - a);
  }

  lemma {:induction false} RunInvariants(steps: seq<Step>, maxSessions: int)
    ensures var s := Run(steps, maxSessions);
            OneOwner(s) && NoLateOps(s) && OpsCounted(s.ops, s.termOps) && Bounded(s, maxSessions)
  {
    if steps == [] {
      assert forall sid :: OpsOn(Empty.ops, sid) == {};
    } else {
      var n := |steps| - 1;
      RunInvariants(steps[..n], maxSessions);
      hide OneOwner, NoLateOps, OpsCounted, Bounded, Next;
      StepOneOwner(Run(steps[..n], maxSessions), steps[n], maxSessions);
      StepNoLateOps(Run(steps[..n], maxSessions), steps[n], maxSessions);
      StepOpsCounted(Run(steps[..n], maxSessions), steps[n], maxSessions);
      StepBounded(Run(steps[..n], maxSessions), steps[n], maxSessions);
    }
  }

  /**
   * Under every interleaving of Create, Destroy, DestroyAll, exit hooks and PTY operations: onDestroy fires
   * at most once per session and only for a destroyed one; termOps counts the operations in flight; and
   * the registry never exceeds the limit.
   */
  lemma LifecycleSafe(steps: seq<Step>, maxSessions: int, sid: Sid)
    ensures var s := Run(steps, maxSessions);
            && s.notified[sid] <= 1 && (s.notified[sid] == 1 ==> sid in s.destroyed)
            && OpCount(s.termOps, sid) == |OpsOn(s.ops, sid)|
            && |s.registry| <= if maxSessions > 0 then maxSessions else 0
  {
    RunInvariants(steps, maxSessions);
    hide Run, NoLateOps;
    assert Owners(Run(steps, maxSessions), sid) <= 1;
  }

  /** A destroyed session whose owner has finished was notified exactly once. */
  lemma {:induction false} NotifiedWhenDone(steps: seq<Step>, maxSessions: int, sid: Sid)
    requires var s := Run(steps, maxSessions); sid in s.destroyed && forall t :: t in s.tasks ==> t.sid != sid
    ensures Run(steps, maxSessions).notified[sid] == 1
  {
    RunInvariants(steps, maxSessions);
    var s := Run(steps, maxSessions);
    assert Unregister(sid) !in s.tasks && Notify(sid) !in s.tasks && AwaitExit(sid) !in s.tasks;
  }

  /**
   * No guarded PTY operation is registered after its session was destroyed. (The write or resize of one
   * registered before may still run.)
   */
  lemma {:induction false} NoOpAfterDestroy(steps: seq<Step>, maxSessions: int, i: nat, j: nat)
    requires var log := Run(steps, maxSessions).log; i < j < |log| && log[i].Destroyed?
    ensures Run(steps, maxSessions).log[j] != OpBegan(Run(steps, maxSessions).log[i].sid)
  {
    RunInvariants(steps, maxSessions);
  }

  // ---- when the registry keeps a dead session ----

  /** A destroyed session in the registry that nobody is about to remove. */
  predicate Stuck(s: State, sid: Sid) {
    sid in s.registry && sid in s.destroyed && Unregister(sid) !in s.tasks
  }

  /** The step registers a session that was destroyed, and whose removal is over, before it got there. */
  predicate RegistersDead(s: State, step: Step, sid: Sid, maxSessions: int) {
    && step.Register? && Enabled(s, step, maxSessions) && s.creators[step.registering] == sid
    && |s.registry| < maxSessions && sid in s.destroyed && Unregister(sid) !in s.tasks
  }

  /** A session is being created by one caller, or registered, or being swept up, or none of these. */
  predicate Placed(s: State) {
    PlacedIn(s.spawned, s.creators, s.registry, s.sweeping)
  }

  predicate PlacedIn(spawned: set<Sid>, creators: map<nat, Sid>, registry: set<Sid>, sweeping: multiset<Sid>) {
    && (forall c, d :: c in creators && d in creators && creators[c] == creators[d] ==> c == d)
    && (forall c :: c in creators ==>
          creators[c] in spawned && creators[c] !in registry && creators[c] !in sweeping)
    && (forall sid :: sid in registry ==> sid in spawned && sid !in sweeping)
    && (forall sid :: sid in sweeping ==> sid in spawned)
  }

  lemma SpawnPlaced(spawned: set<Sid>, creators: map<nat, Sid>, registry: set<Sid>, sweeping: multiset<Sid>, c: nat, sid: Sid)
    requires PlacedIn(spawned, creators, registry, sweeping) && sid !in spawned
    ensures PlacedIn(spawned + {sid}, creators[c := sid], registry, sweeping)
  {
  }

  lemma RegisterPlaced(spawned: set<Sid>, creators: map<nat, Sid>, registry: set<Sid>, sweeping: multiset<Sid>, c: nat)
    requires PlacedIn(spawned, creators, registry, sweeping) && c in creators
    ensures PlacedIn(spawned, creators - {c}, registry, sweeping)
    ensures PlacedIn(spawned, creators - {c}, registry + {creators[c]}, sweeping)
  {
  }

  lemma SweepPlaced(spawned: set<Sid>, creators: map<nat, Sid>, registry: set<Sid>, sweeping: multiset<Sid>)
    requires PlacedIn(spawned, creators, registry, sweeping)
    ensures PlacedIn(spawned, creators, {}, sweeping + multiset(registry))
  {
  }

  /** Leaving the registry, or the sweep, disturbs nobody. */
  lemma LeavePlaced(spawned: set<Sid>, creators: map<nat, Sid>, registry: set<Sid>, sweeping: multiset<Sid>, sid: Sid)
    requires PlacedIn(spawned, creators, registry, sweeping)
    ensures PlacedIn(spawned, creators, registry - {sid}, sweeping)
    ensures PlacedIn(spawned, creators, registry, sweeping - multiset{sid})
  {
    assert forall q :: q in sweeping - multiset{sid} ==> q in sweeping;
  }

  lemma SpawnStepPlaced(s: State, c: nat, sid: Sid, maxSessions: int)
    requires Placed(s)
    ensures Placed(Next(s, Spawn(c, sid), maxSessions))
  {
    hide PlacedIn;
    if sid !in s.spawned {
      SpawnPlaced(s.spawned, s.creators, s.registry, s.sweeping, c, sid);
    }
  }

  lemma RegisterStepPlaced(s: State, c: nat, maxSessions: int)
    requires Placed(s)
    ensures Placed(Next(s, Register(c), maxSessions))
  {
    hide PlacedIn;
    if c in s.creators {
      RegisterPlaced(s.spawned, s.creators, s.registry, s.sweeping, c);
    }
  }

  lemma SweepStepPlaced(s: State, step: Step, maxSessions: int)
    requires Placed(s) && (step.SweepTakes? || step.SweepClaims?)
    ensures Placed(Next(s, step, maxSessions))
  {
    hide PlacedIn;
    SweepPlaced(s.spawned, s.creators, s.registry, s.sweeping);
    if step.SweepClaims? {
      LeavePlaced(s.spawned, s.creators, s.registry, s.sweeping, step.swept);
    }
  }

  lemma OtherStepPlaced(s: State, step: Step, maxSessions: int)
    requires Placed(s) && (step.ChildExits? || step.Claim? || step.RunTask? || step.BeginOp? || step.EndOp?)
    ensures Placed(Next(s, step, maxSessions))
  {
    hide PlacedIn;
    if step.RunTask? {
      LeavePlaced(s.spawned, s.creators, s.registry, s.sweeping, step.task.sid);
    }
  }

  lemma StepPlaced(s: State, step: Step, maxSessions: int)
    requires Placed(s)
    ensures Placed(Next(s, step, maxSessions))
  {
    hide Placed, Next;
    match step {
      case Spawn(c, sid) => SpawnStepPlaced(s, c, sid, maxSessions);
      case Register(c) => RegisterStepPlaced(s, c, maxSessions);
      case SweepTakes => SweepStepPlaced(s, step, maxSessions);
      case SweepClaims(_) => SweepStepPlaced(s, step, maxSessions);
      case _ => OtherStepPlaced(s, step, maxSessions);
    }
  }

  lemma {:induction false} RunPlaced(steps: seq<Step>, maxSessions: int)
    ensures Placed(Run(steps, maxSessions))
  {
    if steps != [] {
      hide Placed, Next;
      RunPlaced(steps[..|steps| - 1], maxSessions);
      StepPlaced(Run(steps[..|steps| - 1], maxSessions), steps[|steps| - 1], maxSessions);
    }
    assert Placed(Empty) by { }
  }

  /** Steps that move no session in or out of registry, flag and tasks. */
  lemma Unmoved(s: State, step: Step, maxSessions: int)
    requires step.Spawn? || step.ChildExits? || step.BeginOp? || step.EndOp?
    ensures var s' := Next(s, step, maxSessions);
            s'.registry == s.registry && s'.destroyed == s.destroyed && s'.tasks == s.tasks
  {
  }

  lemma StepStuck(s: State, step: Step, sid: Sid, maxSessions: int)
    requires Stuck(s, sid)
    ensures Stuck(Next(s, step, maxSessions), sid) <==> !step.SweepTakes?
  {
    match step {
      case Register(_) =>
      case RunTask(t) =>
        if t in s.tasks {
          Retasked(s.tasks, t, Unregister(sid));
        }
      case Claim(_) => KeepsTask(s, step, sid, maxSessions);
      case SweepTakes =>
      case SweepClaims(_) => KeepsTask(s, step, sid, maxSessions);
      case _ =>
        Unmoved(s, step, maxSessions);
        hide Next;
    }
  }

  /** A destroyed session gets no second removal task. */
  lemma KeepsTask(s: State, step: Step, sid: Sid, maxSessions: int)
    requires sid in s.destroyed && Unregister(sid) !in s.tasks && (step.Claim? || step.SweepClaims?)
    ensures var s' := Next(s, step, maxSessions);
            Unregister(sid) !in s'.tasks && sid in s'.destroyed && s'.registry == s.registry
  {
  }

  /** Neither a removal nor a claim leaves a dead session behind. */
  lemma RunTaskLeavesNone(s: State, t: Task, sid: Sid, maxSessions: int)
    requires !Stuck(s, sid)
    ensures !Stuck(Next(s, RunTask(t), maxSessions), sid)
  {
    if t in s.tasks {
      Retasked(s.tasks, t, Unregister(sid));
    }
  }

  lemma ClaimLeavesNone(s: State, q: Sid, sid: Sid, maxSessions: int)
    requires !Stuck(s, sid)
    ensures !Stuck(Next(s, Claim(q), maxSessions), sid)
  {
    assert Unregister(q) in s.tasks + multiset{Unregister(q)};
    assert Unregister(sid) in s.tasks ==> Unregister(sid) in s.tasks + multiset{Unregister(q)};
  }

  lemma SweepLeavesNone(s: State, step: Step, sid: Sid, maxSessions: int)
    requires Placed(s) && !Stuck(s, sid) && (step.SweepTakes? || step.SweepClaims?)
    ensures !Stuck(Next(s, step, maxSessions), sid)
  {
    if step.SweepClaims? {
      assert step.swept in s.sweeping ==> step.swept !in s.registry;
      assert Unregister(sid) in s.tasks ==> Unregister(sid) in s.tasks + multiset{AwaitExit(step.swept)};
    }
  }

  lemma RegisterGetsStuck(s: State, c: nat, sid: Sid, maxSessions: int)
    requires !Stuck(s, sid)
    ensures Stuck(Next(s, Register(c), maxSessions), sid) <==> RegistersDead(s, Register(c), sid, maxSessions)
  {
  }

  /** In every reachable state, exactly such a registration makes a session stuck. */
  lemma StepGetsStuck(s: State, step: Step, sid: Sid, maxSessions: int)
    requires Placed(s) && !Stuck(s, sid)
    ensures Stuck(Next(s, step, maxSessions), sid) <==> RegistersDead(s, step, sid, maxSessions)
  {
    OnlyRegister(s, step, sid, maxSessions);
    hide Placed, Next, RegistersDead;
    match step {
      case Register(c) => RegisterGetsStuck(s, c, sid, maxSessions);
      case Claim(q) => ClaimLeavesNone(s, q, sid, maxSessions);
      case RunTask(t) => RunTaskLeavesNone(s, t, sid, maxSessions);
      case SweepTakes => SweepLeavesNone(s, step, sid, maxSessions);
      case SweepClaims(_) => SweepLeavesNone(s, step, sid, maxSessions);
      case _ => Unmoved(s, step, maxSessions);
    }
  }

  lemma OnlyRegister(s: State, step: Step, sid: Sid, maxSessions: int)
    ensures RegistersDead(s, step, sid, maxSessions) ==> step.Register?
  {
  }

  /**
   * The registry holds a dead session exactly if some step registered it after its destruction had removed it,
   * and DestroyAll has not emptied the registry since; in every interleaving.
   */
  lemma {:induction false} StuckExactly(steps: seq<Step>, sid: Sid, maxSessions: int)
    ensures Stuck(Run(steps, maxSessions), sid) <==>
            exists k :: 0 <= k < |steps| && StuckSince(steps, k, sid, maxSessions)
  {
    if steps != [] {
      hide Stuck, Next, RegistersDead, Placed;
      var n := |steps| - 1;
      var before, step := Run(steps[..n], maxSessions), steps[n];
      StuckExactly(steps[..n], sid, maxSessions);
      RunPlaced(steps[..n], maxSessions);
      forall k | 0 <= k < n
        ensures StuckSince(steps, k, sid, maxSessions) <==> StuckSince(steps[..n], k, sid, maxSessions) && !step.SweepTakes?
      {
        StuckSinceSnoc(steps, k, sid, maxSessions);
      }
      if Stuck(before, sid) {
        StepStuck(before, step, sid, maxSessions);
        OnlyRegister(before, step, sid, maxSessions);
      } else {
        StepGetsStuck(before, step, sid, maxSessions);
        assert RegistersDead(before, step, sid, maxSessions) ==> StuckSince(steps, n, sid, maxSessions);
      }
    } else {
      assert !Stuck(Empty, sid);
    }
  }

  /** Step k registers the dead session, and no sweep follows. */
  ghost predicate StuckSince(steps: seq<Step>, k: nat, sid: Sid, maxSessions: int)
    requires k < |steps|
  {
    && RegistersDead(Run(steps[..k], maxSessions), steps[k], sid, maxSessions)
    && forall j :: k < j < |steps| ==> !steps[j].SweepTakes?
  }

  lemma StuckSinceSnoc(steps: seq<Step>, k: nat, sid: Sid, maxSessions: int)
    requires k < |steps| - 1
    ensures var n := |steps| - 1;
            StuckSince(steps, k, sid, maxSessions) <==>
            StuckSince(steps[..n], k, sid, maxSessions) && !steps[n].SweepTakes?
  {
    hide Run, RegistersDead;
    var n := |steps| - 1;
    assert steps[..n][..k] == steps[..k] && steps[..n][k] == steps[k];
    assert forall j | k < j < n :: steps[..n][j] == steps[j];
  }

  /**
   * The registry is not the set of live sessions: from any state, a child that exits between spawning and
   * registering leaves its session registered, destroyed, notified, and with nobody left to remove it.
   */
  lemma {:induction false} DeadSessionRegistered(s: State, c: nat, sid: Sid, maxSessions: int)
    requires OneOwner(s) && c !in s.creators && sid !in s.spawned && sid !in s.destroyed && |s.registry| < maxSessions
    requires sid !in s.registry
    ensures var s1 := Next(s, Spawn(c, sid), maxSessions);
            var s2 := Next(Next(s1, ChildExits(sid), maxSessions), Claim(sid), maxSessions);
            var s3 := Next(Next(s2, RunTask(Unregister(sid)), maxSessions), RunTask(Notify(sid)), maxSessions);
            var s4 := Next(s3, Register(c), maxSessions);
            Stuck(s4, sid) && s4.notified[sid] == 1 && s4.tasks == s.tasks
  {
    assert Owners(s, sid) == 0;
    var s1 := Next(s, Spawn(c, sid), maxSessions);
    var s2 := Next(s1, ChildExits(sid), maxSessions);
    assert s2 == s1 || s2 == s1.(exited := s1.exited + {sid});
    DestroyBeforeRegistration(s2, sid, maxSessions);
  }

  lemma ClaimEffect(s: State, sid: Sid, maxSessions: int)
    requires sid in s.spawned && sid !in s.destroyed
    ensures Next(s, Claim(sid), maxSessions)
         == s.(destroyed := s.destroyed + {sid}, tasks := s.tasks + multiset{Unregister(sid)}, log := s.log + [Destroyed(sid)])
  {
  }

  lemma UnregisterEffect(s: State, sid: Sid, tasks: multiset<Task>, maxSessions: int)
    requires s.tasks == tasks + multiset{Unregister(sid)} && sid !in s.registry
    ensures Next(s, RunTask(Unregister(sid)), maxSessions) == s.(tasks := tasks + multiset{Notify(sid)})
  {
    assert s.registry - {sid} == s.registry;
    assert s.tasks - multiset{Unregister(sid)} == tasks;
  }

  lemma NotifyEffect(s: State, sid: Sid, tasks: multiset<Task>, maxSessions: int)
    requires s.tasks == tasks + multiset{Notify(sid)}
    ensures Next(s, RunTask(Notify(sid)), maxSessions) == s.(tasks := tasks, notified := s.notified + multiset{sid})
  {
    assert s.tasks - multiset{Notify(sid)} == tasks;
  }

  lemma DestroyBeforeRegistration(s: State, sid: Sid, maxSessions: int)
    requires sid in s.spawned && sid !in s.destroyed && sid !in s.registry
    ensures var s1 := Next(s, Claim(sid), maxSessions);
            var s2 := Next(s1, RunTask(Unregister(sid)), maxSessions);
            var s3 := Next(s2, RunTask(Notify(sid)), maxSessions);
            s3 == s.(destroyed := s.destroyed + {sid}, notified := s.notified + multiset{sid}, log := s.log + [Destroyed(sid)])
  {
    hide Next;
    ClaimEffect(s, sid, maxSessions);
    var s1 := Next(s, Claim(sid), maxSessions);
    UnregisterEffect(s1, sid, s.tasks, maxSessions);
    NotifyEffect(s1.(tasks := s.tasks + multiset{Notify(sid)}), sid, s.tasks, maxSessions);
  }

  /** Such a session stays in the registry, counted against the limit, until DestroyAll empties it. */
  lemma {:induction false} DeadSessionStays(steps: seq<Step>, from: nat, sid: Sid, maxSessions: int)
    requires from <= |steps| && Stuck(Run(steps[..from], maxSessions), sid)
    requires forall k :: from <= k < |steps| ==> !steps[k].SweepTakes?
    ensures Stuck(Run(steps, maxSessions), sid)
  {
    if from == |steps| {
      assert steps[..from] == steps;
    } else {
      var n := |steps| - 1;
      assert steps[..n][..from] == steps[..from];
      DeadSessionStays(steps[..n], from, sid, maxSessions);
      hide Stuck, Next;
      StepStuck(Run(steps[..n], maxSessions), steps[n], sid, maxSessions);
    }
  }

  // ---- sessions work, and end ----

  lemma StepDestroyedSpawned(s: State, step: Step, maxSessions: int)
    requires Placed(s) && s.destroyed <= s.spawned
    ensures Next(s, step, maxSessions).destroyed <= Next(s, step, maxSessions).spawned
  {
    hide OpCount;
  }

  lemma {:induction false} DestroyedSpawned(steps: seq<Step>, maxSessions: int)
    ensures Run(steps, maxSessions).destroyed <= Run(steps, maxSessions).spawned
  {
    if steps != [] {
      hide Next;
      var n := |steps| - 1;
      DestroyedSpawned(steps[..n], maxSessions);
      RunPlaced(steps[..n], maxSessions);
      StepDestroyedSpawned(Run(steps[..n], maxSessions), steps[n], maxSessions);
    }
  }

  lemma CreateEffect(s: State, c: nat, sid: Sid, maxSessions: int)
    requires c !in s.creators && sid !in s.spawned && |s.registry| < maxSessions && s.destroyed <= s.spawned
    ensures var t := Next(Next(s, Spawn(c, sid), maxSessions), Register(c), maxSessions);
            t.registry == s.registry + {sid} && t.destroyed == s.destroyed && sid in t.spawned && t.ops == s.ops
            && t.termOps == s.termOps && sid !in t.destroyed
  {
  }

  lemma OpEffect(s: State, op: nat, sid: Sid, maxSessions: int)
    requires op !in s.ops && sid in s.spawned && sid !in s.destroyed
    ensures var t := Next(s, BeginOp(op, sid), maxSessions);
            var u := Next(t, EndOp(op), maxSessions);
            && op in t.ops && t.ops[op] == sid && OpCount(t.termOps, sid) == OpCount(s.termOps, sid) + 1
            && u.ops == s.ops && OpCount(u.termOps, sid) == OpCount(s.termOps, sid)
  {
    assert s.ops[op := sid] - {op} == s.ops;
  }

  /**
   * From any reachable state with room: a created session is registered and alive, and a guarded operation on
   * it begins, is counted, and ends.
   */
  lemma CreatedSessionWorks(steps: seq<Step>, c: nat, sid: Sid, op: nat, maxSessions: int)
    requires var s := Run(steps, maxSessions);
             c !in s.creators && sid !in s.spawned && |s.registry| < maxSessions && op !in s.ops
    ensures var s := Run(steps, maxSessions);
            var t := Next(Next(s, Spawn(c, sid), maxSessions), Register(c), maxSessions);
            var u := Next(t, BeginOp(op, sid), maxSessions);
            var v := Next(u, EndOp(op), maxSessions);
            && sid in t.registry && sid !in t.destroyed
            && op in u.ops && u.ops[op] == sid && OpCount(u.termOps, sid) == OpCount(s.termOps, sid) + 1
            && v.ops == s.ops && OpCount(v.termOps, sid) == OpCount(s.termOps, sid)
  {
    DestroyedSpawned(steps, maxSessions);
    hide Run, Next;
    CreateEffect(Run(steps, maxSessions), c, sid, maxSessions);
    OpEffect(Next(Next(Run(steps, maxSessions), Spawn(c, sid), maxSessions), Register(c), maxSessions), op, sid, maxSessions);
  }

  lemma NoOwnerYet(s: State, sid: Sid)
    requires OneOwner(s) && sid !in s.destroyed
    ensures s.notified[sid] == 0 && Unregister(sid) !in s.tasks && Notify(sid) !in s.tasks && AwaitExit(sid) !in s.tasks
  {
    assert Owners(s, sid) == 0;
  }

  lemma UnregisterDone(s: State, sid: Sid, tasks: multiset<Task>, maxSessions: int)
    requires s.tasks == tasks + multiset{Unregister(sid)}
    ensures Next(s, RunTask(Unregister(sid)), maxSessions)
         == s.(registry := s.registry - {sid}, tasks := tasks + multiset{Notify(sid)})
  {
    assert s.tasks - multiset{Unregister(sid)} == tasks;
  }

  lemma DestroyEffect(s: State, sid: Sid, maxSessions: int)
    requires sid in s.spawned && sid !in s.destroyed
    ensures var s1 := Next(s, Claim(sid), maxSessions);
            var s2 := Next(s1, RunTask(Unregister(sid)), maxSessions);
            var s3 := Next(s2, RunTask(Notify(sid)), maxSessions);
            s3 == s.(destroyed := s.destroyed + {sid}, log := s.log + [Destroyed(sid)], registry := s.registry - {sid},
                     notified := s.notified + multiset{sid})
  {
    hide Next;
    ClaimEffect(s, sid, maxSessions);
    var s1 := Next(s, Claim(sid), maxSessions);
    UnregisterDone(s1, sid, s.tasks, maxSessions);
    NotifyEffect(Next(s1, RunTask(Unregister(sid)), maxSessions), sid, s.tasks, maxSessions);
  }

  /** From any reachable state, destroying a live session takes it out of the registry and notifies exactly once. */
  lemma DestroyCompletes(steps: seq<Step>, sid: Sid, maxSessions: int)
    requires var s := Run(steps, maxSessions); sid in s.spawned && sid !in s.destroyed
    ensures var s := Run(steps, maxSessions);
            var s1 := Next(s, Claim(sid), maxSessions);
            var t := Next(Next(s1, RunTask(Unregister(sid)), maxSessions), RunTask(Notify(sid)), maxSessions);
            sid in t.destroyed && sid !in t.registry && t.notified[sid] == 1 && t.tasks == s.tasks
  {
    RunInvariants(steps, maxSessions);
    NoOwnerYet(Run(steps, maxSessions), sid);
    hide Run, Next;
    DestroyEffect(Run(steps, maxSessions), sid, maxSessions);
  }

  lemma SweepEffect(s: State, sid: Sid, maxSessions: int)
    requires sid in s.registry && sid !in s.destroyed && sid in s.spawned
    ensures var s1 := Next(s, SweepTakes, maxSessions);
            var s2 := Next(s1, SweepClaims(sid), maxSessions);
            var s3 := Next(s2, ChildExits(sid), maxSessions);
            && s1.registry == {} && s3.tasks == s.tasks + multiset{AwaitExit(sid)} && sid in s3.exited
            && sid in s3.destroyed && s3.notified == s.notified && s3.registry == {}
  {
    assert sid in multiset(s.registry);
  }

  lemma AwaitEffect(s: State, tasks: multiset<Task>, sid: Sid, maxSessions: int)
    requires s.tasks == tasks + multiset{AwaitExit(sid)} && sid in s.exited
    ensures Next(s, RunTask(AwaitExit(sid)), maxSessions) == s.(tasks := tasks, notified := s.notified + multiset{sid})
  {
    assert s.tasks - multiset{AwaitExit(sid)} == tasks;
  }

  /** DestroyAll empties the registry, and every live session in it is notified exactly once when its child is dead. */
  lemma DestroyAllCompletes(steps: seq<Step>, sid: Sid, maxSessions: int)
    requires var s := Run(steps, maxSessions); sid in s.registry && sid !in s.destroyed
    ensures var s := Run(steps, maxSessions);
            var s1 := Next(s, SweepTakes, maxSessions);
            var s3 := Next(Next(s1, SweepClaims(sid), maxSessions), ChildExits(sid), maxSessions);
            var t := Next(s3, RunTask(AwaitExit(sid)), maxSessions);
            s1.registry == {} && sid in t.destroyed && t.notified[sid] == 1 && t.tasks == s.tasks
  {
    RunInvariants(steps, maxSessions);
    RunPlaced(steps, maxSessions);
    var s := Run(steps, maxSessions);
    NoOwnerYet(s, sid);
    hide Run, Next;
    SweepEffect(s, sid, maxSessions);
    var s1 := Next(s, SweepTakes, maxSessions);
    AwaitEffect(Next(Next(s1, SweepClaims(sid), maxSessions), ChildExits(sid), maxSessions), s.tasks, sid, maxSessions);
  }
}

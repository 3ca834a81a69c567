/** The self-update supervisor of internal/selfupdate/selfupdate.go as a file-state machine. */
module Supervisor {
  const PORT_BUSY_CODE := 3
  const RESTART_CODE := 42

  /** The binary and the files next to it: .previous, .new, .new.sha256 and .broken. */
  datatype Name = Binary | Previous | Staged | Digest | Broken

  type Content = nat

  type Files = map<Name, Content>

  // ---- single file operations; removing and renaming may fail ----

  datatype Op = Stage(written: Files) | Remove(name: Name, removes: bool) | Rename(from: Name, to: Name, renames: bool)

  function Do(fs: Files, op: Op): Files {
    match op
    case Stage(written) => fs + written
    case Remove(n, ok) => if ok then fs - {n} else fs
    case Rename(from, to, ok) => if ok && from in fs then fs[to := fs[from]] - {from} else fs
  }

  function DoAll(fs: Files, ops: seq<Op>): Files {
    if ops == [] then fs else Do(DoAll(fs, ops[..|ops| - 1]), ops[|ops| - 1])
  }

  /** swap, rollback and removeStaged: ok(i) tells whether the i-th attempt succeeds. */
  function SwapOps(ok: nat -> bool): seq<Op> {
    [Remove(Previous, ok(0)), Rename(Binary, Previous, ok(1)), Rename(Staged, Binary, ok(2))]
  }

  function RollbackOps(ok: nat -> bool): seq<Op> {
    [Remove(Broken, ok(0)), Rename(Binary, Broken, ok(1)), Rename(Previous, Binary, ok(2))]
  }

  function RemoveStagedOps(ok: nat -> bool): seq<Op> {
    [Remove(Staged, ok(0)), Remove(Digest, ok(1))]
  }

  // ---- one round of the supervisor loop ----

  /** How a child ends: its exit code, or -1 for a stop request and also for a death by signal. */
  datatype Round = Round(
    starts: bool,         // the binary can be executed
    staged: Files,        // what the child stages before it exits
    code: int,
    readable: bool,       // the staged files can be read and are no symlinks
    healthy: bool,        // the staged binary passes its pre-flight
    ok: nat -> bool)      // which removals and renames succeed, in the order attempted

  /** No external writer, and the child writes only what it stages. */
  predicate Legal(r: Round) {
    r.staged.Keys <= {Staged, Digest}
  }

  /** The loop's variables; hash stands for SHA-256 of a file. */
  datatype State = State(files: Files, crashes: int, startFails: int, refused: bool)

  datatype Setup = Setup(hash: Content -> Content, crashLimit: int)

  predicate ChildRuns(s: State, r: Round) {
    r.starts && Binary in s.files
  }

  predicate Stops(s: State, r: Round) {
    ChildRuns(s, r) && (r.code == -1 || r.code == PORT_BUSY_CODE)
  }

  predicate Verified(fs: Files, readable: bool, hash: Content -> Content) {
    readable && Staged in fs && Digest in fs && fs[Digest] == hash(fs[Staged])
  }

  /** The staged binary passes verification and pre-flight after the child asked for a restart. */
  predicate AcceptsStaged(fs: Files, r: Round, setup: Setup) {
    r.code == RESTART_CODE && Verified(fs, r.readable, setup.hash) && r.healthy
  }

  predicate Accepts(s: State, r: Round, setup: Setup) {
    ChildRuns(s, r) && AcceptsStaged(s.files + r.staged, r, setup)
  }

  /** The operations the exit code leads to, in the state the child leaves behind. */
  function ExitOps(s: State, r: Round, setup: Setup): seq<Op> {
    if r.code == -1 || r.code == PORT_BUSY_CODE || r.code == 0 then []
    else if r.code == RESTART_CODE then
      if AcceptsStaged(s.files, r, setup) then SwapOps(r.ok) + [Remove(Digest, r.ok(3))] else RemoveStagedOps(r.ok)
    else if s.crashes + 1 >= setup.crashLimit && Previous in s.files then RollbackOps(r.ok)
    else []
  }

  function AfterExit(s: State, r: Round, setup: Setup): State {
    var fs := DoAll(s.files, ExitOps(s, r, setup));
    if r.code == -1 || r.code == PORT_BUSY_CODE then s.(files := fs)
    else if r.code == RESTART_CODE then
      if AcceptsStaged(s.files, r, setup) then s.(files := fs, crashes := 0) else s.(files := fs, refused := true)
    else if r.code == 0 then s.(files := fs, crashes := 0)
    else
      var n := s.crashes + 1;
      s.(files := fs, crashes := if n >= setup.crashLimit && Previous in s.files then 0 else n)
  }

  /** The state when the child has exited. */
  function ChildGone(s: State, r: Round): State {
    State(s.files + r.staged, s.crashes, 0, false)
  }

  function Ops(s: State, r: Round, setup: Setup): seq<Op> {
    if ChildRuns(s, r) then [Stage(r.staged)] + ExitOps(ChildGone(s, r), r, setup)
    else if s.startFails + 1 >= setup.crashLimit && Previous in s.files then RollbackOps(r.ok)
    else []
  }

  function Next(s: State, r: Round, setup: Setup): State {
    if ChildRuns(s, r) then AfterExit(ChildGone(s, r), r, setup)
    else
      var n := s.startFails + 1;
      State(DoAll(s.files, Ops(s, r, setup)), s.crashes, if n >= setup.crashLimit && Previous in s.files then 0 else n, false)
  }

  class Supervisor {
    const setup: Setup
    var files: Files
    var crashes: int
    var startFails: int
    var refused: bool
    /** Every file operation attempted so far. */
    ghost var log: seq<Op>

    ghost function Value(): State
      reads this
    {
      State(files, crashes, startFails, refused)
    }

    constructor (setup: Setup, files: Files)
      ensures Value() == State(files, 0, 0, false) && this.setup == setup && log == []
    {
      this.setup, this.files := setup, files;
      crashes, startFails, refused := 0, 0, false;
      log := [];
    }

    method Attempt(op: Op)
      modifies this`files, this`log
      ensures files == Do(old(files), op) && log == old(log) + [op]
    {
      match op {
        case Stage(written) => files := files + written;
        case Remove(n, ok) =>
          if ok { files := files - {n}; }
        case Rename(from, to, ok) =>
          if ok && from in files { files := files[to := files[from]] - {from}; }
      }
      log := log + [op];
    }

    method Swap(ok: nat -> bool)
      modifies this`files, this`log
      ensures files == DoAll(old(files), SwapOps(ok)) && log == old(log) + SwapOps(ok)
    {
      Three(files, SwapOps(ok));
      Attempt(Remove(Previous, ok(0)));
      Attempt(Rename(Binary, Previous, ok(1)));
      Attempt(Rename(Staged, Binary, ok(2)));
    }

    method RollBack(ok: nat -> bool)
      modifies this`files, this`log
      ensures files == DoAll(old(files), RollbackOps(ok)) && log == old(log) + RollbackOps(ok)
    {
      Three(files, RollbackOps(ok));
      Attempt(Remove(Broken, ok(0)));
      Attempt(Rename(Binary, Broken, ok(1)));
      Attempt(Rename(Previous, Binary, ok(2)));
    }

    method RemoveStaged(ok: nat -> bool)
      modifies this`files, this`log
      ensures files == DoAll(old(files), RemoveStagedOps(ok)) && log == old(log) + RemoveStagedOps(ok)
    {
      DoAllSnoc(files, [Remove(Staged, ok(0))], Remove(Digest, ok(1)));
      DoAllSnoc(files, [], Remove(Staged, ok(0)));
      assert RemoveStagedOps(ok) == [Remove(Staged, ok(0))] + [Remove(Digest, ok(1))];
      Attempt(Remove(Staged, ok(0)));
      Attempt(Remove(Digest, ok(1)));
    }

    /** The switch on the child's exit code. */
    method HandleExit(r: Round) returns (stop: bool)
      modifies this
      ensures Value() == AfterExit(old(Value()), r, setup)
      ensures log == old(log) + ExitOps(old(Value()), r, setup)
      ensures stop <==> r.code == -1 || r.code == PORT_BUSY_CODE
    {
      hide SwapOps, RollbackOps, RemoveStagedOps, DoAll, Verified;
      NoOps(files);
      stop := false;
      if r.code == -1 || r.code == PORT_BUSY_CODE {
        return true;
      }
      if r.code == RESTART_CODE {
        if !Verified(files, r.readable, setup.hash) {
          RemoveStaged(r.ok);
          refused := true;
        } else if r.healthy {
          DoAllSnoc(files, SwapOps(r.ok), Remove(Digest, r.ok(3)));
          Swap(r.ok);
          Attempt(Remove(Digest, r.ok(3)));
          crashes := 0;
        } else {
          RemoveStaged(r.ok);
          refused := true;
        }
      } else if r.code == 0 {
        crashes := 0;
      } else {
        crashes := crashes + 1;
        if crashes >= setup.crashLimit && Previous in files {
          RollBack(r.ok);
          crashes := 0;
        }
      }
    }

    /** One iteration of Run's loop; true if the supervisor exits. */
    method RunRound(r: Round) returns (stop: bool)
      modifies this
      ensures Value() == Next(old(Value()), r, setup)
      ensures log == old(log) + Ops(old(Value()), r, setup)
      ensures stop == Stops(old(Value()), r)
    {
      hide RollbackOps, DoAll, ExitOps, AfterExit;
      NoOps(files);
      refused := false;
      if !r.starts || Binary !in files {
        startFails := startFails + 1;
        if startFails >= setup.crashLimit && Previous in files {
          RollBack(r.ok);
          startFails := 0;
        }
        return false;
      }
      startFails := 0;
      Attempt(Stage(r.staged));
      stop := HandleExit(r);
    }
  }

  lemma NoOps(fs: Files)
    ensures DoAll(fs, []) == fs
  {
  }

  lemma DoAllSnoc(fs: Files, ops: seq<Op>, op: Op)
    ensures DoAll(fs, ops + [op]) == Do(DoAll(fs, ops), op)
    ensures DoAll(fs, [op]) == Do(fs, op)
  {
    assert (ops + [op])[..|ops|] == ops && [op][..0] == [];
  }

  lemma {:induction false} DoAllConcat(fs: Files, a: seq<Op>, b: seq<Op>)
    ensures DoAll(fs, a + b) == DoAll(DoAll(fs, a), b)
  {
    if b == [] {
      assert a + b == a;
    } else {
      assert (a + b)[..|a + b| - 1] == a + b[..|b| - 1];
      DoAllConcat(fs, a, b[..|b| - 1]);
    }
  }

  lemma Three(fs: Files, ops: seq<Op>)
    requires |ops| == 3
    ensures DoAll(fs, ops[..0]) == fs && DoAll(fs, ops[..1]) == Do(fs, ops[0])
    ensures DoAll(fs, ops[..2]) == Do(Do(fs, ops[0]), ops[1])
    ensures DoAll(fs, ops) == DoAll(fs, ops[..3]) == Do(Do(Do(fs, ops[0]), ops[1]), ops[2])
  {
    assert ops[..2][..1] == ops[..1] && ops[..1][..0] == ops[..0] && ops[..3] == ops;
  }

  // ---- safety ----

  /** Nothing was lost: there is a binary to start or a previous one to roll back to. */
  predicate Recoverable(fs: Files) {
    Binary in fs || Previous in fs
  }

  /** What is installed, or may be rolled back to, is among the trusted contents. */
  predicate OnlyTrusted(fs: Files, trusted: set<Content>) {
    (Binary in fs ==> fs[Binary] in trusted) && (Previous in fs ==> fs[Previous] in trusted)
  }

  predicate Safe(fs: Files, trusted: set<Content>) {
    Recoverable(fs) && OnlyTrusted(fs, trusted)
  }

  /** Every file state on the way through ops is safe. */
  ghost predicate SafeThroughout(fs: Files, ops: seq<Op>, trusted: set<Content>) {
    forall k :: 0 <= k <= |ops| ==> Safe(DoAll(fs, ops[..k]), trusted)
  }

  lemma SafeConcat(fs: Files, a: seq<Op>, b: seq<Op>, trusted: set<Content>)
    requires SafeThroughout(fs, a, trusted) && SafeThroughout(DoAll(fs, a), b, trusted)
    ensures SafeThroughout(fs, a + b, trusted)
  {
    forall k | 0 <= k <= |a + b| ensures Safe(DoAll(fs, (a + b)[..k]), trusted) {
      if k <= |a| {
        assert (a + b)[..k] == a[..k];
      } else {
        assert (a + b)[..k] == a + b[..k - |a|];
        DoAllConcat(fs, a, b[..k - |a|]);
      }
    }
  }

  /** Whatever fails: a swap that starts with a binary never leaves the machine without one to start from. */
  lemma SwapSafe(fs: Files, ok: nat -> bool, trusted: set<Content>)
    requires Safe(fs, trusted) && Binary in fs && Staged in fs && fs[Staged] in trusted
    ensures SafeThroughout(fs, SwapOps(ok), trusted)
  {
    Three(fs, SwapOps(ok));
  }

  lemma RollbackSafe(fs: Files, ok: nat -> bool, trusted: set<Content>)
    requires Safe(fs, trusted) && Previous in fs
    ensures SafeThroughout(fs, RollbackOps(ok), trusted)
  {
    Three(fs, RollbackOps(ok));
  }

  /** Operations on the staged files alone. */
  lemma StagedOpSafe(fs: Files, op: Op, trusted: set<Content>)
    requires Safe(fs, trusted)
    requires (op.Stage? && op.written.Keys <= {Staged, Digest}) || (op.Remove? && op.name in {Staged, Digest})
    ensures SafeThroughout(fs, [op], trusted) && Safe(Do(fs, op), trusted)
    ensures Binary in fs ==> Binary in Do(fs, op)
    ensures Previous in Do(fs, op) <==> Previous in fs
  {
    assert [op][..0] == [] && [op][..1] == [op];
  }

  lemma RemoveStagedSafe(fs: Files, ok: nat -> bool, trusted: set<Content>)
    requires Safe(fs, trusted)
    ensures SafeThroughout(fs, RemoveStagedOps(ok), trusted)
  {
    var one, two := Remove(Staged, ok(0)), Remove(Digest, ok(1));
    StagedOpSafe(fs, one, trusted);
    StagedOpSafe(Do(fs, one), two, trusted);
    assert [one][..0] == [];
    SafeConcat(fs, [one], [two], trusted);
  }

  /** What a round adds to the trusted contents: a staged binary that passed verification and pre-flight. */
  function Approved(s: State, r: Round, setup: Setup): set<Content> {
    if Accepts(s, r, setup) then {(s.files + r.staged)[Staged]} else {}
  }

  lemma ExitSafe(s: State, r: Round, setup: Setup, trusted: set<Content>)
    requires Safe(s.files, trusted) && Binary in s.files
    requires AcceptsStaged(s.files, r, setup) ==> s.files[Staged] in trusted
    ensures SafeThroughout(s.files, ExitOps(s, r, setup), trusted)
  {
    hide SwapOps, RollbackOps, RemoveStagedOps, SafeThroughout;
    NothingSafe(s.files, trusted);
    RemoveStagedSafe(s.files, r.ok, trusted);
    if AcceptsStaged(s.files, r, setup) {
      SwapSafe(s.files, r.ok, trusted);
      SafeAtEnd(s.files, SwapOps(r.ok), trusted);
      StagedOpSafe(DoAll(s.files, SwapOps(r.ok)), Remove(Digest, r.ok(3)), trusted);
      SafeConcat(s.files, SwapOps(r.ok), [Remove(Digest, r.ok(3))], trusted);
    } else if Previous in s.files {
      RollbackSafe(s.files, r.ok, trusted);
    }
  }

  lemma RoundSafe(s: State, r: Round, setup: Setup, trusted: set<Content>)
    requires Safe(s.files, trusted) && Legal(r)
    ensures SafeThroughout(s.files, Ops(s, r, setup), trusted + Approved(s, r, setup))
    ensures Next(s, r, setup).files == DoAll(s.files, Ops(s, r, setup))
  {
    hide RollbackOps, SafeThroughout, ExitOps;
    var all := trusted + Approved(s, r, setup);
    NothingSafe(s.files, all);
    if ChildRuns(s, r) {
      var gone := ChildGone(s, r);
      DoAllSnoc(s.files, [], Stage(r.staged));
      DoAllConcat(s.files, [Stage(r.staged)], ExitOps(gone, r, setup));
      StagedOpSafe(s.files, Stage(r.staged), all);
      ExitSafe(gone, r, setup, all);
      SafeConcat(s.files, [Stage(r.staged)], ExitOps(gone, r, setup), all);
    } else if Previous in s.files {
      RollbackSafe(s.files, r.ok, all);
    }
  }

  lemma NothingSafe(fs: Files, trusted: set<Content>)
    ensures Safe(fs, trusted) ==> SafeThroughout(fs, [], trusted)
  {
  }

  lemma SafeAtEnd(fs: Files, ops: seq<Op>, trusted: set<Content>)
    requires SafeThroughout(fs, ops, trusted)
    ensures Safe(DoAll(fs, ops), trusted)
  {
    assert ops[..|ops|] == ops;
  }

  // ---- whole runs ----

  function RunRounds(s: State, rounds: seq<Round>, setup: Setup): State {
    if rounds == [] then s
    else Next(RunRounds(s, rounds[..|rounds| - 1], setup), rounds[|rounds| - 1], setup)
  }

  /** The contents at launch, and those approved in the rounds so far. */
  function Trusted(s: State, rounds: seq<Round>, setup: Setup): set<Content> {
    if rounds == [] then (set n | n in {Binary, Previous} && n in s.files :: s.files[n])
    else
      var before := rounds[..|rounds| - 1];
      Trusted(s, before, setup) + Approved(RunRounds(s, before, setup), rounds[|rounds| - 1], setup)
  }

  /**
   * Over every run of rounds, whichever file operations fail: after each single operation of the next
   * round a binary or a previous one exists, and what is installed was there at launch or passed both
   * verification and pre-flight.
   */
  lemma {:induction false} RunSafe(s: State, rounds: seq<Round>, setup: Setup)
    requires Recoverable(s.files) && forall i :: 0 <= i < |rounds| ==> Legal(rounds[i])
    ensures Safe(RunRounds(s, rounds, setup).files, Trusted(s, rounds, setup))
    ensures rounds != [] ==>
              var before := RunRounds(s, rounds[..|rounds| - 1], setup);
              SafeThroughout(before.files, Ops(before, rounds[|rounds| - 1], setup), Trusted(s, rounds, setup))
  {
    if rounds != [] {
      hide Ops, Next, SafeThroughout, Safe, Approved, DoAll;
      var n := |rounds| - 1;
      RunSafe(s, rounds[..n], setup);
      var before := RunRounds(s, rounds[..n], setup);
      RoundSafe(before, rounds[n], setup, Trusted(s, rounds[..n], setup));
      SafeAtEnd(before.files, Ops(before, rounds[n], setup), Trusted(s, rounds, setup));
    }
  }

  /** When every operation succeeds, rolling back a swap restores the old binary and keeps the new one aside. */
  lemma RollbackUndoesSwap(fs: Files)
    requires Binary in fs && Staged in fs
    ensures var yes := (i: nat) => true;
            var swapped := DoAll(fs, SwapOps(yes));
            var back := DoAll(swapped, RollbackOps(yes));
            && Binary in swapped && Previous in swapped && Staged !in swapped
            && swapped[Binary] == fs[Staged] && swapped[Previous] == fs[Binary]
            && Binary in back && Broken in back && Previous !in back
            && back[Binary] == fs[Binary] && back[Broken] == fs[Staged]
  {
    var yes := (i: nat) => true;
    Three(fs, SwapOps(yes));
    Three(DoAll(fs, SwapOps(yes)), RollbackOps(yes));
  }

  /**
   * A failed install heals: if swap could not move the staged binary in after moving the old one away,
   * crashLimit failing starts later the rollback brings the old binary back.
   */
  lemma FailedSwapHeals(fs: Files, ok: nat -> bool, r: Round, setup: Setup, startFails: int, crashes: int)
    requires Binary in fs && Staged in fs && ok(0) && ok(1) && !ok(2)
    requires startFails + 1 >= setup.crashLimit && forall i :: r.ok(i)
    ensures var broken := State(DoAll(fs, SwapOps(ok)), crashes, startFails, false);
            && Binary !in broken.files && !ChildRuns(broken, r)
            && Binary in Next(broken, r, setup).files && Next(broken, r, setup).files[Binary] == fs[Binary]
  {
    Three(fs, SwapOps(ok));
    Three(DoAll(fs, SwapOps(ok)), RollbackOps(r.ok));
  }
}

/** What the supervisor gets done: updates are installed, bad ones refused, failing binaries rolled back. */
module Updates {
  import opened Supervisor

  /** The files when the child has exited. */
  function Left(s: State, r: Round): Files {
    s.files + r.staged
  }

  /** The child ran, wrote only what it staged, and asked for a restart. */
  predicate AsksForRestart(s: State, r: Round) {
    r.starts && Binary in s.files && r.staged.Keys <= {Staged, Digest} && r.code == 42
  }

  /** The staged binary is readable, matches its digest, and passes its pre-flight. */
  predicate StagedIsGood(s: State, r: Round, hash: Content -> Content) {
    && r.readable && r.healthy && Staged in Left(s, r) && Digest in Left(s, r)
    && Left(s, r)[Digest] == hash(Left(s, r)[Staged])
  }

  ghost predicate AllSucceed(r: Round) {
    forall i: nat :: r.ok(i)
  }

  lemma SwapDone(fs: Files, ok: nat -> bool)
    requires Binary in fs && Staged in fs && ok(0) && ok(1) && ok(2)
    ensures DoAll(fs, SwapOps(ok)) == fs[Previous := fs[Binary]][Binary := fs[Staged]] - {Staged}
  {
    Three(fs, SwapOps(ok));
  }

  lemma RollbackDone(fs: Files, ok: nat -> bool)
    requires Previous in fs && ok(0) && ok(1) && ok(2)
    ensures var back := DoAll(fs, RollbackOps(ok));
            && Binary in back && back[Binary] == fs[Previous] && Previous !in back
            && (Binary in fs ==> Broken in back && back[Broken] == fs[Binary])
            && (Staged in back <==> Staged in fs) && (Staged in fs ==> back[Staged] == fs[Staged])
  {
    Three(fs, RollbackOps(ok));
  }

  /**
   * An update that verifies and passes its pre-flight is installed: if every operation succeeds the round ends
   * with the staged content as the binary, the old binary as .previous, nothing staged, and a clean record.
   */
  lemma GoodUpdateInstalled(s: State, r: Round, setup: Setup)
    requires AsksForRestart(s, r) && StagedIsGood(s, r, setup.hash) && AllSucceed(r)
    ensures var t := Next(s, r, setup);
            && t.files == Left(s, r)[Previous := s.files[Binary]][Binary := Left(s, r)[Staged]] - {Staged, Digest}
            && t.crashes == 0 && t.startFails == 0 && !t.refused
  {
    var fs := Left(s, r);
    assert fs[Binary] == s.files[Binary];
    SwapDone(fs, r.ok);
    DoAllSnoc(fs, SwapOps(r.ok), Remove(Digest, r.ok(3)));
    hide SwapOps, DoAll;
    assert Next(s, r, setup).files == Do(DoAll(fs, SwapOps(r.ok)), Remove(Digest, r.ok(3)));
  }

  lemma RemovedStaged(fs: Files, ok: nat -> bool)
    ensures DoAll(fs, RemoveStagedOps(ok)) == fs - (if ok(0) then {Staged} else {}) - (if ok(1) then {Digest} else {})
  {
    var one, two := Remove(Staged, ok(0)), Remove(Digest, ok(1));
    assert RemoveStagedOps(ok) == [one] + [two];
    DoAllSnoc(fs, [one], two);
    DoAllSnoc(fs, [], one);
  }

  /**
   * Any other update is refused: everything but the staged files stays as it was, those go as far as removing
   * succeeds, the next child is told, and the crash count stays.
   */
  lemma BadUpdateRefused(s: State, r: Round, setup: Setup)
    requires AsksForRestart(s, r) && !StagedIsGood(s, r, setup.hash)
    ensures var t := Next(s, r, setup);
            && t.files == Left(s, r) - (if r.ok(0) then {Staged} else {}) - (if r.ok(1) then {Digest} else {})
            && (forall n :: n in {Binary, Previous, Broken} ==>
                  (n in t.files <==> n in s.files) && (n in s.files ==> t.files[n] == s.files[n]))
            && t.refused && t.crashes == s.crashes && t.startFails == 0
  {
    RemovedStaged(Left(s, r), r.ok);
    hide RemoveStagedOps, DoAll;
  }

  /** The binary, .previous and .broken are the same. */
  predicate SameInstalled(a: Files, b: Files) {
    forall n :: n in {Binary, Previous, Broken} ==> (n in a <==> n in b) && (n in a ==> b[n] == a[n])
  }

  // ---- crash loops ----

  /** The child ran and ended neither cleanly nor by request, nor because the port was taken. */
  predicate Crashes(r: Round) {
    r.starts && r.staged.Keys <= {Staged, Digest} && r.code !in {-1, 0, 3, 42}
  }

  lemma CrashCounted(s: State, r: Round, setup: Setup)
    requires Crashes(r) && Binary in s.files
    requires s.crashes + 1 < setup.crashLimit || Previous !in s.files
    ensures var t := Next(s, r, setup);
            t.crashes == s.crashes + 1 && SameInstalled(s.files, t.files) && t.startFails == 0 && !t.refused
  {
    NoOps(Left(s, r));
    hide DoAll, RollbackOps, SwapOps, RemoveStagedOps;
  }

  lemma LastCrashRollsBack(s: State, r: Round, setup: Setup)
    requires Crashes(r) && Binary in s.files && Previous in s.files && s.crashes + 1 >= setup.crashLimit && AllSucceed(r)
    ensures var t := Next(s, r, setup);
            && Binary in t.files && t.files[Binary] == s.files[Previous] && Previous !in t.files
            && Broken in t.files && t.files[Broken] == s.files[Binary] && t.crashes == 0
  {
    RollbackDone(Left(s, r), r.ok);
    hide DoAll, RollbackOps, SwapOps, RemoveStagedOps;
  }

  lemma RoundsUnfold(s: State, rounds: seq<Round>, setup: Setup)
    requires rounds != []
    ensures var n := |rounds| - 1;
            RunRounds(s, rounds, setup) == Next(RunRounds(s, rounds[..n], setup), rounds[n], setup)
    ensures RunRounds(s, [], setup) == s
  {
    hide Next;
  }

  /** Crashes in a row are counted, and change nothing installed, up to the limit or without a .previous. */
  lemma {:induction false} CrashesCounted(s: State, rounds: seq<Round>, setup: Setup)
    requires Binary in s.files && forall i :: 0 <= i < |rounds| ==> Crashes(rounds[i])
    requires s.crashes + |rounds| < setup.crashLimit || Previous !in s.files
    ensures var t := RunRounds(s, rounds, setup);
            t.crashes == s.crashes + |rounds| && SameInstalled(s.files, t.files)
  {
    if rounds == [] {
      assert RunRounds(s, [], setup) == s;
    } else {
      hide Next, RunRounds, Crashes;
      var n := |rounds| - 1;
      RoundsUnfold(s, rounds, setup);
      CrashesCounted(s, rounds[..n], setup);
      CrashCounted(RunRounds(s, rounds[..n], setup), rounds[n], setup);
    }
  }

  /**
   * After exactly crashLimit crashes in a row, and not before, the previous binary is put back, the crashing one
   * is kept aside, and counting starts anew.
   */
  lemma {:induction false} CrashLoopRollsBack(s: State, rounds: seq<Round>, setup: Setup)
    requires Binary in s.files && Previous in s.files && s.crashes == 0 && setup.crashLimit > 0
    requires |rounds| == setup.crashLimit && forall i :: 0 <= i < |rounds| ==> Crashes(rounds[i])
    requires AllSucceed(rounds[|rounds| - 1])
    ensures forall k :: 0 <= k < |rounds| ==> SameInstalled(s.files, RunRounds(s, rounds[..k], setup).files)
    ensures var t := RunRounds(s, rounds, setup);
            && Binary in t.files && t.files[Binary] == s.files[Previous] && Previous !in t.files
            && Broken in t.files && t.files[Broken] == s.files[Binary] && t.crashes == 0
  {
    hide Next, RunRounds, Crashes, AllSucceed;
    forall k | 0 <= k < |rounds| ensures SameInstalled(s.files, RunRounds(s, rounds[..k], setup).files) {
      CrashesCounted(s, rounds[..k], setup);
    }
    var n := |rounds| - 1;
    CrashesCounted(s, rounds[..n], setup);
    RoundsUnfold(s, rounds, setup);
    LastCrashRollsBack(RunRounds(s, rounds[..n], setup), rounds[n], setup);
  }

  /** A clean exit forgives all crashes and changes nothing installed. */
  lemma CleanExitForgives(s: State, r: Round, setup: Setup)
    requires r.starts && Binary in s.files && r.staged.Keys <= {Staged, Digest} && r.code == 0
    ensures var t := Next(s, r, setup); t.crashes == 0 && SameInstalled(s.files, t.files) && !t.refused
  {
    NoOps(Left(s, r));
    hide DoAll, RollbackOps, SwapOps, RemoveStagedOps;
  }

  // ---- failing starts ----

  lemma FailedStartCounted(s: State, r: Round, setup: Setup)
    requires !r.starts && (s.startFails + 1 < setup.crashLimit || Previous !in s.files)
    ensures var t := Next(s, r, setup);
            t.startFails == s.startFails + 1 && t.files == s.files && t.crashes == s.crashes
  {
    NoOps(s.files);
    hide DoAll, RollbackOps, SwapOps, RemoveStagedOps;
  }

  lemma LastFailedStartRollsBack(s: State, r: Round, setup: Setup)
    requires !r.starts && Previous in s.files && s.startFails + 1 >= setup.crashLimit && AllSucceed(r)
    ensures var t := Next(s, r, setup);
            && Binary in t.files && t.files[Binary] == s.files[Previous] && Previous !in t.files && t.startFails == 0
  {
    RollbackDone(s.files, r.ok);
    hide DoAll, RollbackOps, SwapOps, RemoveStagedOps;
  }

  lemma {:induction false} FailedStartsCounted(s: State, rounds: seq<Round>, setup: Setup)
    requires forall i :: 0 <= i < |rounds| ==> !rounds[i].starts
    requires s.startFails + |rounds| < setup.crashLimit || Previous !in s.files
    ensures var t := RunRounds(s, rounds, setup);
            t.startFails == s.startFails + |rounds| && t.files == s.files && t.crashes == s.crashes
  {
    if rounds == [] {
      assert RunRounds(s, [], setup) == s;
    } else {
      hide Next, RunRounds;
      var n := |rounds| - 1;
      RoundsUnfold(s, rounds, setup);
      FailedStartsCounted(s, rounds[..n], setup);
      FailedStartCounted(RunRounds(s, rounds[..n], setup), rounds[n], setup);
    }
  }

  /** After exactly crashLimit failing starts in a row, and not before, the previous binary is put back. */
  lemma {:induction false} FailingStartsRollBack(s: State, rounds: seq<Round>, setup: Setup)
    requires Previous in s.files && s.startFails == 0 && setup.crashLimit > 0
    requires |rounds| == setup.crashLimit && forall i :: 0 <= i < |rounds| ==> !rounds[i].starts
    requires AllSucceed(rounds[|rounds| - 1])
    ensures forall k :: 0 <= k < |rounds| ==> RunRounds(s, rounds[..k], setup).files == s.files
    ensures var t := RunRounds(s, rounds, setup);
            && Binary in t.files && t.files[Binary] == s.files[Previous] && Previous !in t.files && t.startFails == 0
  {
    hide Next, RunRounds, AllSucceed;
    forall k | 0 <= k < |rounds| ensures RunRounds(s, rounds[..k], setup).files == s.files {
      FailedStartsCounted(s, rounds[..k], setup);
    }
    var n := |rounds| - 1;
    FailedStartsCounted(s, rounds[..n], setup);
    RoundsUnfold(s, rounds, setup);
    LastFailedStartRollsBack(RunRounds(s, rounds[..n], setup), rounds[n], setup);
  }

  // ---- the end ----

  /** The supervisor exits exactly after a child that ran and ended with 3 or -1, and leaves all installed files. */
  lemma StopsLeaveFiles(s: State, r: Round, setup: Setup)
    requires r.staged.Keys <= {Staged, Digest}
    ensures Stops(s, r) <==> r.starts && Binary in s.files && (r.code == 3 || r.code == -1)
    ensures Stops(s, r) ==> Next(s, r, setup).files == Left(s, r) && SameInstalled(s.files, Left(s, r))
  {
    NoOps(Left(s, r));
    hide DoAll, RollbackOps, SwapOps, RemoveStagedOps;
  }
}

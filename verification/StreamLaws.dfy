/** Laws of the stream parser over whole byte streams: chunking, leftovers, reachable states. */
module StreamLaws {
  import opened Bytes
  import opened Stream

  // ---- chunking independence ----

  /** What a sequence of Parse calls does: the final state and all callbacks in order. */
  function RunChunks(s: State, chunks: seq<seq<byte>>): Outcome {
    if chunks == [] then Outcome(s, [])
    else
      var before := RunChunks(s, chunks[..|chunks| - 1]);
      var last := Run(before.state, chunks[|chunks| - 1]);
      Outcome(last.state, before.events + last.events)
  }

  lemma RunNil(s: State)
    ensures Run(s, []) == Outcome(s, [])
    ensures CleanLength(s, []) == 0
  {
  }

  lemma RunSnoc(s: State, buf: seq<byte>, b: byte)
    ensures var r := Run(s, buf);
            var t := Step(r.state, b);
            Run(s, buf + [b]) == Outcome(t.state, r.events + t.events)
  {
    assert (buf + [b])[..|buf|] == buf;
  }

  lemma {:induction false} RunConcat(s: State, a: seq<byte>, b: seq<byte>)
    ensures var r := Run(s, a);
            var t := Run(r.state, b);
            Run(s, a + b) == Outcome(t.state, r.events + t.events)
  {
    hide Step;
    if b == [] {
      assert a + b == a;
    } else {
      var n := |b| - 1;
      assert (a + b)[..|a + b| - 1] == a + b[..n];
      RunConcat(s, a, b[..n]);
    }
  }

  /** However a stream is cut into Parse calls, the callbacks and the final state are those of a single call. */
  lemma {:induction false} ChunkingIndependence(s: State, chunks: seq<seq<byte>>)
    ensures RunChunks(s, chunks) == Run(s, Flatten(chunks))
  {
    if chunks != [] {
      var n := |chunks| - 1;
      ChunkingIndependence(s, chunks[..n]);
      RunConcat(s, Flatten(chunks[..n]), chunks[n]);
    }
  }

  /**
   * The clean length of a stream does not depend on where a call boundary falls: it is found in the
   * second call if that call reaches ground at all, and otherwise in the first.
   */
  lemma {:induction false} CleanLengthConcat(s: State, a: seq<byte>, b: seq<byte>)
    ensures var second := CleanLength(Run(s, a).state, b);
            CleanLength(s, a + b) == if second > 0 then |a| + second else CleanLength(s, a)
  {
    hide Run;
    RunConcat(s, a, b);
    if b == [] {
      RunNil(Run(s, a).state);
      assert a + b == a;
    } else if !GroundAfter(s, a + b) {
      var n := |b| - 1;
      assert (a + b)[..|a + b| - 1] == a + b[..n];
      CleanLengthConcat(s, a, b[..n]);
    }
  }

  // ---- what is left over in ground state has no influence ----

  /** a and b differ only in fields that the automaton overwrites before it reads them. */
  predicate SameFuture(a: State, b: State) {
    && a.vt == b.vt
    && (a.vt == CsiParam ==> a.param == b.param)
    && (a.vt in {OscSep, OscText, OscEsc} ==> a.oscType == b.oscType)
    && (a.vt in {OscText, OscEsc} ==> a.oscText == b.oscText)
  }

  lemma SameFutureStep(a: State, b: State, x: byte)
    requires SameFuture(a, b)
    ensures SameFuture(Step(a, x).state, Step(b, x).state)
    ensures Step(a, x).events == Step(b, x).events
  {
  }

  lemma {:induction false} SameFutureRun(a: State, b: State, buf: seq<byte>)
    requires SameFuture(a, b)
    ensures SameFuture(Run(a, buf).state, Run(b, buf).state)
    ensures Run(a, buf).events == Run(b, buf).events
  {
    hide Step, SameFuture;
    if buf != [] {
      var before := buf[..|buf| - 1];
      SameFutureRun(a, b, before);
      SameFutureStep(Run(a, before).state, Run(b, before).state, buf[|buf| - 1]);
    }
  }

  /** From any ground state, whatever it has left in its buffers, the parser behaves like a fresh one. */
  lemma GroundActsFresh(s: State, buf: seq<byte>)
    requires s.vt == Ground
    ensures Run(s, buf).events == Run(Fresh, buf).events
    ensures Run(s, buf).state.vt == Run(Fresh, buf).state.vt
  {
    SameFutureRun(s, Fresh, buf);
  }

  /** Hence clean lengths agree as well. */
  lemma {:induction false} GroundCleanLength(s: State, buf: seq<byte>)
    requires s.vt == Ground
    ensures CleanLength(s, buf) == CleanLength(Fresh, buf)
  {
    forall k | 0 <= k <= |buf| ensures GroundAfter(s, buf[..k]) == GroundAfter(Fresh, buf[..k]) {
      GroundActsFresh(s, buf[..k]);
    }
    CleanLengthUnique(Fresh, buf, CleanLength(s, buf));
  }

  /** Without an escape byte, nothing happens in ground. */
  lemma {:induction false} PlainRun(s: State, data: seq<byte>)
    requires s.vt == Ground && ESC !in data
    ensures Run(s, data) == Outcome(s, [])
  {
    if data != [] {
      PlainRun(s, data[..|data| - 1]);
    }
  }

  // ---- reachable states ----

  predicate IsDigits(m: seq<byte>) {
    forall i :: 0 <= i < |m| ==> ZERO <= m[i] <= NINE
  }

  /** What every state reached from a fresh parser satisfies. */
  predicate Reachable(s: State) {
    && |s.param| <= MAX_PARAM
    && (forall i :: 0 <= i < |s.param| ==> IsParamByte(s.param[i]))
    && |s.oscText| <= MAX_TITLE
    && (s.vt in {OscSep, OscText, OscEsc} ==> IsTitleType(s.oscType))
  }

  /** What every callback of a parser satisfies. */
  predicate WellFormedEvent(e: Event) {
    match e
    case Mode(m, _) => m != [] && IsDigits(m) && |m| <= MAX_PARAM
    case Title(t) => |t| <= MAX_TITLE
  }

  lemma {:induction false} CutFields(p: seq<byte>)
    requires forall i :: 0 <= i < |p| ==> IsParamByte(p[i])
    ensures forall i :: 0 <= i < |Cut(p).0| ==> var f := Cut(p).0[i]; f != [] && IsDigits(f) && |f| <= |p|
    ensures IsDigits(Cut(p).1) && |Cut(p).1| <= |p|
  {
    if p != [] {
      CutFields(p[..|p| - 1]);
    }
  }

  lemma StepReachable(s: State, b: byte)
    requires Reachable(s)
    ensures Reachable(Step(s, b).state)
    ensures forall e :: e in Step(s, b).events ==> WellFormedEvent(e)
  {
    if s.vt == CsiParam {
      CutFields(s.param);
      forall e | e in Step(s, b).events ensures WellFormedEvent(e) {
        var fields := Fields(s.param);
        var i :| 0 <= i < |fields| && e == Mode(fields[i], b == LOWER_H);
        assert fields[i] == if i < |Cut(s.param).0| then Cut(s.param).0[i] else Cut(s.param).1;
      }
    }
  }

  lemma {:induction false} RunReachable(s: State, buf: seq<byte>)
    requires Reachable(s)
    ensures Reachable(Run(s, buf).state)
    ensures forall e :: e in Run(s, buf).events ==> WellFormedEvent(e)
  {
    if buf != [] {
      RunReachable(s, buf[..|buf| - 1]);
      StepReachable(Run(s, buf[..|buf| - 1]).state, buf[|buf| - 1]);
    }
  }

  /**
   * The guard on oscType never suppresses a title: whatever was parsed before, a terminator read inside
   * an OSC string reports exactly the text collected so far.
   */
  lemma TitleGuardNeverSuppresses(history: seq<byte>, terminator: byte)
    requires var vt := Run(Fresh, history).state.vt;
             (vt == OscText && terminator == BEL) || (vt == OscEsc && terminator == BSLASH)
    ensures Run(Fresh, history + [terminator]).events
         == Run(Fresh, history).events + [Title(Run(Fresh, history).state.oscText)]
    ensures GroundAfter(Fresh, history + [terminator])
  {
    RunReachable(Fresh, history);
    assert (history + [terminator])[..|history|] == history;
  }
}

/**
 * The escape sequences the server synthesises to restore a late client (internal/wshandler), fed back
 * through the parser: for which titles and mode lists they are understood exactly.
 */
module Restore {
  import opened Bytes
  import opened Stream
  import opened StreamLaws

  // ---- titles ----

  const TITLE_PREFIX: seq<byte> := [ESC, OSC, ZERO, SEMICOLON]

  function RestoreTitle(t: seq<byte>): seq<byte> {
    TITLE_PREFIX + t + [BEL]
  }

  predicate EndsInEsc(t: seq<byte>) {
    t != [] && t[|t| - 1] == ESC
  }

  /** No byte of t ends the OSC string early or is dropped by the parser's text cap. */
  predicate Keeps(t: seq<byte>) {
    && |t| <= MAX_TITLE + (if EndsInEsc(t) then 1 else 0)
    && forall i :: 0 <= i < |t| ==> KeepsAt(t, i)
  }

  predicate KeepsAt(t: seq<byte>, i: nat)
    requires i < |t|
  {
    if i > 0 && t[i - 1] == ESC then t[i] != BSLASH && (t[i] == ESC || i <= MAX_TITLE - 2)
    else t[i] != BEL
  }

  predicate Restorable(t: seq<byte>) {
    Keeps(t) && !EndsInEsc(t)
  }

  const InTitle := State(OscText, [], ZERO, [])

  /** What t followed by b must satisfy for b to be collected as well, given that all of t was. */
  predicate Extends(t: seq<byte>, b: byte) {
    && |t| < MAX_TITLE + (if b == ESC then 1 else 0)
    && if EndsInEsc(t) then b != BSLASH && (b == ESC || |t| <= MAX_TITLE - 2) else b != BEL
  }

  lemma KeepsSnoc(t: seq<byte>, b: byte)
    ensures Keeps(t + [b]) <==> Keeps(t) && Extends(t, b)
  {
    var u := t + [b];
    assert forall i | 0 <= i < |t| :: KeepsAt(u, i) == KeepsAt(t, i);
    assert KeepsAt(u, |t|) <==> if EndsInEsc(t) then b != BSLASH && (b == ESC || |t| <= MAX_TITLE - 2) else b != BEL;
  }

  /**
   * The result of running the bytes of t inside an OSC string: either no title was reported yet, and all
   * of t was collected exactly when t Keeps; or some title shorter than t was reported already.
   */
  predicate Collected(t: seq<byte>, r: Outcome) {
    if r.events == [] then
      var pending := if EndsInEsc(t) then 1 else 0;
      && r.state.vt == (if EndsInEsc(t) then OscEsc else OscText)
      && r.state.oscType == ZERO
      && |r.state.oscText| + pending <= |t|
      && (|r.state.oscText| + pending == |t| <==> Keeps(t))
      && (Keeps(t) ==> r.state.oscText == t[..|t| - pending])
    else !Keeps(t) && r.events[0].Title? && |r.events[0].text| < |t|
  }

  lemma CollectedNil()
    ensures Collected([], Outcome(InTitle, []))
  {
  }

  lemma CollectStep(t: seq<byte>, r: Outcome, b: byte)
    requires Collected(t, r)
    ensures var last := Step(r.state, b);
            Collected(t + [b], Outcome(last.state, r.events + last.events))
  {
    KeepsSnoc(t, b);
    assert (t + [b])[..|t|] == t;
    if EndsInEsc(t) {
      assert t == t[..|t| - 1] + [ESC];
    }
  }

  lemma {:induction false} CollectTitle(t: seq<byte>)
    ensures Collected(t, Run(InTitle, t))
  {
    hide Step, Collected;
    if t == [] {
      assert Collected(t, Outcome(InTitle, [])) by { CollectedNil(); }
    } else {
      var n := |t| - 1;
      CollectTitle(t[..n]);
      CollectStep(t[..n], Run(InTitle, t[..n]), t[n]);
      assert t == t[..n] + [t[n]];
    }
  }

  lemma AfterTitlePrefix(rest: seq<byte>)
    ensures Run(Fresh, TITLE_PREFIX + rest) == Run(InTitle, rest)
  {
    hide Run;
    RunNil(Fresh);
    RunSnoc(Fresh, [], ESC);
    RunSnoc(Fresh, [ESC], OSC);
    RunSnoc(Fresh, [ESC, OSC], ZERO);
    RunSnoc(Fresh, [ESC, OSC, ZERO], SEMICOLON);
    assert [] + [ESC] == [ESC] && [ESC] + [OSC] == [ESC, OSC] && [ESC, OSC] + [ZERO] == [ESC, OSC, ZERO]
        && [ESC, OSC, ZERO] + [SEMICOLON] == TITLE_PREFIX;
    RunConcat(Fresh, TITLE_PREFIX, rest);
  }

  lemma EndCollected(t: seq<byte>, r: Outcome)
    requires Collected(t, r)
    ensures var last := Step(r.state, BEL);
            (r.events + last.events == [Title(t)] && last.state.vt == Ground) <==> Restorable(t)
  {
    if r.events != [] {
      assert (r.events + Step(r.state, BEL).events)[0] == r.events[0];
    } else {
      var last := Step(r.state, BEL);
      assert [] + last.events == last.events;
      if !EndsInEsc(t) {
        assert t[..|t|] == t;
        assert last.events == [Title(r.state.oscText)];
        assert last.events == [Title(t)] ==> last.events[0] == Title(t);
      }
    }
  }

  /** The restore sequence yields exactly the title t, and ends in ground, if and only if t is Restorable. */
  lemma TitleRoundTrip(t: seq<byte>)
    ensures (Run(Fresh, RestoreTitle(t)).events == [Title(t)] && GroundAfter(Fresh, RestoreTitle(t)))
       <==> Restorable(t)
  {
    hide Run, Step, Collected;
    assert RestoreTitle(t) == TITLE_PREFIX + (t + [BEL]);
    AfterTitlePrefix(t + [BEL]);
    CollectTitle(t);
    RunSnoc(InTitle, t, BEL);
    EndCollected(t, Run(InTitle, t));
  }

  /** In particular every title of at most MAX_TITLE bytes without ESC and BEL round-trips. */
  lemma PlainTitleRoundTrip(t: seq<byte>)
    requires |t| <= MAX_TITLE && ESC !in t && BEL !in t
    ensures Run(Fresh, RestoreTitle(t)).events == [Title(t)] && GroundAfter(Fresh, RestoreTitle(t))
  {
    TitleRoundTrip(t);
    assert Restorable(t);
  }

  /**
   * A title the parser itself reports need not be restorable: ESC ] 0 ; ESC ESC \ reports the one-byte
   * title ESC, whose restore sequence is still inside the OSC string at its end and reports nothing.
   */
  lemma ReportedTitleNotRestorable()
    ensures var live: seq<byte> := TITLE_PREFIX + [ESC, ESC, BSLASH];
            Run(Fresh, live).events == [Title([ESC])] && GroundAfter(Fresh, live)
    ensures Run(Fresh, RestoreTitle([ESC])).events == [] && !GroundAfter(Fresh, RestoreTitle([ESC]))
  {
    EscEscReported();
    EscBelPending();
    hide *;
    AfterTitlePrefix([ESC, ESC, BSLASH]);
    AfterTitlePrefix([ESC, BEL]);
    RestoreTitleIs([ESC], [ESC, BEL]);
  }

  lemma RestoreTitleIs(t: seq<byte>, rest: seq<byte>)
    requires rest == t + [BEL]
    ensures RestoreTitle(t) == TITLE_PREFIX + rest
  {
  }

  lemma EscEscReported()
    ensures Run(InTitle, [ESC, ESC, BSLASH]).events == [Title([ESC])] && GroundAfter(InTitle, [ESC, ESC, BSLASH])
    ensures forall rest :: Run(Fresh, TITLE_PREFIX + rest) == Run(InTitle, rest) ==>
              (GroundAfter(Fresh, TITLE_PREFIX + rest) <==> GroundAfter(InTitle, rest))
  {
    EscSteps();
    hide Run, Step;
    RunNil(InTitle);
    RunSnoc(InTitle, [], ESC);
    assert [] + [ESC] == [ESC];
    RunSnoc(InTitle, [ESC], ESC);
    assert [ESC] + [ESC] == [ESC, ESC];
    RunSnoc(InTitle, [ESC, ESC], BSLASH);
    assert [ESC, ESC] + [BSLASH] == [ESC, ESC, BSLASH];
  }

  lemma EscBelPending()
    ensures Run(InTitle, [ESC, BEL]).events == [] && !GroundAfter(InTitle, [ESC, BEL])
  {
    EscSteps();
    hide Run, Step;
    RunNil(InTitle);
    RunSnoc(InTitle, [], ESC);
    assert [] + [ESC] == [ESC];
    RunSnoc(InTitle, [ESC], BEL);
    assert [ESC] + [BEL] == [ESC, BEL];
  }

  lemma EscSteps()
    ensures Step(InTitle, ESC) == Outcome(State(OscEsc, [], ZERO, []), [])
    ensures Step(State(OscEsc, [], ZERO, []), ESC) == Outcome(State(OscEsc, [], ZERO, [ESC]), [])
    ensures var end := Step(State(OscEsc, [], ZERO, [ESC]), BSLASH);
            end.state.vt == Ground && end.events == [Title([ESC])]
    ensures var open := Step(State(OscEsc, [], ZERO, []), BEL);
            open.state.vt == OscText && open.events == []
  {
    assert [] + [ESC] == [ESC];
  }

  // ---- titles set by a client ----

  type rune = r: int | 0 <= r < 0x11_0000

  /** UTF-8 (section 3 of RFC 3629). */
  function Utf8(r: rune): seq<byte> {
    if r < 0x80 then [r]
    else if r < 0x800 then [0xC0 + r / 0x40, 0x80 + r % 0x40]
    else if r < 0x1_0000 then [0xE0 + r / 0x1000, 0x80 + r / 0x40 % 0x40, 0x80 + r % 0x40]
    else [0xF0 + r / 0x4_0000, 0x80 + r / 0x1000 % 0x40, 0x80 + r / 0x40 % 0x40, 0x80 + r % 0x40]
  }

  predicate IsControl(r: rune) {
    r < 0x20 || 0x7f <= r <= 0x9f
  }

  function Encode(title: seq<rune>): seq<byte> {
    if title == [] then [] else Encode(title[..|title| - 1]) + Utf8(title[|title| - 1])
  }

  /** sanitizeTitle: drops control characters. The loop ranges over the runes of the title. */
  method SanitizeTitle(title: seq<rune>) returns (b: seq<byte>)
    ensures b == Encode(Printable(title))
    ensures |b| <= MAX_TITLE ==> Run(Fresh, RestoreTitle(b)).events == [Title(b)] && GroundAfter(Fresh, RestoreTitle(b))
  {
    b := [];
    for i := 0 to |title|
      invariant b == Encode(Printable(title[..i]))
      invariant ESC !in b && BEL !in b
    {
      assert title[..i + 1][..i] == title[..i];
      var r := title[i];
      if !(r < 0x20 || (r >= 0x7f && r <= 0x9f)) {
        assert (Printable(title[..i]) + [r])[..|Printable(title[..i])|] == Printable(title[..i]);
        Utf8Printable(r);
        b := b + Utf8(r);
      }
    }
    assert title[..|title|] == title;
    if |b| <= MAX_TITLE {
      PlainTitleRoundTrip(b);
    }
  }

  lemma Utf8Printable(r: rune)
    requires !IsControl(r)
    ensures ESC !in Utf8(r) && BEL !in Utf8(r)
  {
  }

  function Printable(title: seq<rune>): seq<rune> {
    if title == [] then []
    else
      var before := Printable(title[..|title| - 1]);
      if IsControl(title[|title| - 1]) then before else before + [title[|title| - 1]]
  }

  lemma {:induction false} PrintableConcat(a: seq<rune>, b: seq<rune>)
    ensures Printable(a + b) == Printable(a) + Printable(b)
  {
    if b == [] {
      assert a + b == a;
    } else {
      assert (a + b)[..|a + b| - 1] == a + b[..|b| - 1];
      PrintableConcat(a, b[..|b| - 1]);
    }
  }

  /** A title without control characters is kept as it is; every control character is dropped, wherever it stands. */
  lemma {:induction false} OnlyControlsDropped(title: seq<rune>)
    ensures (forall i :: 0 <= i < |title| ==> title[i] >= 0x20 && !(0x7f <= title[i] <= 0x9f)) <==> Printable(title) == title
    ensures forall r: rune, rest: seq<rune> ::
              Printable(title + [r] + rest)
              == Printable(title) + (if r < 0x20 || 0x7f <= r <= 0x9f then [] else [r]) + Printable(rest)
  {
    forall r: rune, rest: seq<rune>
      ensures Printable(title + [r] + rest)
           == Printable(title) + (if r < 0x20 || 0x7f <= r <= 0x9f then [] else [r]) + Printable(rest)
    {
      PrintableConcat(title + [r], rest);
      PrintableConcat(title, [r]);
      assert [r][..0] == [];
    }
    PrintableKeeps(title);
  }

  lemma {:induction false} PrintableKeeps(title: seq<rune>)
    ensures |Printable(title)| <= |title|
    ensures (forall i :: 0 <= i < |title| ==> title[i] >= 0x20 && !(0x7f <= title[i] <= 0x9f)) <==> Printable(title) == title
  {
    if title != [] {
      var n := |title| - 1;
      PrintableKeeps(title[..n]);
      assert title == title[..n] + [title[n]];
      assert Printable(title) == title ==> |Printable(title)| == |title|;
      assert Printable(title) == title && !IsControl(title[n]) ==> Printable(title)[..n] == title[..n];
    }
  }

  // ---- DEC private modes ----

  const MODES_PREFIX: seq<byte> := [ESC, CSI, QUESTION]

  function Join(fields: seq<seq<byte>>): seq<byte> {
    if |fields| == 0 then []
    else if |fields| == 1 then fields[0]
    else Join(fields[..|fields| - 1]) + [SEMICOLON] + fields[|fields| - 1]
  }

  function RestoreModes(modes: seq<seq<byte>>): seq<byte> {
    MODES_PREFIX + Join(modes) + [LOWER_H]
  }

  predicate AreModes(modes: seq<seq<byte>>) {
    forall i :: 0 <= i < |modes| ==> modes[i] != [] && IsDigits(modes[i])
  }

  lemma {:induction false} CutAppendField(p: seq<byte>, f: seq<byte>)
    requires IsDigits(f)
    ensures Cut(p + f) == (Cut(p).0, Cut(p).1 + f)
  {
    if f == [] {
      assert p + f == p && Cut(p).1 + f == Cut(p).1;
    } else {
      var n := |f| - 1;
      assert (p + f)[..|p + f| - 1] == p + f[..n];
      CutAppendField(p, f[..n]);
      assert f == f[..n] + [f[n]];
      assert Cut(p).1 + f == (Cut(p).1 + f[..n]) + [f[n]];
    }
  }

  lemma {:induction false} JoinIsParam(modes: seq<seq<byte>>)
    requires AreModes(modes)
    ensures forall i :: 0 <= i < |Join(modes)| ==> IsParamByte(Join(modes)[i])
    ensures modes != [] ==> Join(modes) != [] && Join(modes)[|Join(modes)| - 1] != SEMICOLON
  {
    if |modes| > 1 {
      JoinIsParam(modes[..|modes| - 1]);
    }
  }

  lemma CutSeparator(p: seq<byte>)
    ensures Cut(p + [SEMICOLON]) == (Fields(p), [])
  {
    assert (p + [SEMICOLON])[..|p|] == p;
  }

  lemma {:induction false} FieldsOfJoin(modes: seq<seq<byte>>)
    requires AreModes(modes)
    ensures Fields(Join(modes)) == modes
    decreases |modes|, 1
  {
    if modes != [] {
      var n := |modes| - 1;
      CutOfJoin(modes);
      hide Cut;
      assert modes == modes[..n] + [modes[n]];
    }
  }

  lemma {:induction false} CutOfJoin(modes: seq<seq<byte>>)
    requires AreModes(modes) && modes != []
    ensures Cut(Join(modes)) == (modes[..|modes| - 1], modes[|modes| - 1])
    decreases |modes|, 0
  {
    var n := |modes| - 1;
    if n == 0 {
      assert [] + modes[0] == modes[0];
      CutAppendField([], modes[0]);
    } else {
      var before := Join(modes[..n]);
      FieldsOfJoin(modes[..n]);
      hide Cut, Fields;
      CutSeparator(before);
      CutAppendField(before + [SEMICOLON], modes[n]);
      assert [] + modes[n] == modes[n];
    }
  }

  /** How many bytes of p are not separators. */
  function Solid(p: seq<byte>): nat {
    if p == [] then 0 else Solid(p[..|p| - 1]) + if p[|p| - 1] == SEMICOLON then 0 else 1
  }

  function Weight(fields: seq<seq<byte>>): nat {
    if fields == [] then 0 else Weight(fields[..|fields| - 1]) + |fields[|fields| - 1]|
  }

  lemma WeightClosed(done: seq<seq<byte>>, cur: seq<byte>)
    ensures Weight(Closed(done, cur)) == Weight(done) + |cur|
  {
    assert (done + [cur])[..|done|] == done;
  }

  lemma {:induction false} CutWeight(p: seq<byte>)
    ensures Weight(Cut(p).0) + |Cut(p).1| == Solid(p)
  {
    if p != [] {
      CutWeight(p[..|p| - 1]);
      WeightClosed(Cut(p[..|p| - 1]).0, Cut(p[..|p| - 1]).1);
    }
  }

  lemma {:induction false} SolidPrefix(p: seq<byte>, n: nat)
    requires n < |p| && p[|p| - 1] != SEMICOLON
    ensures Solid(p[..n]) < Solid(p)
  {
    SolidMonotone(p[..|p| - 1], n);
    assert p[..|p| - 1][..n] == p[..n];
  }

  lemma {:induction false} SolidMonotone(p: seq<byte>, n: nat)
    requires n <= |p|
    ensures Solid(p[..n]) <= Solid(p)
  {
    if n < |p| {
      SolidMonotone(p[..|p| - 1], n);
      assert p[..|p| - 1][..n] == p[..n];
    } else {
      assert p[..n] == p;
    }
  }

  const InParam := State(CsiParam, [], 0, [])

  lemma {:induction false} CollectParam(p: seq<byte>)
    requires forall i :: 0 <= i < |p| ==> IsParamByte(p[i])
    ensures Run(InParam, p) == Outcome(InParam.(param := p[..if |p| < MAX_PARAM then |p| else MAX_PARAM]), [])
  {
    hide Run;
    if p == [] {
      RunNil(InParam);
    } else {
      var n := |p| - 1;
      CollectParam(p[..n]);
      RunSnoc(InParam, p[..n], p[n]);
      assert p == p[..n] + [p[n]];
    }
  }

  lemma AfterModesPrefix(rest: seq<byte>)
    ensures Run(Fresh, MODES_PREFIX + rest) == Run(InParam, rest)
  {
    hide Run;
    RunNil(Fresh);
    RunSnoc(Fresh, [], ESC);
    RunSnoc(Fresh, [ESC], CSI);
    RunSnoc(Fresh, [ESC, CSI], QUESTION);
    assert [] + [ESC] == [ESC] && [ESC] + [CSI] == [ESC, CSI] && [ESC, CSI] + [QUESTION] == MODES_PREFIX;
    RunConcat(Fresh, MODES_PREFIX, rest);
  }

  /**
   * The restore sequence always ends in ground, and sets exactly the given modes in the given order if
   * and only if the joined list fits the parser's parameter cap.
   */
  lemma ModesRoundTrip(modes: seq<seq<byte>>)
    requires AreModes(modes)
    ensures GroundAfter(Fresh, RestoreModes(modes))
    ensures Run(Fresh, RestoreModes(modes)).events == ModeEvents(modes, true) <==> |Join(modes)| <= MAX_PARAM
  {
    var p := Join(modes);
    JoinIsParam(modes);
    FieldsOfJoin(modes);
    CollectParam(p);
    ParamTaken(p);
    ModesSequence(modes);
    hide *;
    AfterModesPrefix(p + [LOWER_H]);
    RunSnoc(InParam, p, LOWER_H);
    var kept := KeptParam(p);
    EndOfModes(kept);
    if |p| > MAX_PARAM {
      CutLosesWeight(p);
      if ModeEvents(Fields(kept), true) == ModeEvents(modes, true) {
        SameModeEvents(Fields(kept), modes, true);
      }
    }
  }

  function KeptParam(p: seq<byte>): seq<byte> {
    p[..if |p| < MAX_PARAM then |p| else MAX_PARAM]
  }

  lemma ParamTaken(p: seq<byte>)
    ensures |p| <= MAX_PARAM ==> KeptParam(p) == p
    ensures InParam.(param := p[..if |p| < MAX_PARAM then |p| else MAX_PARAM]) == InParam.(param := KeptParam(p))
  {
  }

  lemma ModesSequence(modes: seq<seq<byte>>)
    ensures RestoreModes(modes) == MODES_PREFIX + (Join(modes) + [LOWER_H])
    ensures GroundAfter(Fresh, RestoreModes(modes)) <==> Run(Fresh, RestoreModes(modes)).state.vt == Ground
  {
    hide Join, Run;
  }

  /** The final byte reports the modes kept. */
  lemma EndOfModes(kept: seq<byte>)
    ensures var last := Step(InParam.(param := kept), LOWER_H);
            last.state.vt == Ground && [] + last.events == ModeEvents(Fields(kept), true)
  {
    hide Fields, ModeEvents;
  }

  /** Cutting a list that does not end in a separator changes its fields. */
  lemma CutLosesWeight(p: seq<byte>)
    requires |p| > MAX_PARAM && p[|p| - 1] != SEMICOLON
    ensures Fields(KeptParam(p)) != Fields(p)
  {
    var kept := KeptParam(p);
    SolidPrefix(p, MAX_PARAM);
    CutWeight(p);
    CutWeight(kept);
    hide Cut, Solid, Weight, Closed;
    WeightClosed(Cut(p).0, Cut(p).1);
    WeightClosed(Cut(kept).0, Cut(kept).1);
  }

  lemma SameModeEvents(a: seq<seq<byte>>, b: seq<seq<byte>>, isSet: bool)
    requires ModeEvents(a, isSet) == ModeEvents(b, isSet)
    ensures a == b
  {
    assert |a| == |ModeEvents(a, isSet)| == |b|;
    forall i | 0 <= i < |a| ensures a[i] == b[i] {
      assert ModeEvents(a, isSet)[i] == ModeEvents(b, isSet)[i];
    }
  }
}

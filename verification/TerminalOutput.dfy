/** Well-formed terminal output: what a program says is what the session hears. */
module TerminalOutput {
  import opened Bytes
  import opened Stream
  import opened StreamLaws
  import opened Restore
  import opened Session
  import opened SessionLaws

  // ---- output as the program means it ----

  /** Text, mode changes, titles (ended by BEL or by ESC \), and sequences of no concern to a session. */
  datatype Token =
    | Text(text: seq<byte>)
    | SetModes(modes: seq<seq<byte>>)
    | ResetModes(modes: seq<seq<byte>>)
    | SetTitle(kind: byte, title: seq<byte>, bel: bool)
    | OtherEscape(final: byte)
    | OtherCsi(first: byte)
    | OtherOsc(first: byte)

  predicate IsTitleText(t: seq<byte>) {
    |t| <= 4096 && 0x1b !in t && 0x07 !in t
  }

  predicate IsWellFormed(t: Token) {
    match t
    case Text(text) => 0x1b !in text
    case SetModes(modes) => AreModes(modes) && |Join(modes)| <= 256
    case ResetModes(modes) => AreModes(modes) && |Join(modes)| <= 256
    case SetTitle(kind, title, _) => kind in {0x30, 0x31, 0x32} && IsTitleText(title)
    case OtherEscape(final) => final !in {0x1b, 0x5b, 0x5d}
    case OtherCsi(first) => first !in {0x1b, 0x3f}
    case OtherOsc(first) => first !in {0x1b, 0x30, 0x31, 0x32}
  }

  /** The bytes of a token: ESC [ ? m1;...;mk h, the same with l, ESC ] kind ; title BEL, and so on. */
  function Encoded(t: Token): seq<byte> {
    match t
    case Text(text) => text
    case SetModes(modes) => [0x1b, 0x5b, 0x3f] + Join(modes) + [0x68]
    case ResetModes(modes) => [0x1b, 0x5b, 0x3f] + Join(modes) + [0x6c]
    case SetTitle(kind, title, bel) => [0x1b, 0x5d, kind, 0x3b] + title + (if bel then [0x07] else [0x1b, 0x5c])
    case OtherEscape(final) => [0x1b, final]
    case OtherCsi(first) => [0x1b, 0x5b, first]
    case OtherOsc(first) => [0x1b, 0x5d, first]
  }

  /** What it says to the session. */
  function Says(t: Token): seq<Event> {
    match t
    case SetModes(modes) => seq(|modes|, i requires 0 <= i < |modes| => Mode(modes[i], true))
    case ResetModes(modes) => seq(|modes|, i requires 0 <= i < |modes| => Mode(modes[i], false))
    case SetTitle(_, title, _) => [Title(title)]
    case _ => []
  }

  function EncodedAll(ts: seq<Token>): seq<byte> {
    if ts == [] then [] else EncodedAll(ts[..|ts| - 1]) + Encoded(ts[|ts| - 1])
  }

  function SaysAll(ts: seq<Token>): seq<Event> {
    if ts == [] then [] else SaysAll(ts[..|ts| - 1]) + Says(ts[|ts| - 1])
  }

  // ---- one token ----

  /** From ground, the bytes make exactly these callbacks and lead back to ground. */
  predicate Heard(bytes: seq<byte>, events: seq<Event>) {
    Run(Fresh, bytes).state.vt == Ground && Run(Fresh, bytes).events == events
  }

  lemma ModesHeard(modes: seq<seq<byte>>, isSet: bool)
    requires AreModes(modes) && |Join(modes)| <= MAX_PARAM
    ensures Heard(MODES_PREFIX + (Join(modes) + [if isSet then LOWER_H else LOWER_L]), ModeEvents(modes, isSet))
  {
    var p, final := Join(modes), if isSet then LOWER_H else LOWER_L;
    JoinIsParam(modes);
    FieldsOfJoin(modes);
    CollectParam(p);
    ParamTaken(p);
    FinalByte(p, isSet);
    hide Run, Step, Join, Fields, ModeEvents;
    AfterModesPrefix(p + [final]);
    RunSnoc(InParam, p, final);
  }

  lemma FinalByte(p: seq<byte>, isSet: bool)
    ensures var last := Step(InParam.(param := p), if isSet then LOWER_H else LOWER_L);
            last.state.vt == Ground && [] + last.events == ModeEvents(Fields(p), isSet)
  {
    hide Fields, ModeEvents;
  }

  lemma ModesSaid(modes: seq<seq<byte>>)
    ensures Says(SetModes(modes)) == ModeEvents(modes, true) && Says(ResetModes(modes)) == ModeEvents(modes, false)
    ensures Encoded(SetModes(modes)) == MODES_PREFIX + (Join(modes) + [LOWER_H])
    ensures Encoded(ResetModes(modes)) == MODES_PREFIX + (Join(modes) + [LOWER_L])
  {
    hide Join;
  }

  function InText(kind: byte, text: seq<byte>): State {
    State(OscText, [], kind, text)
  }

  lemma OscPrefix(kind: byte)
    requires IsTitleType(kind)
    ensures Run(Fresh, [ESC, OSC, kind, SEMICOLON]) == Outcome(InText(kind, []), [])
  {
    OscSteps(kind);
    hide *;
    GroundIsFresh();
    Continued([], Fresh, ESC, State(Esc, [], 0, []));
    Continued([ESC], State(Esc, [], 0, []), OSC, State(OscType, [], 0, []));
    Continued([ESC] + [OSC], State(OscType, [], 0, []), kind, State(OscSep, [], kind, []));
    Continued([ESC] + [OSC] + [kind], State(OscSep, [], kind, []), SEMICOLON, InText(kind, []));
    FourBytes(ESC, OSC, kind, SEMICOLON);
  }

  lemma FourBytes(a: byte, b: byte, c: byte, d: byte)
    ensures [a] + [b] + [c] + [d] == [a, b, c, d]
  {
  }

  lemma AfterOsc(kind: byte, rest: seq<byte>)
    requires IsTitleType(kind)
    ensures Run(Fresh, [ESC, OSC, kind, SEMICOLON] + rest) == Run(InText(kind, []), rest)
  {
    hide *;
    OscPrefix(kind);
    RunConcat(Fresh, [ESC, OSC, kind, SEMICOLON], rest);
    assert [] + Run(InText(kind, []), rest).events == Run(InText(kind, []), rest).events;
  }

  lemma OscSteps(kind: byte)
    requires IsTitleType(kind)
    ensures Step(Fresh, ESC) == Outcome(State(Esc, [], 0, []), [])
    ensures Step(State(Esc, [], 0, []), OSC) == Outcome(State(OscType, [], 0, []), [])
    ensures Step(State(OscType, [], 0, []), kind) == Outcome(State(OscSep, [], kind, []), [])
    ensures Step(State(OscSep, [], kind, []), SEMICOLON) == Outcome(InText(kind, []), [])
  {
  }

  lemma {:induction false} TextCollected(kind: byte, text: seq<byte>)
    requires |text| <= MAX_TITLE && ESC !in text && BEL !in text
    ensures Run(InText(kind, []), text) == Outcome(InText(kind, text), [])
  {
    if text == [] {
      RunNil(InText(kind, []));
    } else {
      var n := |text| - 1;
      assert text == text[..n] + [text[n]];
      TextCollected(kind, text[..n]);
      hide Run;
      RunSnoc(InText(kind, []), text[..n], text[n]);
    }
  }

  lemma TitleHeard(kind: byte, text: seq<byte>, bel: bool)
    requires IsTitleType(kind) && |text| <= MAX_TITLE && ESC !in text && BEL !in text
    ensures Heard([ESC, OSC, kind, SEMICOLON] + (text + (if bel then [BEL] else [ESC, BSLASH])), [Title(text)])
  {
    TextCollected(kind, text);
    TitleEnds(kind, text);
    hide Run, Step;
    var s := InText(kind, []);
    AfterOsc(kind, text + (if bel then [BEL] else [ESC, BSLASH]));
    if bel {
      RunSnoc(s, text, BEL);
    } else {
      RunSnoc(s, text, ESC);
      RunSnoc(s, text + [ESC], BSLASH);
      assert text + [ESC] + [BSLASH] == text + [ESC, BSLASH];
    }
  }

  lemma TitleEnds(kind: byte, text: seq<byte>)
    requires IsTitleType(kind)
    ensures var end := Step(InText(kind, text), BEL);
            end.state.vt == Ground && [] + end.events == [Title(text)]
    ensures Step(InText(kind, text), ESC) == Outcome(State(OscEsc, [], kind, text), [])
    ensures var end := Step(State(OscEsc, [], kind, text), BSLASH);
            end.state.vt == Ground && [] + [] + end.events == [Title(text)]
  {
  }

  lemma EscapeSteps(second: byte, b: byte)
    ensures Step(Fresh, ESC) == Outcome(State(Esc, [], 0, []), [])
    ensures second == CSI ==> Step(State(Esc, [], 0, []), second) == Outcome(State(CsiQ, [], 0, []), [])
    ensures second == OSC ==> Step(State(Esc, [], 0, []), second) == Outcome(State(OscType, [], 0, []), [])
    ensures second !in {ESC, CSI, OSC} ==> Step(State(Esc, [], 0, []), second) == Outcome(Fresh, [])
    ensures b !in {ESC, QUESTION} ==> Step(State(CsiQ, [], 0, []), b) == Outcome(Fresh, [])
    ensures b != ESC && !IsTitleType(b) ==> Step(State(OscType, [], 0, []), b) == Outcome(Fresh, [])
  {
  }

  lemma Continued(a: seq<byte>, s: State, b: byte, t: State)
    requires Run(Fresh, a) == Outcome(s, []) && Step(s, b) == Outcome(t, [])
    ensures Run(Fresh, a + [b]) == Outcome(t, [])
  {
    hide Run, Step;
    RunSnoc(Fresh, a, b);
  }

  lemma GroundIsFresh()
    ensures Fresh.vt == Ground && Run(Fresh, []) == Outcome(Fresh, []) && [] + [ESC] == [ESC]
  {
  }

  lemma TwoBytesHeard(b: byte)
    requires b !in {ESC, CSI, OSC}
    ensures Heard([ESC, b], [])
  {
    hide Run, Step;
    GroundIsFresh();
    EscapeSteps(b, b);
    Continued([], Fresh, ESC, State(Esc, [], 0, []));
    Continued([ESC], State(Esc, [], 0, []), b, Fresh);
    assert [ESC] + [b] == [ESC, b];
  }

  lemma ThreeBytesHeard(second: byte, b: byte)
    requires (second == CSI && b !in {ESC, QUESTION}) || (second == OSC && b != ESC && !IsTitleType(b))
    ensures Heard([ESC, second, b], [])
  {
    hide Run, Step;
    GroundIsFresh();
    EscapeSteps(second, b);
    var middle := State(if second == CSI then CsiQ else OscType, [], 0, []);
    Continued([], Fresh, ESC, State(Esc, [], 0, []));
    Continued([ESC], State(Esc, [], 0, []), second, middle);
    Continued([ESC] + [second], middle, b, Fresh);
    assert [ESC] + [second] + [b] == [ESC, second, b];
  }

  /** From ground, a well-formed token is heard exactly as it is meant, and leads back to ground. */
  lemma {:induction false} TokenHeard(t: Token)
    requires IsWellFormed(t)
    ensures Heard(Encoded(t), Says(t))
  {
    match t {
      case Text(text) => PlainRun(Fresh, text);
      case SetModes(modes) =>
        ModesHeard(modes, true);
        ModesSaid(modes);
        hide Heard;
      case ResetModes(modes) =>
        ModesHeard(modes, false);
        ModesSaid(modes);
        hide Heard;
      case SetTitle(kind, title, bel) =>
        TitleHeard(kind, title, bel);
        hide Heard;
        var end: seq<byte> := if bel then [0x07] else [0x1b, 0x5c];
        assert Encoded(t) == [ESC, OSC, kind, SEMICOLON] + (title + end);
      case OtherEscape(final) => TwoBytesHeard(final);
      case OtherCsi(first) => ThreeBytesHeard(CSI, first);
      case OtherOsc(first) => ThreeBytesHeard(OSC, first);
    }
  }

  // ---- whole output ----

  lemma HeardBehind(s: State, bytes: seq<byte>, events: seq<Event>)
    requires s.vt == Ground && Heard(bytes, events)
    ensures Run(s, bytes).state.vt == Ground && Run(s, bytes).events == events
  {
    hide Run;
    GroundActsFresh(s, bytes);
  }

  lemma HeardConcat(a: seq<byte>, x: seq<Event>, b: seq<byte>, y: seq<Event>)
    requires Heard(a, x) && Heard(b, y)
    ensures Heard(a + b, x + y)
  {
    HeardBehind(Run(Fresh, a).state, b, y);
    hide Run;
    RunConcat(Fresh, a, b);
  }

  lemma NothingHeard()
    ensures Heard([], [])
  {
  }

  /** A fresh parser hears well-formed output exactly as it is meant, token by token. */
  lemma {:induction false} OutputHeard(ts: seq<Token>)
    requires forall i :: 0 <= i < |ts| ==> IsWellFormed(ts[i])
    ensures Heard(EncodedAll(ts), SaysAll(ts))
  {
    if ts == [] {
      NothingHeard();
    } else {
      hide Heard, IsWellFormed, Encoded, Says;
      var n := |ts| - 1;
      OutputHeard(ts[..n]);
      TokenHeard(ts[n]);
      HeardConcat(EncodedAll(ts[..n]), SaysAll(ts[..n]), Encoded(ts[n]), Says(ts[n]));
    }
  }

  // ---- at the session ----

  /** Token i sets mode m and no later one resets it. */
  ghost predicate StillOn(ts: seq<Token>, m: seq<byte>, i: nat) {
    && i < |ts| && ts[i].SetModes? && m in ts[i].modes
    && forall j :: i < j < |ts| ==> !(ts[j].ResetModes? && m in ts[j].modes)
  }

  lemma ModeOfToken(v: View, t: Token, m: seq<byte>)
    ensures m in ApplyAll(v, Says(t)).modes <==>
              (t.SetModes? && m in t.modes) || (m in v.modes && !(t.ResetModes? && m in t.modes))
  {
    match t {
      case SetModes(modes) => ModesApplied(v, modes, true, m);
      case ResetModes(modes) => ModesApplied(v, modes, false, m);
      case SetTitle(_, title, _) => ApplyOne(v, Title(title));
      case _ =>
    }
  }

  lemma {:induction false} ModesApplied(v: View, modes: seq<seq<byte>>, isSet: bool, m: seq<byte>)
    ensures var events := seq(|modes|, i requires 0 <= i < |modes| => Mode(modes[i], isSet));
            m in ApplyAll(v, events).modes <==> if m in modes then isSet else m in v.modes
  {
    if modes != [] {
      var n := |modes| - 1;
      var events := seq(|modes|, i requires 0 <= i < |modes| => Mode(modes[i], isSet));
      assert events[..n] == seq(n, i requires 0 <= i < n => Mode(modes[..n][i], isSet));
      ModesApplied(v, modes[..n], isSet, m);
      assert modes == modes[..n] + [modes[n]];
    }
  }

  lemma StillOnSnoc(ts: seq<Token>, m: seq<byte>)
    requires ts != []
    ensures var n := |ts| - 1;
            (exists i :: StillOn(ts, m, i)) <==>
              (ts[n].SetModes? && m in ts[n].modes)
              || ((exists i :: StillOn(ts[..n], m, i)) && !(ts[n].ResetModes? && m in ts[n].modes))
  {
    var n := |ts| - 1;
    if ts[n].SetModes? && m in ts[n].modes {
      assert StillOn(ts, m, n);
    }
    if i: nat :| StillOn(ts[..n], m, i) {
      assert !(ts[n].ResetModes? && m in ts[n].modes) ==> StillOn(ts, m, i);
    }
    if i: nat :| StillOn(ts, m, i) {
      assert i < n ==> StillOn(ts[..n], m, i);
    }
  }

  lemma {:induction false} ModesOfTokens(title: seq<byte>, ts: seq<Token>, m: seq<byte>)
    ensures m in ApplyAll(View({}, title), SaysAll(ts)).modes <==> exists i :: StillOn(ts, m, i)
  {
    if ts == [] {
      ApplyOne(View({}, title), Title([]));
    } else {
      var n := |ts| - 1;
      ModesOfTokens(title, ts[..n], m);
      hide Says, ApplyAll, StillOn;
      ApplyAllConcat(View({}, title), SaysAll(ts[..n]), Says(ts[n]));
      ModeOfToken(ApplyAll(View({}, title), SaysAll(ts[..n])), ts[n], m);
      StillOnSnoc(ts, m);
    }
  }

  /**
   * However the reads cut well-formed output, a mode is active in the session if and only if some part of the
   * output set it and no later one reset it.
   */
  lemma {:induction false} SessionFollowsModes(title: seq<byte>, received: seq<seq<byte>>, maxBytes: nat,
                                               ts: seq<Token>, m: seq<byte>)
    requires Flatten(received) == EncodedAll(ts) && forall i :: 0 <= i < |ts| ==> IsWellFormed(ts[i])
    ensures m in FeedAll(title, received, maxBytes).pipe.view.modes <==> exists i :: StillOn(ts, m, i)
  {
    OutputHeard(ts);
    hide Run, FeedAll, Flatten, EncodedAll, SaysAll, ApplyAll, StillOn, IsWellFormed;
    ViewOfStream(title, received, maxBytes);
    ModesOfTokens(title, ts, m);
  }

  /** After any output that ends in ground, resetting modes removes exactly those from the session. */
  lemma {:induction false} ResetRemovesModes(title: seq<byte>, before: seq<seq<byte>>, modes: seq<seq<byte>>,
                                             after: seq<seq<byte>>, maxBytes: nat)
    requires Run(Fresh, Flatten(before)).state.vt == Ground
    requires AreModes(modes) && |Join(modes)| <= 256 && Flatten(after) == Flatten(before) + Encoded(ResetModes(modes))
    ensures forall m :: m in FeedAll(title, after, maxBytes).pipe.view.modes <==>
                        m in FeedAll(title, before, maxBytes).pipe.view.modes && m !in modes
  {
    var t := ResetModes(modes);
    TokenHeard(t);
    HeardBehind(Run(Fresh, Flatten(before)).state, Encoded(t), Says(t));
    hide Run, FeedAll, Flatten, Encoded, Says, ApplyAll, Heard, Join;
    RunConcat(Fresh, Flatten(before), Encoded(t));
    ViewOfStream(title, before, maxBytes);
    ViewOfStream(title, after, maxBytes);
    ApplyAllConcat(View({}, title), Run(Fresh, Flatten(before)).events, Says(t));
    forall m ensures m in FeedAll(title, after, maxBytes).pipe.view.modes <==>
                     m in FeedAll(title, before, maxBytes).pipe.view.modes && m !in modes {
      ModeOfToken(ApplyAll(View({}, title), Run(Fresh, Flatten(before)).events), t, m);
    }
  }
}

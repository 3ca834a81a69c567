/** The incremental terminal-stream parser of internal/stream/stream.go. */
module Stream {
  import opened Bytes

  const ESC: byte := 0x1b
  const CSI: byte := 0x5b
  const OSC: byte := 0x5d
  const BEL: byte := 0x07
  const QUESTION: byte := 0x3f
  const SEMICOLON: byte := 0x3b
  const LOWER_H: byte := 0x68
  const LOWER_L: byte := 0x6c
  const BSLASH: byte := 0x5c
  const ZERO: byte := 0x30
  const ONE: byte := 0x31
  const TWO: byte := 0x32
  const NINE: byte := 0x39

  const MAX_PARAM := 256
  const MAX_TITLE := 4096

  datatype VT = Ground | Esc | CsiQ | CsiParam | OscType | OscSep | OscText | OscEsc

  /** One callback made by the parser. */
  datatype Event = Mode(mode: seq<byte>, isSet: bool) | Title(text: seq<byte>)

  datatype State = State(vt: VT, param: seq<byte>, oscType: byte, oscText: seq<byte>)

  datatype Outcome = Outcome(state: State, events: seq<Event>)

  const Fresh := State(Ground, [], 0, [])

  // ---- parameter lists ----

  /** The completed non-empty fields of a ';'-separated list, and the field still open at its end. */
  function Cut(p: seq<byte>): (seq<seq<byte>>, seq<byte>) {
    if p == [] then ([], [])
    else
      var (done, cur) := Cut(p[..|p| - 1]);
      if p[|p| - 1] != SEMICOLON then (done, cur + [p[|p| - 1]])
      else (Closed(done, cur), [])
  }

  function Closed(done: seq<seq<byte>>, cur: seq<byte>): seq<seq<byte>> {
    if cur == [] then done else done + [cur]
  }

  /** The non-empty fields of a ';'-separated list. */
  function Fields(p: seq<byte>): seq<seq<byte>> {
    var (done, cur) := Cut(p);
    Closed(done, cur)
  }

  function ModeEvents(fields: seq<seq<byte>>, isSet: bool): seq<Event> {
    seq(|fields|, i requires 0 <= i < |fields| => Mode(fields[i], isSet))
  }

  // ---- the automaton, one byte at a time ----

  predicate IsParamByte(b: byte) {
    ZERO <= b <= NINE || b == SEMICOLON
  }

  predicate IsTitleType(b: byte) {
    b == ZERO || b == ONE || b == TWO
  }

  function Step(s: State, b: byte): Outcome {
    match s.vt
    case Ground => Outcome(if b == ESC then s.(vt := Esc) else s, [])
    case Esc =>
      if b == CSI then Outcome(s.(vt := CsiQ), [])
      else if b == OSC then Outcome(s.(vt := OscType, oscType := 0, oscText := []), [])
      else Outcome(s.(vt := if b == ESC then Esc else Ground), [])
    case CsiQ =>
      if b == QUESTION then Outcome(s.(vt := CsiParam, param := []), [])
      else Outcome(s.(vt := if b == ESC then Esc else Ground), [])
    case CsiParam =>
      if IsParamByte(b) then
        Outcome(if |s.param| < MAX_PARAM then s.(param := s.param + [b]) else s, [])
      else if b == LOWER_H || b == LOWER_L then
        Outcome(s.(vt := Ground, param := []), ModeEvents(Fields(s.param), b == LOWER_H))
      else Outcome(s.(vt := if b == ESC then Esc else Ground, param := []), [])
    case OscType =>
      if IsTitleType(b) then Outcome(s.(vt := OscSep, oscType := b), [])
      else Outcome(s.(vt := if b == ESC then Esc else Ground), [])
    case OscSep =>
      if b == SEMICOLON then Outcome(s.(vt := OscText, oscText := []), [])
      else Outcome(s.(vt := if b == ESC then Esc else Ground), [])
    case OscText =>
      if b == BEL then EndTitle(s)
      else if b == ESC then Outcome(s.(vt := OscEsc), [])
      else Outcome(if |s.oscText| < MAX_TITLE then s.(oscText := s.oscText + [b]) else s, [])
    case OscEsc =>
      if b == BSLASH then EndTitle(s)
      else if b == ESC then
        Outcome(if |s.oscText| < MAX_TITLE then s.(oscText := s.oscText + [ESC]) else s, [])
      else
        Outcome(s.(vt := OscText,
                   oscText := if |s.oscText| < MAX_TITLE - 2 then s.oscText + [ESC, b] else s.oscText), [])
  }

  function EndTitle(s: State): Outcome {
    Outcome(s.(vt := Ground, oscType := 0, oscText := []), if s.oscType != 0 then [Title(s.oscText)] else [])
  }

  function Run(s: State, buf: seq<byte>): Outcome {
    if buf == [] then Outcome(s, [])
    else
      var before := Run(s, buf[..|buf| - 1]);
      var last := Step(before.state, buf[|buf| - 1]);
      Outcome(last.state, before.events + last.events)
  }

  predicate GroundAfter(s: State, buf: seq<byte>) {
    Run(s, buf).state.vt == Ground
  }

  /** n is the length of the longest non-empty prefix of buf that ends in the ground state, or 0 if there is none. */
  ghost predicate IsCleanLength(s: State, buf: seq<byte>, n: nat) {
    && n <= |buf|
    && (n > 0 ==> GroundAfter(s, buf[..n]))
    && forall k :: n < k <= |buf| ==> !GroundAfter(s, buf[..k])
  }

  function CleanLength(s: State, buf: seq<byte>): (n: nat)
    ensures IsCleanLength(s, buf, n)
  {
    hide Run;
    assert buf[..|buf|] == buf;
    if buf == [] || GroundAfter(s, buf) then |buf|
    else
      var shorter := buf[..|buf| - 1];
      var n := CleanLength(s, shorter);
      assert forall k | 0 <= k <= |shorter| :: shorter[..k] == buf[..k];
      n
  }

  // ---- the parser object ----

  class Parser {
    var state: VT
    var param: seq<byte>
    var oscType: byte
    var oscText: seq<byte>

    ghost function Value(): State
      reads this
    {
      State(state, param, oscType, oscText)
    }

    constructor ()
      ensures Value() == Fresh
    {
      state, param, oscType, oscText := Ground, [], 0, [];
    }

    /**
     * Feeds the next chunk. `calls` are the callbacks made, in order, and `clean` the length of the
     * leading part of buf that ends on a clean boundary.
     */
    method Parse(buf: seq<byte>) returns (clean: nat, calls: seq<Event>)
      modifies this
      ensures Value() == Run(old(Value()), buf).state
      ensures calls == Run(old(Value()), buf).events
      ensures clean == CleanLength(old(Value()), buf)
    {
      ghost var s0 := Value();
      var lastGround: nat := 0;
      calls := [];
      for i := 0 to |buf|
        invariant Outcome(Value(), calls) == Run(s0, buf[..i])
        invariant IsCleanLength(s0, buf[..i], lastGround)
      {
        assert buf[..i + 1][..i] == buf[..i];
        var made := ParseByte(buf[i]);
        calls := calls + made;
        CleanLengthStep(s0, buf[..i + 1], lastGround);
        if state == Ground {
          lastGround := i + 1;
        }
      }
      assert buf[..|buf|] == buf;
      CleanLengthUnique(s0, buf, lastGround);
      clean := lastGround;
    }

    /** The body of Parse's loop: one byte through the automaton. */
    method ParseByte(b: byte) returns (calls: seq<Event>)
      modifies this
      ensures Outcome(Value(), calls) == Step(old(Value()), b)
    {
      calls := [];
      match state {
        case Ground =>
          if b == ESC { state := Esc; }
        case Esc =>
          if b == CSI {
            state := CsiQ;
          } else if b == OSC {
            state, oscType, oscText := OscType, 0, [];
          } else if b == ESC {
            state := Esc;
          } else {
            state := Ground;
          }
        case CsiQ =>
          if b == QUESTION {
            state, param := CsiParam, [];
          } else if b == ESC {
            state := Esc;
          } else {
            state := Ground;
          }
        case CsiParam =>
          if ZERO <= b <= NINE || b == SEMICOLON {
            if |param| < MAX_PARAM { param := param + [b]; }
          } else if b == LOWER_H || b == LOWER_L {
            calls := ReportModes(param, b == LOWER_H);
            param, state := [], Ground;
          } else if b == ESC {
            param, state := [], Esc;
          } else {
            param, state := [], Ground;
          }
        case OscType =>
          if b == ZERO || b == ONE || b == TWO {
            oscType, state := b, OscSep;
          } else if b == ESC {
            state := Esc;
          } else {
            state := Ground;
          }
        case OscSep =>
          if b == SEMICOLON {
            oscText, state := [], OscText;
          } else if b == ESC {
            state := Esc;
          } else {
            state := Ground;
          }
        case OscText =>
          if b == BEL {
            if oscType != 0 { calls := [Title(oscText)]; }
            oscText, oscType, state := [], 0, Ground;
          } else if b == ESC {
            state := OscEsc;
          } else if |oscText| < MAX_TITLE {
            oscText := oscText + [b];
          }
        case OscEsc =>
          if b == BSLASH {
            if oscType != 0 { calls := [Title(oscText)]; }
            oscText, oscType, state := [], 0, Ground;
          } else if b == ESC {
            if |oscText| < MAX_TITLE { oscText := oscText + [ESC]; }
            state := OscEsc;
          } else {
            if |oscText| < MAX_TITLE - 2 {
              oscText := oscText + [ESC];
              oscText := oscText + [b];
            }
            state := OscText;
          }
      }
    }
  }

  /** The loop that reports one mode callback for every non-empty field of the parameter list. */
  method ReportModes(param: seq<byte>, isSet: bool) returns (calls: seq<Event>)
    ensures calls == ModeEvents(Fields(param), isSet)
  {
    calls := [];
    var start := 0;
    for j := 0 to |param| + 1
      invariant 0 <= start <= |param| + 1
      invariant j <= |param| ==> start <= j && calls == ModeEvents(Cut(param[..j]).0, isSet)
                                 && param[start..j] == Cut(param[..j]).1
      invariant j == |param| + 1 ==> calls == ModeEvents(Fields(param), isSet)
    {
      if j < |param| {
        assert param[..j + 1][..j] == param[..j];
      } else {
        assert param[..j] == param;
      }
      if j == |param| || param[j] == SEMICOLON {
        if j > start {
          calls := calls + [Mode(param[start..j], isSet)];
        }
        start := j + 1;
      }
    }
  }

  lemma CleanLengthStep(s: State, buf: seq<byte>, n: nat)
    requires buf != [] && IsCleanLength(s, buf[..|buf| - 1], n)
    ensures IsCleanLength(s, buf, if GroundAfter(s, buf) then |buf| else n)
  {
    hide GroundAfter;
    var shorter := buf[..|buf| - 1];
    assert forall k | 0 <= k <= |shorter| :: shorter[..k] == buf[..k];
    assert buf[..|buf|] == buf;
  }

  lemma CleanLengthUnique(s: State, buf: seq<byte>, n: nat)
    requires IsCleanLength(s, buf, n)
    ensures n == CleanLength(s, buf)
  {
    var m := CleanLength(s, buf);
    assert n > 0 ==> GroundAfter(s, buf[..n]);
    assert m > 0 ==> GroundAfter(s, buf[..m]);
  }
}

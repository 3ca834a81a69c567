/** Shell quoting of internal/ssh/ssh.go, read back by a POSIX shell lexer and by printf's octal escapes. */
module Quoting {
  import opened Bytes

  // ---- a reference lexer: sections 2.2.1 to 2.2.3 and 2.6.3 of the POSIX.1-2017 Shell Command Language ----

  datatype Mode = Unquoted | Escaped | SingleQuoted | DoubleQuoted | DoubleEscaped | DoubleDollar

  /** A command substitution: the output of a command goes into a word behind its first `at` characters. */
  datatype Substitution = Substitution(word: nat, at: nat, command: Command)

  /** The words of a command, and where output of other commands goes into them. */
  datatype Command = Command(words: seq<string>, substitutions: seq<Substitution>)

  /** The command outside of the substitution that is being read, if any. */
  datatype Outer = Top | Inside(lexer: Lexer)

  /** Finished words, and the one being built, if any. Failed: the text needs more than these rules. */
  datatype Lexer =
    | Lexer(mode: Mode, words: seq<string>, inWord: bool, cur: string, substitutions: seq<Substitution>, outer: Outer)
    | Failed

  /** Between two words. */
  function Between(words: seq<string>, outer: Outer): Lexer {
    Lexer(Unquoted, words, false, "", [], outer)
  }

  const Start := Between([], Top)

  function Append(l: Lexer, mode: Mode, s: string): Lexer
    requires l.Lexer?
  {
    l.(mode := mode, inWord := true, cur := l.cur + s)
  }

  function EndWord(l: Lexer): Lexer
    requires l.Lexer?
  {
    if l.inWord then l.(mode := Unquoted, words := l.words + [l.cur], inWord := false, cur := "") else l
  }

  /** Dollar and parenthesis inside double quotes: what follows is a command of its own. */
  function Enter(l: Lexer): Lexer
    requires l.Lexer?
  {
    Between([], Inside(l.(mode := DoubleQuoted)))
  }

  /** The closing parenthesis: the command's output goes where its text stood, inside the double quotes. */
  function Leave(l: Lexer): Lexer
    requires l.Lexer?
  {
    if l.outer.Top? || l.outer.lexer.Failed? then Failed
    else
      var o := l.outer.lexer;
      var done := EndWord(l);
      o.(substitutions := o.substitutions + [Substitution(|o.words|, |o.cur|, Command(done.words, done.substitutions))])
  }

  /** Operators, expansions, patterns, comments and line ends: not quoting, so not handled. */
  predicate IsSpecial(c: char) {
    || c == '|' || c == '&' || c == ';' || c == '<' || c == '>' || c == '(' || c == ')' || c == '$' || c == '`'
    || c == '\n' || c == '*' || c == '?' || c == '[' || c == '#' || c == '~'
  }

  function Lex(l: Lexer, c: char): Lexer {
    if l.Failed? || c == '\0' then Failed
    else
      match l.mode
      case Unquoted =>
        if c == '\'' then Append(l, SingleQuoted, "")
        else if c == '\"' then Append(l, DoubleQuoted, "")
        else if c == '\\' then l.(mode := Escaped)
        else if c == ' ' || c == '\t' then EndWord(l)
        else if c == ')' then Leave(l)
        else if IsSpecial(c) then Failed
        else Append(l, Unquoted, [c])
      case Escaped => if c == '\n' then l.(mode := Unquoted) else Append(l, Unquoted, [c])
      case SingleQuoted => if c == '\'' then l.(mode := Unquoted) else Append(l, SingleQuoted, [c])
      case DoubleQuoted =>
        if c == '\"' then l.(mode := Unquoted)
        else if c == '\\' then l.(mode := DoubleEscaped)
        else if c == '$' then l.(mode := DoubleDollar)
        else if c == '`' then Failed
        else Append(l, DoubleQuoted, [c])
      case DoubleEscaped =>
        if c == '\n' then l.(mode := DoubleQuoted)
        else if c == '$' || c == '`' || c == '\"' || c == '\\' then Append(l, DoubleQuoted, [c])
        else Append(l, DoubleQuoted, ['\\', c])
      case DoubleDollar => if c == '(' then Enter(l) else Failed
  }

  function LexAll(l: Lexer, s: string): Lexer {
    if s == "" then l else Lex(LexAll(l, s[..|s| - 1]), s[|s| - 1])
  }

  /** The command that a complete text is, if it takes nothing but quoting and command substitution. */
  function Parse(s: string): Option<Command> {
    var l := LexAll(Start, s);
    if l.Failed? || l.mode != Unquoted || l.outer != Top then None
    else Some(Command(EndWord(l).words, l.substitutions))
  }

  /** The words of a text without substitutions. */
  function Words(s: string): Option<seq<string>> {
    var c := Parse(s);
    if c == None || c.value.substitutions != [] then None else Some(c.value.words)
  }

  lemma {:induction false} LexConcat(l: Lexer, a: string, b: string)
    ensures LexAll(l, a + b) == LexAll(LexAll(l, a), b)
  {
    hide Lex;
    if b == "" {
      assert a + b == a;
    } else {
      assert (a + b)[..|a + b| - 1] == a + b[..|b| - 1];
      LexConcat(l, a, b[..|b| - 1]);
    }
  }

  lemma LexSnoc(l: Lexer, s: string, c: char)
    ensures LexAll(l, s + [c]) == Lex(LexAll(l, s), c)
    ensures LexAll(l, "") == l && LexAll(l, [c]) == Lex(l, c)
  {
    hide Lex;
    assert (s + [c])[..|s|] == s && [c][..0] == "";
  }

  // ---- pieces of text ----

  predicate IsPlain(c: char) {
    c != '\0' && c != '\'' && c != '\"' && c != '\\' && c != ' ' && c != '\t' && !IsSpecial(c)
  }

  lemma {:induction false} LexPlain(l: Lexer, s: string)
    requires l.Lexer? && l.mode == Unquoted && (forall i :: 0 <= i < |s| ==> IsPlain(s[i])) && s != ""
    ensures LexAll(l, s) == Append(l, Unquoted, s)
  {
    var n := |s| - 1;
    assert s == s[..n] + [s[n]];
    LexSnoc(l, s[..n], s[n]);
    if n > 0 {
      LexPlain(l, s[..n]);
      assert l.cur + s[..n] + [s[n]] == l.cur + s;
    }
  }

  /** A bare word followed by a space. */
  lemma LexBareWord(words: seq<string>, outer: Outer, w: string)
    requires IsBareWord(w)
    ensures LexAll(Between(words, outer), w + " ") == Between(words + [w], outer)
  {
    var l := Between(words, outer);
    LexPlain(l, w);
    LexSnoc(l, w, ' ');
    assert " " == [' '] && "" + w == w;
  }

  /** Between single quotes everything but the quote and NUL stands for itself. */
  lemma {:induction false} LexSingleQuoted(l: Lexer, s: string)
    requires l.Lexer? && l.mode == SingleQuoted && l.inWord
    requires forall i :: 0 <= i < |s| ==> s[i] != '\'' && s[i] != '\0'
    ensures LexAll(l, s) == Append(l, SingleQuoted, s)
  {
    if s == "" {
      assert l.cur + "" == l.cur;
    } else {
      var n := |s| - 1;
      assert s == s[..n] + [s[n]];
      LexSingleQuoted(l, s[..n]);
      LexSnoc(l, s[..n], s[n]);
      assert l.cur + s[..n] + [s[n]] == l.cur + s;
    }
  }

  /** A quoted text, given what the lexer makes of the text itself between the quotes. */
  lemma LexQuoted(l: Lexer, q: char, inner: Mode, text: string, value: string)
    requires l.Lexer? && l.mode == Unquoted
    requires (q == '\'' && inner == SingleQuoted) || (q == '\"' && inner == DoubleQuoted)
    requires LexAll(Append(l, inner, ""), text) == Append(Append(l, inner, ""), inner, value)
    ensures LexAll(l, [q] + text + [q]) == Append(l, Unquoted, value)
  {
    hide LexAll;
    LexSnoc(l, "", q);
    LexConcat(l, [q], text);
    LexSnoc(l, [q] + text, q);
    assert l.cur + "" + value == l.cur + value;
  }

  // ---- shellEscape ----

  /** strings.ReplaceAll of every quote by: end quote, escaped quote, start quote. */
  function EscapeQuotes(s: string): string {
    if s == "" then "" else EscapeQuotes(s[..|s| - 1]) + if s[|s| - 1] == '\'' then "'\\''" else [s[|s| - 1]]
  }

  function ShellEscape(s: string): string {
    "'" + EscapeQuotes(s) + "'"
  }

  predicate NulFree(s: string) {
    forall i :: 0 <= i < |s| ==> s[i] != '\0'
  }

  lemma LexEscapedQuote(l: Lexer)
    requires l.Lexer? && l.mode == SingleQuoted && l.inWord
    ensures LexAll(l, "'\\''") == Append(l, SingleQuoted, "'")
  {
    hide LexAll;
    LexSnoc(l, "", '\'');
    LexSnoc(l, "'", '\\');
    LexSnoc(l, "'\\", '\'');
    LexSnoc(l, "'\\'", '\'');
    assert "'" == ['\''] && "'" + ['\\'] == "'\\" && "'\\" + ['\''] == "'\\'" && "'\\'" + ['\''] == "'\\''";
    assert l.cur + "'" + "" == l.cur + "'";
  }

  /** Text that is read inside single quotes, and one more character of it. */
  lemma LexQuotedChar(l: Lexer, before: string, value: string, c: char)
    requires l.Lexer? && l.mode == SingleQuoted && l.inWord && c != '\'' && c != '\0'
    requires LexAll(l, before) == Append(l, SingleQuoted, value)
    ensures LexAll(l, before + [c]) == Append(l, SingleQuoted, value + [c])
  {
    hide LexAll;
    LexSnoc(l, before, c);
    assert l.cur + value + [c] == l.cur + (value + [c]);
  }

  lemma LexQuotedQuote(l: Lexer, before: string, value: string)
    requires l.Lexer? && l.mode == SingleQuoted && l.inWord
    requires LexAll(l, before) == Append(l, SingleQuoted, value)
    ensures LexAll(l, before + "'\\''") == Append(l, SingleQuoted, value + ['\''])
  {
    LexEscapedQuote(Append(l, SingleQuoted, value));
    hide LexAll;
    LexConcat(l, before, "'\\''");
    assert l.cur + value + "'" == l.cur + (value + ['\'']);
  }

  lemma EscapeQuotesSnoc(s: string, c: char)
    ensures EscapeQuotes("") == "" && EscapeQuotes(s + [c]) == EscapeQuotes(s) + if c == '\'' then "'\\''" else [c]
  {
    assert (s + [c])[..|s|] == s;
  }

  lemma LexNothing(l: Lexer, mode: Mode)
    requires l.Lexer? && l.mode == mode && l.inWord
    ensures LexAll(l, "") == Append(l, mode, "")
  {
    assert l.cur + "" == l.cur;
  }

  lemma {:induction false} LexEscaped(l: Lexer, s: string)
    requires l.Lexer? && l.mode == SingleQuoted && l.inWord && NulFree(s)
    ensures LexAll(l, EscapeQuotes(s)) == Append(l, SingleQuoted, s)
  {
    hide Lex, LexAll, EscapeQuotes, Append;
    if s == "" {
      EscapeQuotesSnoc("", 'x');
      LexNothing(l, SingleQuoted);
    } else {
      var n := |s| - 1;
      assert s == s[..n] + [s[n]];
      LexEscaped(l, s[..n]);
      EscapeQuotesSnoc(s[..n], s[n]);
      if s[n] == '\'' {
        LexQuotedQuote(l, EscapeQuotes(s[..n]), s[..n]);
      } else {
        LexQuotedChar(l, EscapeQuotes(s[..n]), s[..n], s[n]);
      }
    }
  }

  /**
   * Wherever an unquoted word may stand or go on, the shell reads shellEscape(s) as exactly the characters
   * of s added to that word, for every s without NUL.
   */
  lemma ShellEscapeInContext(l: Lexer, s: string)
    requires l.Lexer? && l.mode == Unquoted && NulFree(s)
    ensures LexAll(l, ShellEscape(s)) == Append(l, Unquoted, s)
  {
    LexEscaped(Append(l, SingleQuoted, ""), s);
    hide Lex, LexAll, EscapeQuotes;
    LexQuoted(l, '\'', SingleQuoted, EscapeQuotes(s), s);
    assert "'" == ['\''];
  }

  /** shellEscape(s) on its own is the single word s, the empty word included. */
  lemma ShellEscapeIsOneWord(s: string)
    requires NulFree(s)
    ensures Words(ShellEscape(s)) == Some([s])
  {
    hide ShellEscape, LexAll;
    ShellEscapeInContext(Start, s);
    assert "" + s == s && [] + [s] == [s];
  }

  // ---- remoteCommand ----

  function OctalDigit(n: nat): char
    requires n < 8
  {
    '0' + n as char
  }

  predicate IsOctalDigit(c: char) {
    '0' <= c <= '7'
  }

  /** \ooo, as printed by the format \%03o. */
  function OctalByte(b: byte): string {
    ['\\', OctalDigit(b / 64), OctalDigit(b / 8 % 8), OctalDigit(b % 8)]
  }

  function Octal(payload: seq<byte>): string {
    if payload == [] then "" else Octal(payload[..|payload| - 1]) + OctalByte(payload[|payload| - 1])
  }

  const SHELL: string := "/bin/sh"
  const FLAG: string := "-c"
  const SCRIPT_HEAD: string := "eval \"$(printf %b \""
  const SCRIPT_TAIL: string := "\")\""

  /** The argument of sh -c. */
  function Script(payload: seq<byte>): string {
    SCRIPT_HEAD + Octal(payload) + SCRIPT_TAIL
  }

  /** Two bare words and a quoted text, separated by single spaces. */
  function TwoWordsAndQuoted(a: string, b: string, q: char, text: string): string {
    (a + " ") + (b + " ") + ([q] + text + [q])
  }

  function RemoteLine(payload: seq<byte>): string {
    TwoWordsAndQuoted(SHELL, FLAG, '\'', Script(payload))
  }

  method RemoteCommand(payload: seq<byte>) returns (sb: string)
    ensures sb == RemoteLine(payload)
  {
    hide OctalByte;
    sb := (SHELL + " ") + (FLAG + " ") + (['\''] + SCRIPT_HEAD);
    ghost var head := sb;
    for i := 0 to |payload|
      invariant sb == head + Octal(payload[..i])
    {
      assert payload[..i + 1][..i] == payload[..i];
      sb := sb + OctalByte(payload[i]);
    }
    assert payload[..|payload|] == payload;
    sb := sb + (SCRIPT_TAIL + ['\'']);
  }

  lemma {:induction false} OctalText(payload: seq<byte>)
    ensures forall i :: 0 <= i < |Octal(payload)| ==> Octal(payload)[i] == '\\' || IsOctalDigit(Octal(payload)[i])
  {
    if payload != [] {
      OctalText(payload[..|payload| - 1]);
    }
  }

  predicate IsBareWord(w: string) {
    w != "" && forall i :: 0 <= i < |w| ==> IsPlain(w[i])
  }

  /** The state after two bare words and a quoted text at the start of a command. */
  function QuotedThird(a: string, b: string, text: string, outer: Outer): Lexer {
    Lexer(Unquoted, [a, b], true, text, [], outer)
  }

  lemma LexTwoWordsAndQuoted(a: string, b: string, q: char, inner: Mode, text: string, outer: Outer)
    requires IsBareWord(a) && IsBareWord(b)
    requires (q == '\'' && inner == SingleQuoted) || (q == '\"' && inner == DoubleQuoted)
    requires var l := Append(Between([a, b], outer), inner, ""); LexAll(l, text) == Append(l, inner, text)
    ensures LexAll(Between([], outer), TwoWordsAndQuoted(a, b, q, text)) == QuotedThird(a, b, text, outer)
  {
    hide Lex, LexAll;
    LexBareWord([], outer, a);
    LexBareWord([a], outer, b);
    assert [] + [a] == [a] && [a] + [b] == [a, b];
    LexQuoted(Between([a, b], outer), q, inner, text, text);
    LexConcat(Between([], outer), a + " ", b + " ");
    LexConcat(Between([], outer), (a + " ") + (b + " "), [q] + text + [q]);
    assert "" + text == text;
  }

  lemma WordsOfThree(s: string, a: string, b: string, text: string)
    requires LexAll(Start, s) == QuotedThird(a, b, text, Top)
    ensures Words(s) == Some([a, b, text])
  {
    hide LexAll;
    assert [a, b] + [text] == [a, b, text];
  }

  lemma NoQuotes(payload: seq<byte>)
    ensures forall i :: 0 <= i < |Script(payload)| ==> Script(payload)[i] != '\'' && Script(payload)[i] != '\0'
  {
    OctalText(payload);
    hide Octal;
  }

  /** The login shell sees three words, the last being the script, whatever the payload contains. */
  lemma RemoteCommandWords(payload: seq<byte>)
    ensures Words(RemoteLine(payload)) == Some([SHELL, FLAG, Script(payload)])
  {
    assert IsBareWord(SHELL) && IsBareWord(FLAG);
    NoQuotes(payload);
    hide Lex, LexAll, Script, IsBareWord, Words, QuotedThird;
    LexSingleQuoted(Append(Between([SHELL, FLAG], Top), SingleQuoted, ""), Script(payload));
    LexTwoWordsAndQuoted(SHELL, FLAG, '\'', SingleQuoted, Script(payload), Top);
    WordsOfThree(RemoteLine(payload), SHELL, FLAG, Script(payload));
  }

  /** Inside double quotes a backslash before a digit stays. */
  lemma LexOctalByte(l: Lexer, b: byte)
    requires l.Lexer? && l.mode == DoubleQuoted
    ensures LexAll(l, OctalByte(b)) == Append(l, DoubleQuoted, OctalByte(b))
  {
    var d, e, f := OctalDigit(b / 64), OctalDigit(b / 8 % 8), OctalDigit(b % 8);
    assert ['\\'] + [d] == ['\\', d] && ['\\', d] + [e] == ['\\', d, e] && ['\\', d, e] + [f] == OctalByte(b);
    hide *;
    OctalDigits(b);
    LexSnoc(l, "", '\\');
    LexBackslash(l);
    LexSnoc(l, ['\\'], d);
    LexEscapedDigit(l, d);
    LexDigit(l, ['\\', d], e);
    LexDigit(l, ['\\', d, e], f);
  }

  lemma OctalDigits(b: byte)
    ensures IsOctalDigit(OctalDigit(b / 64)) && IsOctalDigit(OctalDigit(b / 8 % 8)) && IsOctalDigit(OctalDigit(b % 8))
  {
  }

  lemma LexBackslash(l: Lexer)
    requires l.Lexer? && l.mode == DoubleQuoted
    ensures Lex(l, '\\') == l.(mode := DoubleEscaped)
  {
  }

  lemma LexEscapedDigit(l: Lexer, d: char)
    requires l.Lexer? && l.mode == DoubleQuoted && IsOctalDigit(d)
    ensures Lex(l.(mode := DoubleEscaped), d) == Append(l, DoubleQuoted, ['\\', d])
  {
  }

  lemma AppendTwice(l: Lexer, mode: Mode, a: string, b: string)
    requires l.Lexer?
    ensures Append(Append(l, mode, a), mode, b) == Append(l, mode, a + b)
    ensures Append(l, mode, a).Lexer? && Append(l, mode, a).mode == mode
  {
    assert l.cur + a + b == l.cur + (a + b);
  }

  lemma LexOneDigit(l: Lexer, d: char)
    requires l.Lexer? && l.mode == DoubleQuoted && IsOctalDigit(d)
    ensures Lex(l, d) == Append(l, DoubleQuoted, [d])
  {
  }

  lemma LexDigit(l: Lexer, before: string, d: char)
    requires l.Lexer? && l.mode == DoubleQuoted && IsOctalDigit(d)
    requires LexAll(l, before) == Append(l, DoubleQuoted, before)
    ensures LexAll(l, before + [d]) == Append(l, DoubleQuoted, before + [d])
  {
    hide *;
    LexSnoc(l, before, d);
    AppendTwice(l, DoubleQuoted, before, [d]);
    LexOneDigit(Append(l, DoubleQuoted, before), d);
  }

  lemma {:induction false} LexOctal(l: Lexer, payload: seq<byte>)
    requires l.Lexer? && l.mode == DoubleQuoted && l.inWord
    ensures LexAll(l, Octal(payload)) == Append(l, DoubleQuoted, Octal(payload))
  {
    if payload == [] {
      assert l.cur + "" == l.cur;
    } else {
      hide Lex, OctalByte;
      var n := |payload| - 1;
      LexOctal(l, payload[..n]);
      LexConcat(l, Octal(payload[..n]), OctalByte(payload[n]));
      LexOctalByte(Append(l, DoubleQuoted, Octal(payload[..n])), payload[n]);
      assert l.cur + Octal(payload[..n]) + OctalByte(payload[n]) == l.cur + Octal(payload);
    }
  }

  const EVAL: string := "eval"
  const PRINTF: string := "printf"
  const FORMAT: string := "%b"

  /** The text of the command substitution inside the script. */
  function PrintfText(payload: seq<byte>): string {
    TwoWordsAndQuoted(PRINTF, FORMAT, '\"', Octal(payload))
  }

  /** The command it runs. */
  function PrintfCommand(payload: seq<byte>): Command {
    Command([PRINTF, FORMAT, Octal(payload)], [])
  }

  lemma ScriptParts(payload: seq<byte>)
    ensures Script(payload) == (EVAL + " ") + ['\"'] + ['$'] + ['('] + PrintfText(payload) + [')'] + ['\"']
  {
    hide Octal;
    assert SCRIPT_HEAD == (EVAL + " ") + ['\"'] + ['$'] + ['('] + ((PRINTF + " ") + (FORMAT + " ") + ['\"']);
    assert SCRIPT_TAIL == ['\"'] + [')'] + ['\"'];
  }

  /** Inside a substitution: printf gets the format %b and the octal text, unchanged. */
  lemma PrintfLexed(payload: seq<byte>, outer: Outer)
    ensures LexAll(Between([], outer), PrintfText(payload)) == QuotedThird(PRINTF, FORMAT, Octal(payload), outer)
  {
    assert IsBareWord(PRINTF) && IsBareWord(FORMAT);
    hide Lex, LexAll, Octal, IsBareWord, QuotedThird;
    LexOctal(Append(Between([PRINTF, FORMAT], outer), DoubleQuoted, ""), payload);
    LexTwoWordsAndQuoted(PRINTF, FORMAT, '\"', DoubleQuoted, Octal(payload), outer);
  }

  /** A double-quoted substitution as the second word: its opening, and its closing. */
  lemma LexOpening(w: string)
    requires IsBareWord(w)
    ensures LexAll(Start, (w + " ") + ['\"'] + ['$'] + ['(']) == Between([], Inside(Append(Between([w], Top), DoubleQuoted, "")))
  {
    LexBareWord([], Top, w);
    assert [] + [w] == [w];
    hide LexAll;
    LexSnoc(Start, w + " ", '\"');
    LexSnoc(Start, (w + " ") + ['\"'], '$');
    LexSnoc(Start, (w + " ") + ['\"'] + ['$'], '(');
  }

  lemma LexLeaves(w: string, a: string, b: string, text: string)
    ensures var o := Append(Between([w], Top), DoubleQuoted, "");
            var done := Substitution(1, 0, Command([a, b, text], []));
            Lex(QuotedThird(a, b, text, Inside(o)), ')') == Lexer(DoubleQuoted, [w], true, "", [done], Top)
  {
    assert "" + "" == "" && [a, b] + [text] == [a, b, text];
    var done := Substitution(1, 0, Command([a, b, text], []));
    assert [] + [done] == [done];
  }

  lemma ParseQuoted(s: string, w: string, subs: seq<Substitution>)
    requires LexAll(Start, s) == Lexer(DoubleQuoted, [w], true, "", subs, Top)
    ensures Parse(s + ['\"']) == Some(Command([w, ""], subs))
  {
    hide LexAll;
    LexSnoc(Start, s, '\"');
    assert [w] + [""] == [w, ""];
  }

  lemma LexClosing(w: string, s: string, a: string, b: string, text: string)
    requires LexAll(Start, s) == QuotedThird(a, b, text, Inside(Append(Between([w], Top), DoubleQuoted, "")))
    ensures Parse(s + [')'] + ['\"']) == Some(Command([w, ""], [Substitution(1, 0, Command([a, b, text], []))]))
  {
    hide *;
    LexSnoc(Start, s, ')');
    LexLeaves(w, a, b, text);
    ParseQuoted(s + [')'], w, [Substitution(1, 0, Command([a, b, text], []))]);
  }

  /**
   * The script, read by the shell, is eval with one argument, which is nothing but the output of one command;
   * that command is printf with the format %b and the octal text.
   */
  lemma PrintfWords(payload: seq<byte>)
    ensures Parse(Script(payload)) == Some(Command([EVAL, ""], [Substitution(1, 0, PrintfCommand(payload))]))
  {
    assert IsBareWord(EVAL);
    hide Lex, LexAll, Parse, Script, IsBareWord, PrintfText, QuotedThird;
    var open := (EVAL + " ") + ['\"'] + ['$'] + ['('];
    var outer := Inside(Append(Between([EVAL], Top), DoubleQuoted, ""));
    ScriptParts(payload);
    LexOpening(EVAL);
    PrintfLexed(payload, outer);
    LexConcat(Start, open, PrintfText(payload));
    LexClosing(EVAL, open + PrintfText(payload), PRINTF, FORMAT, Octal(payload));
  }

  // ---- the escapes of printf %b ----

  /** How many of the first max characters are octal digits. */
  function DigitCount(s: string, max: nat): (n: nat)
    ensures n <= |s| && n <= max && forall i :: 0 <= i < n ==> IsOctalDigit(s[i])
  {
    if max == 0 || s == "" || !IsOctalDigit(s[0]) then 0 else 1 + DigitCount(s[1..], max - 1)
  }

  function DigitValue(c: char): nat
    requires IsOctalDigit(c)
  {
    c as int - '0' as int
  }

  function OctalValue(s: string): nat
    requires forall i :: 0 <= i < |s| ==> IsOctalDigit(s[i])
  {
    if s == "" then 0 else OctalValue(s[..|s| - 1]) * 8 + DigitValue(s[|s| - 1])
  }

  /**
   * Decodes \ooo escapes. With leadingZero, \0 may be followed by three more digits (the POSIX form);
   * without, an escape has at most three digits in all. Other escapes are not produced and not decoded.
   */
  function Decode(s: string, leadingZero: bool): Option<seq<byte>> {
    if s == "" then Some([])
    else if s[0] != '\\' then None
    else
      var skip := if leadingZero && |s| > 1 && s[1] == '0' then 2 else 1;
      var n := DigitCount(s[skip..], 3);
      if skip == 1 && n == 0 then None
      else
        match Decode(s[skip + n..], leadingZero)
        case None => None
        case Some(rest) => Some([OctalValue(s[skip..skip + n]) % 256] + rest)
  }

  lemma CountDigits(digits: string, rest: string, max: nat)
    requires (forall i :: 0 <= i < |digits| ==> IsOctalDigit(digits[i])) && |digits| <= max
    requires |digits| == max || rest == "" || rest[0] == '\\'
    ensures DigitCount(digits + rest, max) == |digits|
  {
    if digits != "" {
      assert (digits + rest)[1..] == digits[1..] + rest;
      CountDigits(digits[1..], rest, max - 1);
    } else {
      assert digits + rest == rest;
    }
  }

  lemma OctalValueSnoc(s: string, c: char)
    requires (forall i :: 0 <= i < |s| ==> IsOctalDigit(s[i])) && IsOctalDigit(c)
    ensures OctalValue("") == 0 && OctalValue(s + [c]) == OctalValue(s) * 8 + DigitValue(c)
  {
    assert (s + [c])[..|s|] == s;
  }

  lemma DigitOf(n: nat)
    requires n < 8
    ensures IsOctalDigit(OctalDigit(n)) && DigitValue(OctalDigit(n)) == n && (OctalDigit(n) == '0' <==> n == 0)
  {
  }

  lemma OctalParts(b: byte)
    ensures b / 64 < 8 && b / 8 % 8 < 8 && b % 8 < 8 && (b / 64 * 8 + b / 8 % 8) * 8 + b % 8 == b
  {
  }

  lemma OctalOf(b: byte)
    ensures var d, e, f := OctalDigit(b / 64), OctalDigit(b / 8 % 8), OctalDigit(b % 8);
            && IsOctalDigit(d) && IsOctalDigit(e) && IsOctalDigit(f)
            && OctalValue([d, e, f]) == b
            && (d == '0' ==> OctalValue([e, f]) == b)
  {
    hide *;
    OctalParts(b);
    DigitOf(b / 64);
    DigitOf(b / 8 % 8);
    DigitOf(b % 8);
    var d, e, f := OctalDigit(b / 64), OctalDigit(b / 8 % 8), OctalDigit(b % 8);
    assert [] + [d] == [d] && [d] + [e] == [d, e] && [d, e] + [f] == [d, e, f];
    OctalValueSnoc([], d);
    OctalValueSnoc([d], e);
    OctalValueSnoc([d, e], f);
    assert [] + [e] == [e] && [e] + [f] == [e, f];
    OctalValueSnoc([], e);
    OctalValueSnoc([e], f);
  }

  lemma OctalByteIs(b: byte)
    ensures OctalByte(b) == ['\\', OctalDigit(b / 64), OctalDigit(b / 8 % 8), OctalDigit(b % 8)]
  {
  }

  lemma DecodeStep(s: string, leadingZero: bool)
    requires s != "" && s[0] == '\\'
    ensures var skip := if leadingZero && |s| > 1 && s[1] == '0' then 2 else 1;
            var n := DigitCount(s[skip..], 3);
            n > 0 ==>
              Decode(s, leadingZero) ==
              match Decode(s[skip + n..], leadingZero)
              case None => None
              case Some(rest) => Some([OctalValue(s[skip..skip + n]) % 256] + rest)
  {
    hide OctalValue;
  }

  /** One escape in front of other escapes. */
  lemma DecodeOne(b: byte, rest: string, leadingZero: bool)
    requires rest == "" || rest[0] == '\\'
    ensures Decode(OctalByte(b) + rest, leadingZero)
         == match Decode(rest, leadingZero) case None => None case Some(bs) => Some([b] + bs)
  {
    hide *;
    var d, e, f := OctalDigit(b / 64), OctalDigit(b / 8 % 8), OctalDigit(b % 8);
    var s := OctalByte(b) + rest;
    OctalOf(b);
    CountDigits([d, e, f], rest, 3);
    CountDigits([e, f], rest, 3);
    OctalByteIs(b);
    DecodeStep(s, leadingZero);
    Slices('\\', d, e, f, rest);
  }

  lemma Slices(c: char, d: char, e: char, f: char, rest: string)
    ensures var s := [c, d, e, f] + rest;
            && s[1..] == [d, e, f] + rest && s[2..] == [e, f] + rest && s[4..] == rest
            && s[1..4] == [d, e, f] && s[2..4] == [e, f]
  {
  }

  lemma OctalSnoc(payload: seq<byte>, b: byte)
    ensures Octal([]) == "" && Octal(payload + [b]) == Octal(payload) + OctalByte(b)
  {
    hide OctalByte;
    assert (payload + [b])[..|payload|] == payload;
  }

  lemma {:induction false} OctalCons(b: byte, payload: seq<byte>)
    ensures Octal([b] + payload) == OctalByte(b) + Octal(payload)
  {
    hide OctalByte, Octal;
    if payload == [] {
      OctalSnoc([], b);
      assert [b] + payload == [] + [b];
      assert "" + OctalByte(b) == OctalByte(b) + "";
    } else {
      var n := |payload| - 1;
      assert payload == payload[..n] + [payload[n]] && [b] + payload == ([b] + payload[..n]) + [payload[n]];
      OctalCons(b, payload[..n]);
      OctalSnoc(payload[..n], payload[n]);
      OctalSnoc([b] + payload[..n], payload[n]);
    }
  }

  lemma OctalStarts(payload: seq<byte>)
    ensures Octal(payload) == "" || Octal(payload)[0] == '\\'
  {
    if payload != [] {
      OctalCons(payload[0], payload[1..]);
      assert payload == [payload[0]] + payload[1..];
    }
  }

  /** Both readings of the escapes give back exactly the payload. */
  lemma {:induction false} OctalRoundTrip(payload: seq<byte>, leadingZero: bool)
    ensures Decode(Octal(payload), leadingZero) == Some(payload)
  {
    if payload != [] {
      hide OctalByte;
      assert payload == [payload[0]] + payload[1..];
      OctalCons(payload[0], payload[1..]);
      OctalStarts(payload[1..]);
      hide Octal;
      DecodeOne(payload[0], Octal(payload[1..]), leadingZero);
      OctalRoundTrip(payload[1..], leadingZero);
    }
  }

  /**
   * End to end, for every payload: the login shell hands /bin/sh a script; the script is eval of the output of
   * one command; and that command is printf with the format %b and a text which either reading of the escapes
   * decodes to exactly the payload.
   */
  lemma CommandCarriesPayload(payload: seq<byte>, leadingZero: bool)
    ensures exists script, text ::
              && Words(RemoteLine(payload)) == Some([SHELL, FLAG, script])
              && Parse(script) == Some(Command([EVAL, ""], [Substitution(1, 0, Command([PRINTF, FORMAT, text], []))]))
              && Decode(text, leadingZero) == Some(payload)
  {
    hide Words, Parse, Decode, RemoteLine, Script, Octal;
    RemoteCommandWords(payload);
    PrintfWords(payload);
    OctalRoundTrip(payload, leadingZero);
  }
}

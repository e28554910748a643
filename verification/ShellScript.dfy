/**
 What the lines of an example mean to the lexer: a grammar of scripts, and the
 proof that lexing a script's text gives the commands of the script.
 */
module ShellScript {
  import opened ShellLexer
  import opened Wrappers

  // ----- Words -----

  /** The parts that a word is written in. */
  datatype Part =
    | Letter(c: char)
    | Hash // inside a word
    | Lone(c: char) // a dollar sign or an angle that begins no construct
    | Backslashed(c: char)
    | InSingle(text: string)
    | InDouble(raw: string)
    | Continued
    | Parenthesis // a substitution begins
    | Tick
    | Angles // a here-string

  predicate IsLetter(c: char) {
    && c != ' ' && c != '\t' && c != '\n' && c != '\'' && c != '"' && c != '\\' && c != '#'
    && c != ';' && c != '&' && c != '|' && c != '`' && c != '$' && c != '<'
  }

  predicate Continues(raw: string) { |raw| > 1 && raw[0] == '\\' && raw[1] == '\n' }

  /** Text that stays between double quotes. */
  predicate StaysInside(raw: string)
    decreases |raw|
  {
    if raw == "" then true
    else if Continues(raw) || StartsPair(raw) then StaysInside(raw[2..])
    else raw[0] != '"' && raw != "\\" && StaysInside(raw[1..])
  }

  /** Its value: a pair stands for its second character, and an escaped line end for nothing. */
  function DoubleValue(raw: string): string
    decreases |raw|
  {
    if raw == "" then ""
    else if Continues(raw) then DoubleValue(raw[2..])
    else if StartsPair(raw) then [raw[1]] + DoubleValue(raw[2..])
    else [raw[0]] + DoubleValue(raw[1..])
  }

  function PartText(p: Part): string {
    match p
    case Letter(c) => [c]
    case Hash => "#"
    case Lone(c) => [c]
    case Backslashed(c) => ['\\', c]
    case InSingle(text) => "'" + text + "'"
    case InDouble(raw) => "\"" + raw + "\""
    case Continued => "\\\n"
    case Parenthesis => "$("
    case Tick => "`"
    case Angles => "<<<"
  }

  function PartValue(p: Part): string {
    match p
    case Letter(c) => [c]
    case Hash => "#"
    case Lone(c) => [c]
    case Backslashed(c) => [c]
    case InSingle(text) => text
    case InDouble(raw) => DoubleValue(raw)
    case Continued => ""
    case Parenthesis => "$("
    case Tick => "`"
    case Angles => ""
  }

  /** Parts that make a word, if only an empty one. */
  predicate Begins(p: Part) { !p.Continued? && !p.Angles? }

  /** Why a command with this part is not checked. */
  function PartReason(p: Part): Option<Reason> {
    match p
    case Parenthesis => Some(Substitution)
    case Tick => Some(Backtick)
    case Angles => Some(HereString)
    case _ => None
  }

  /** The part is read as itself before the text t, in a word or command that has begun or not. */
  predicate ValidPart(p: Part, t: string, inWord: bool, begun: bool) {
    match p
    case Letter(c) => IsLetter(c)
    case Hash => inWord
    case Lone(c) => (c == '$' && (t == "" || t[0] != '(')) || (c == '<' && (t == "" || t[0] != '<'))
    case Backslashed(c) => c != '\n'
    case InSingle(text) => '\'' !in text
    case InDouble(raw) => StaysInside(raw)
    case Continued => begun
    case _ => true
  }

  /** What a part does to the lexer. */
  function After(s: Lexer, p: Part): Lexer {
    s.(current := s.current + PartValue(p), hasToken := s.hasToken || Begins(p),
       unsupported := if PartReason(p).Some? then PartReason(p) else s.unsupported)
  }

  /** The line that goes on with the text t. */
  lemma LineOf(c: char, t: string)
    ensures ([c] + Head(t))[0] == c && ([c] + Head(t))[1..] == Head(t) && |[c] + Head(t)| == 1 + |Head(t)|
    ensures Head(t) == "" <==> t == "" || t[0] == '\n'
    ensures Head(t) != "" ==> ([c] + Head(t))[1] == t[0]
  {
  }

  predicate OneChar(p: Part) { p.Letter? || p.Hash? || p.Lone? || p.Tick? }

  lemma StepPlain(s: Lexer, p: Part, line: string, startLine: int, offset: nat)
    requires Plain(s) && OneChar(p) && line != "" && PartText(p) == [line[0]]
    requires ValidPart(p, line[1..], s.hasToken, s.hasToken || s.tokens != [])
    ensures Step(s, line, startLine, offset) == (After(s, p), line[1..])
  {
    hide FlushCommand, StepHeredoc, StepInDouble, FlushToken;
    assert |line| > 1 ==> line[1..][0] == line[1];
    assert [line[0]] == PartText(p);
  }

  lemma AtPlainPart(s: Lexer, p: Part, t: string, startLine: int, offset: nat)
    requires Plain(s) && OneChar(p) && ValidPart(p, t, s.hasToken, s.hasToken || s.tokens != [])
    ensures At(s, PartText(p) + t, startLine, offset) == At(After(s, p), t, startLine, offset)
  {
    var c := PartText(p)[0];
    LineOf(c, t);
    assert PartText(p) == [c] && c != '\n' && ValidPart(p, Head(t), s.hasToken, s.hasToken || s.tokens != []);
    hide At, Step, ValidPart, After, PartText;
    StepPlain(s, p, [c] + Head(t), startLine, offset);
    AtOne(s, c, t, startLine, offset);
  }

  /** Two characters that the lexer takes at once. */
  lemma AtPair(s: Lexer, c: char, d: char, t: string, startLine: int, offset: nat)
    requires c != '\n' && d != '\n' && Step(s, [c, d] + Head(t), startLine, offset).1 == Head(t)
    ensures At(s, [c, d] + t, startLine, offset) ==
              At(Step(s, [c, d] + Head(t), startLine, offset).0, t, startLine, offset)
  {
    var text := [c, d] + t;
    assert text == [c] + ([d] + t) && [c, d] + Head(t) == [c] + ([d] + Head(t));
    HeadTail(c, [d] + t);
    HeadTail(d, t);
    assert text[2..] == t && Head(text) == [c, d] + Head(t) && Head(text)[2..] == Head(t) && Tail(text) == Tail(t);
    AtStep(s, text, startLine, offset, 2);
  }

  lemma AtEscape(s: Lexer, c: char, t: string, startLine: int, offset: nat)
    requires Plain(s) && c != '\n'
    ensures At(s, ['\\', c] + t, startLine, offset) == At(Push(s, c), t, startLine, offset)
  {
    var line := ['\\', c] + Head(t);
    assert line[0] == '\\' && line[1] == c && line[2..] == Head(t);
    AtPair(s, '\\', c, t, startLine, offset);
  }

  lemma {:induction false} EscapeIsItself(text: string)
    requires '\'' !in text
    ensures Escape(text) == text
  {
    if text != "" {
      assert text[0] in text && text == [text[0]] + text[1..];
      EscapeIsItself(text[1..]);
    }
  }

  lemma AtSingle(s: Lexer, text: string, t: string, startLine: int, offset: nat)
    requires Plain(s) && '\'' !in text
    ensures At(s, "'" + text + "'" + t, startLine, offset) ==
              At(s.(current := s.current + text, hasToken := true), t, startLine, offset + Newlines(text))
  {
    hide At, Escape;
    EscapeIsItself(text);
    assert "'" + text + "'" + t == "'" + (text + "'" + t);
    AtOpenQuote(s, text + "'" + t, startLine, offset);
    AtEscaped(s.(quote := Some('\''), hasToken := true), text, t, startLine, offset);
  }

  /** A line that ends in a backslash goes on with the next. */
  lemma AtContinued(s: Lexer, t: string, startLine: int, offset: nat)
    requires (Plain(s) && (s.hasToken || s.tokens != [])) || InDoubleString(s)
    ensures At(s, "\\\n" + t, startLine, offset) == At(s, t, startLine, offset + 1)
  {
    var text := "\\\n" + t;
    assert text == ['\\'] + ("\n" + t) && ("\n" + t)[1..] == t;
    HeadTail('\\', "\n" + t);
    assert Head(text) == "\\" && Tail(text) == SplitLines(t);
    var next := s.(continuation := true);
    assert Step(s, "\\", startLine, offset) == (next, "");
    assert LexRest(s, "\\", startLine, offset) == next;
    assert EndLine(next, startLine, offset) == s && BeginLine(s, offset + 1) == s;
    var lines := SplitLines(t);
    assert lines[0] == Head(t) && lines[1..] == Tail(t);
  }

  ghost predicate InDoubleString(s: Lexer) {
    s.quote == Some('"') && !s.comment && s.hasToken && s.heredocBody == [] && !s.continuation
  }

  lemma AtDoubleNewline(s: Lexer, t: string, startLine: int, offset: nat)
    requires InDoubleString(s)
    ensures At(s, "\n" + t, startLine, offset) == At(s.(current := s.current + "\n"), t, startLine, offset + 1)
  {
    var text := "\n" + t;
    assert text[1..] == t && Head(text) == "" && Tail(text) == SplitLines(t);
    var next := s.(current := s.current + "\n");
    assert EndLine(s, startLine, offset) == next;
    var lines := SplitLines(t);
    assert lines[0] == Head(t) && lines[1..] == Tail(t);
    assert BeginLine(next, offset + 1) == next;
  }

  lemma AtDoublePair(s: Lexer, d: char, t: string, startLine: int, offset: nat)
    requires InDoubleString(s) && EscapedInDouble(d)
    ensures At(s, ['\\', d] + t, startLine, offset) == At(s.(current := s.current + [d]), t, startLine, offset)
  {
    var line := ['\\', d] + Head(t);
    assert line[0] == '\\' && line[1] == d && line[2..] == Head(t);
    AtPair(s, '\\', d, t, startLine, offset);
  }

  /** Any other character, a backslash before one it does not escape included. */
  lemma AtDoubleChar(s: Lexer, c: char, t: string, startLine: int, offset: nat)
    requires InDoubleString(s) && c != '"' && c != '\n'
    requires c == '\\' ==> t != "" && t[0] != '\n' && !EscapedInDouble(t[0])
    ensures At(s, [c] + t, startLine, offset) == At(s.(current := s.current + [c]), t, startLine, offset)
  {
    LineOf(c, t);
    AtOne(s, c, t, startLine, offset);
  }

  lemma AtDoubleClose(s: Lexer, t: string, startLine: int, offset: nat)
    requires InDoubleString(s)
    ensures At(s, "\"" + t, startLine, offset) == At(s.(quote := None), t, startLine, offset)
  {
    LineOf('"', t);
    AtOne(s, '"', t, startLine, offset);
  }

  /** The text between double quotes adds its value. */
  lemma {:induction false} AtInside(s: Lexer, raw: string, t: string, startLine: int, offset: nat)
    requires InDoubleString(s) && StaysInside(raw)
    ensures At(s, raw + "\"" + t, startLine, offset) ==
              At(s.(current := s.current + DoubleValue(raw), quote := None), t, startLine, offset + Newlines(raw))
    decreases |raw|
  {
    hide At, Newlines;
    if raw == "" {
      assert raw + "\"" + t == "\"" + t && s.current + DoubleValue(raw) == s.current;
      NewlinesOf(raw);
      AtDoubleClose(s, t, startLine, offset);
    } else if Continues(raw) {
      var more := raw[2..] + "\"" + t;
      assert raw + "\"" + t == "\\\n" + more;
      NewlinesOf(raw);
      NewlinesOf(raw[1..]);
      AtContinued(s, more, startLine, offset);
      AtInside(s, raw[2..], t, startLine, offset + 1);
    } else if StartsPair(raw) {
      var more := raw[2..] + "\"" + t;
      assert raw + "\"" + t == ['\\', raw[1]] + more;
      NewlinesOf(raw);
      NewlinesOf(raw[1..]);
      AtDoublePair(s, raw[1], more, startLine, offset);
      AtInside(s.(current := s.current + [raw[1]]), raw[2..], t, startLine, offset);
      Assoc(s.current, [raw[1]], DoubleValue(raw[2..]));
    } else {
      var more := raw[1..] + "\"" + t;
      assert raw + "\"" + t == [raw[0]] + more;
      NewlinesOf(raw);
      if raw[0] == '\n' {
        assert [raw[0]] + more == "\n" + more;
        AtDoubleNewline(s, more, startLine, offset);
      } else {
        AtDoubleChar(s, raw[0], more, startLine, offset);
      }
      AtInside(s.(current := s.current + [raw[0]]), raw[1..], t, startLine, offset + if raw[0] == '\n' then 1 else 0);
      Assoc(s.current, [raw[0]], DoubleValue(raw[1..]));
    }
  }

  lemma NewlinesOf(raw: string)
    ensures Newlines(raw) == if raw == "" then 0 else (if raw[0] == '\n' then 1 else 0) + Newlines(raw[1..])
    ensures |raw| > 1 ==> raw[1..][1..] == raw[2..]
  {
  }

  lemma AtOpenDouble(s: Lexer, t: string, startLine: int, offset: nat)
    requires Plain(s)
    ensures At(s, "\"" + t, startLine, offset) == At(s.(quote := Some('"'), hasToken := true), t, startLine, offset)
  {
    LineOf('"', t);
    AtOne(s, '"', t, startLine, offset);
  }

  lemma AtDouble(s: Lexer, raw: string, t: string, startLine: int, offset: nat)
    requires Plain(s) && StaysInside(raw)
    ensures At(s, "\"" + raw + "\"" + t, startLine, offset) ==
              At(s.(current := s.current + DoubleValue(raw), hasToken := true), t, startLine, offset + Newlines(raw))
  {
    hide At, StaysInside;
    assert "\"" + raw + "\"" + t == "\"" + (raw + "\"" + t);
    AtOpenDouble(s, raw + "\"" + t, startLine, offset);
    AtInside(s.(quote := Some('"'), hasToken := true), raw, t, startLine, offset);
  }

  lemma AtParenthesis(s: Lexer, t: string, startLine: int, offset: nat)
    requires Plain(s)
    ensures At(s, "$(" + t, startLine, offset) == At(After(s, Parenthesis), t, startLine, offset)
  {
    hide At, FlushCommand, StepHeredoc, StepInDouble;
    var more, open := ['('] + t, Push(s.(unsupported := Some(Substitution)), '$');
    assert "$(" + t == ['$'] + more;
    HeadTail('(', t);
    LineOf('$', more);
    LineOf('(', t);
    AtOne(s, '$', more, startLine, offset);
    AtOne(open, '(', t, startLine, offset);
    assert Push(open, '(') == After(s, Parenthesis) by { assert s.current + "$" + "(" == s.current + "$("; }
  }

  lemma AtAngles(s: Lexer, t: string, startLine: int, offset: nat)
    requires Plain(s)
    ensures At(s, "<<<" + t, startLine, offset) == At(After(s, Angles), t, startLine, offset)
  {
    var text := "<<<" + t;
    assert text == ['<'] + (['<'] + (['<'] + t));
    HeadTail('<', ['<'] + (['<'] + t));
    HeadTail('<', ['<'] + t);
    HeadTail('<', t);
    var line := Head(text);
    assert line == "<<<" + Head(t) && line[3..] == Head(t) && text[3..] == t && Tail(text) == Tail(t);
    assert StepUnquoted(s, line, startLine, offset) == StepHeredoc(s, line, offset);
    assert s.current + "" == s.current;
    AtStep(s, text, startLine, offset, 3);
  }

  /** A part, lexed where words may stand, does what its value and its reason say. */
  lemma AtPart(s: Lexer, p: Part, t: string, startLine: int, offset: nat)
    requires Plain(s) && ValidPart(p, t, s.hasToken, s.hasToken || s.tokens != [])
    ensures At(s, PartText(p) + t, startLine, offset) ==
              At(After(s, p), t, startLine, offset + Newlines(PartText(p)))
  {
    hide At, Newlines, StaysInside, DoubleValue, Plain;
    PartNewlines(p, t, s.hasToken, s.hasToken || s.tokens != []);
    match p
    case Backslashed(c) => AtEscape(s, c, t, startLine, offset);
    case InSingle(text) => AtSingle(s, text, t, startLine, offset);
    case InDouble(raw) => AtDouble(s, raw, t, startLine, offset);
    case Continued =>
      assert s.current + "" == s.current;
      AtContinued(s, t, startLine, offset);
    case Parenthesis => AtParenthesis(s, t, startLine, offset);
    case Angles => AtAngles(s, t, startLine, offset);
    case _ => AtPlainPart(s, p, t, startLine, offset);
  }

  lemma {:induction false} NewlinesConcat(a: string, b: string)
    ensures Newlines(a + b) == Newlines(a) + Newlines(b)
  {
    if a == "" {
      assert a + b == b;
    } else {
      assert (a + b)[1..] == a[1..] + b;
      NewlinesConcat(a[1..], b);
    }
  }

  lemma PartNewlines(p: Part, t: string, inWord: bool, begun: bool)
    requires ValidPart(p, t, inWord, begun)
    ensures Newlines(PartText(p)) ==
              match p
              case InSingle(text) => Newlines(text)
              case InDouble(raw) => Newlines(raw)
              case Continued => 1
              case _ => 0
  {
    match p
    case InSingle(text) =>
      NewlinesConcat("'" + text, "'");
      NewlinesConcat("'", text);
    case InDouble(raw) =>
      NewlinesConcat("\"" + raw, "\"");
      NewlinesConcat("\"", raw);
    case Continued =>
      NewlinesOf("\\\n");
      assert "\\\n"[1..] == "\n";
    case _ => NoNewline(PartText(p));
  }

  // ----- Words and commands -----

  type Parts = seq<Part>

  function WordText(word: Parts): string {
    if word == [] then "" else PartText(word[0]) + WordText(word[1..])
  }

  function WordValue(word: Parts): string {
    if word == [] then "" else PartValue(word[0]) + WordValue(word[1..])
  }

  /** There is a word, if only an empty one. */
  predicate IsWord(word: Parts) { word != [] && (Begins(word[0]) || IsWord(word[1..])) }

  /** The last reason counts. */
  function WordReason(word: Parts, before: Option<Reason>): Option<Reason> {
    if word == [] then before
    else WordReason(word[1..], if PartReason(word[0]).Some? then PartReason(word[0]) else before)
  }

  predicate ValidWord(word: Parts, inWord: bool, begun: bool) {
    word == [] ||
    (&& ValidPart(word[0], WordText(word[1..]) + " ", inWord, begun)
     && ValidWord(word[1..], inWord || Begins(word[0]), begun || Begins(word[0])))
  }

  function AfterWord(s: Lexer, word: Parts): Lexer {
    s.(current := s.current + WordValue(word), hasToken := s.hasToken || IsWord(word),
       unsupported := WordReason(word, s.unsupported))
  }

  /** A part only looks one character ahead. */
  lemma LooksAhead(p: Part, t: string, more: string, inWord: bool, begun: bool)
    requires t != ""
    ensures ValidPart(p, t + more, inWord, begun) <==> ValidPart(p, t, inWord, begun)
  {
  }

  lemma {:induction false} AtParts(s: Lexer, word: Parts, t: string, startLine: int, offset: nat)
    requires Plain(s) && ValidWord(word, s.hasToken, s.hasToken || s.tokens != [])
    ensures At(s, WordText(word) + (" " + t), startLine, offset) ==
              At(AfterWord(s, word), " " + t, startLine, offset + Newlines(WordText(word)))
    decreases |word|
  {
    hide At, Newlines, ValidPart, PartText, PartValue, PartReason, Begins;
    if word == [] {
      assert WordText(word) + (" " + t) == " " + t && s.current + WordValue(word) == s.current;
      NewlinesOf("");
    } else {
      var p, rest := word[0], WordText(word[1..]);
      Assoc(PartText(p), rest, " " + t);
      Assoc(rest, " ", t);
      LooksAhead(p, rest + " ", t, s.hasToken, s.hasToken || s.tokens != []);
      AtPart(s, p, rest + (" " + t), startLine, offset);
      AtParts(After(s, p), word[1..], t, startLine, offset + Newlines(PartText(p)));
      NewlinesConcat(PartText(p), rest);
      Assoc(s.current, PartValue(p), WordValue(word[1..]));
    }
  }

  type Words = seq<Parts>

  /** The words of a command, each followed by a blank. */
  function CommandText(command: Words): string {
    if command == [] then "" else WordText(command[0]) + " " + CommandText(command[1..])
  }

  function CommandValue(command: Words): seq<string> {
    if command == [] then []
    else (if IsWord(command[0]) then [WordValue(command[0])] else []) + CommandValue(command[1..])
  }

  function CommandReason(command: Words, before: Option<Reason>): Option<Reason> {
    if command == [] then before else CommandReason(command[1..], WordReason(command[0], before))
  }

  predicate ValidCommand(command: Words, begun: bool) {
    command == [] ||
    (ValidWord(command[0], false, begun) && ValidCommand(command[1..], begun || IsWord(command[0])))
  }

  /** A word may start. */
  ghost predicate Between(s: Lexer) { Plain(s) && !s.hasToken && s.current == "" && s.pendingHeredocs == [] }

  function AfterWords(s: Lexer, command: Words): Lexer {
    s.(tokens := s.tokens + CommandValue(command), unsupported := CommandReason(command, s.unsupported))
  }

  function AfterOneWord(s: Lexer, word: Parts): Lexer {
    s.(tokens := if IsWord(word) then s.tokens + [WordValue(word)] else s.tokens,
       unsupported := WordReason(word, s.unsupported))
  }

  lemma WordEnds(s: Lexer, word: Parts)
    requires !s.hasToken && s.current == ""
    ensures FlushToken(AfterWord(s, word)) == AfterOneWord(s, word)
  {
    assert s.current + WordValue(word) == WordValue(word);
    hide WordValue, IsWord, WordReason;
  }

  lemma AtOneWord(s: Lexer, word: Parts, t: string, startLine: int, offset: nat)
    requires Between(s) && ValidWord(word, false, s.tokens != [])
    ensures At(s, WordText(word) + (" " + t), startLine, offset) ==
              At(AfterOneWord(s, word), t, startLine, offset + Newlines(WordText(word)))
  {
    hide At, Newlines, WordText, WordValue, WordReason, ValidWord, IsWord, FlushToken;
    AtParts(s, word, t, startLine, offset);
    AtBlank(AfterWord(s, word), t, startLine, offset + Newlines(WordText(word)));
    WordEnds(s, word);
  }

  lemma {:induction false} AtCommand(s: Lexer, command: Words, t: string, startLine: int, offset: nat)
    requires Between(s) && ValidCommand(command, s.tokens != [])
    ensures At(s, CommandText(command) + t, startLine, offset) ==
              At(AfterWords(s, command), t, startLine, offset + Newlines(CommandText(command)))
    decreases |command|
  {
    hide At, Newlines, WordText, ValidWord, IsWord, WordValue, WordReason;
    if command == [] {
      assert CommandText(command) + t == t && s.tokens + [] == s.tokens;
      NewlinesOf("");
    } else {
      var word, rest := command[0], CommandText(command[1..]);
      var next := AfterOneWord(s, word);
      Assoc(WordText(word) + " ", rest, t);
      Assoc(WordText(word), " ", rest + t);
      AtOneWord(s, word, rest + t, startLine, offset);
      AtCommand(next, command[1..], t, startLine, offset + Newlines(WordText(word)));
      NewlinesConcat(WordText(word) + " ", rest);
      NewlinesConcat(WordText(word), " ");
      NoNewline(" ");
      Assoc(s.tokens, if IsWord(word) then [WordValue(word)] else [], CommandValue(command[1..]));
      assert next.tokens == s.tokens + if IsWord(word) then [WordValue(word)] else [];
    }
  }

  // ----- What ends a command -----

  /** A here document is taken for the last thing on its line. */
  datatype Ending =
    | Operator(text: string)
    | NewLine
    | Comment(text: string)
    | Here(dash: bool, blanks: string, pieces: seq<Piece>, body: seq<string>, last: string)

  /** The lines of a text, each with its end. */
  function LinesText(lines: seq<string>): string {
    if lines == [] then "" else lines[0] + "\n" + LinesText(lines[1..])
  }

  function HereText(operand: string, rest: string): string { "<<" + operand + "\n" + rest }

  function EndingText(e: Ending): string {
    match e
    case Operator(text) => text + " "
    case NewLine => "\n"
    case Comment(text) => "#" + text + "\n"
    case Here(dash, blanks, pieces, body, last) =>
      HereText(Operand(dash, blanks, SpelledAll(pieces)), LinesText(body + [last]))
  }

  /** The lines of a document: the last one, and no other, ends it. */
  ghost predicate DocumentLines(h: Heredoc, body: seq<string>, last: string) {
    && (forall l :: l in body + [last] ==> '\n' !in l)
    && (forall raw :: raw in body ==> !EndsBody(h, raw)) && EndsBody(h, last)
  }

  ghost predicate ValidEnding(e: Ending) {
    match e
    case Operator(text) => text == ";" || text == "&" || text == "&&" || text == "|" || text == "||"
    case NewLine => true
    case Comment(text) => '\n' !in text
    case Here(dash, blanks, pieces, body, last) =>
      var operand, h := Operand(dash, blanks, SpelledAll(pieces)), Heredoc(LiteralAll(pieces), dash, 0);
      && ValidPieces(pieces) && LiteralAll(pieces) != "" && Lead(dash, blanks, SpelledAll(pieces))
      && '\n' !in operand && operand[0] != '<' && DocumentLines(h, body, last)
  }

  lemma FlushedBetween(s: Lexer, startLine: int, offset: nat)
    requires Between(s)
    ensures Between(FlushCommand(s, startLine, offset))
    ensures FlushToken(FlushCommand(s, startLine, offset)) == FlushCommand(s, startLine, offset)
  {
  }

  lemma AtOperator(s: Lexer, text: string, t: string, startLine: int, offset: nat)
    requires Between(s) && ValidEnding(Operator(text))
    ensures At(s, text + (" " + t), startLine, offset) == At(FlushCommand(s, startLine, offset), t, startLine, offset)
  {
    var next := FlushCommand(s, startLine, offset);
    hide At, FlushCommand, StepHeredoc, StepInDouble;
    FlushedBetween(s, startLine, offset);
    var c, more := text[0], " " + t;
    if |text| == 1 {
      LineOf(c, more);
      assert text + more == [c] + more;
      AtOne(s, c, more, startLine, offset);
    } else {
      assert text + more == [c, c] + more;
      var line := [c, c] + Head(more);
      assert line[0] == c && line[1] == c && line[2..] == Head(more);
      AtPair(s, c, c, more, startLine, offset);
    }
    AtBlank(next, t, startLine, offset);
  }

  /** A line is over, and so is the command on it. */
  function NextLine(s: Lexer, startLine: int, offset: nat): Lexer {
    BeginLine(FlushCommand(s, startLine, offset), offset + 1)
  }

  lemma {:induction false} FirstLine(line: string, t: string)
    requires '\n' !in line
    ensures Head(line + "\n" + t) == line && Tail(line + "\n" + t) == SplitLines(t)
    decreases |line|
  {
    var text := line + "\n" + t;
    if line == "" {
      assert text[1..] == t;
    } else {
      assert text[0] in line && text[1..] == line[1..] + "\n" + t && line == [line[0]] + line[1..];
      FirstLine(line[1..], t);
    }
  }

  /** A whole line is lexed, and the lines after it. */
  lemma AtWholeLine(s: Lexer, line: string, t: string, startLine: int, offset: nat)
    requires '\n' !in line
    ensures At(s, line + "\n" + t, startLine, offset) ==
              LexLines(EndLine(LexRest(s, line, startLine, offset), startLine, offset),
                       SplitLines(t), startLine, offset + 1)
  {
    hide EndLine, LexLines, LexRest, SplitLines, Head, Tail;
    FirstLine(line, t);
  }

  lemma AtLineEnd(s: Lexer, t: string, startLine: int, offset: nat)
    ensures At(s, "\n" + t, startLine, offset) ==
              LexLines(EndLine(s, startLine, offset), SplitLines(t), startLine, offset + 1)
  {
    hide EndLine, LexLines, At, SplitLines;
    assert "" + "\n" + t == "\n" + t;
    AtWholeLine(s, "", t, startLine, offset);
  }

  lemma LinesGoOn(s: Lexer, t: string, startLine: int, offset: nat)
    ensures s.heredocBody == [] ==>
              LexLines(s, SplitLines(t), startLine, offset) == At(BeginLine(s, offset), t, startLine, offset)
  {
    var lines := SplitLines(t);
    assert lines[0] == Head(t) && lines[1..] == Tail(t);
    hide EndLine, LexRest;
  }

  lemma LineEnds(s: Lexer, startLine: int, offset: nat)
    requires Between(s)
    ensures EndLine(s, startLine, offset) == FlushCommand(s, startLine, offset)
    ensures EndLine(s.(comment := true), startLine, offset) == FlushCommand(s, startLine, offset)
    ensures FlushCommand(s, startLine, offset).heredocBody == []
  {
    FlushedBetween(s, startLine, offset);
    assert s.(comment := false, continuation := false) == s;
  }

  lemma AtNewLine(s: Lexer, t: string, startLine: int, offset: nat)
    requires Between(s)
    ensures At(s, "\n" + t, startLine, offset) == At(NextLine(s, startLine, offset), t, startLine, offset + 1)
  {
    assert NextLine(s, startLine, offset) == BeginLine(FlushCommand(s, startLine, offset), offset + 1);
    hide *;
    LineEnds(s, startLine, offset);
    AtLineEnd(s, t, startLine, offset);
    LinesGoOn(FlushCommand(s, startLine, offset), t, startLine, offset + 1);
  }

  lemma {:induction false} AtCommentText(s: Lexer, text: string, t: string, startLine: int, offset: nat)
    requires Between(s) && '\n' !in text
    ensures At(s.(comment := true), text + "\n" + t, startLine, offset) ==
              At(NextLine(s, startLine, offset), t, startLine, offset + 1)
    decreases |text|
  {
    if text == "" {
      assert text + "\n" + t == "\n" + t;
      AtCommentEnd(s, t, startLine, offset);
    } else {
      hide At, NextLine;
      var more := text[1..] + "\n" + t;
      assert text + "\n" + t == [text[0]] + more && text[0] in text;
      LineOf(text[0], more);
      AtOne(s.(comment := true), text[0], more, startLine, offset);
      AtCommentText(s, text[1..], t, startLine, offset);
    }
  }

  lemma AtCommentEnd(s: Lexer, t: string, startLine: int, offset: nat)
    requires Between(s)
    ensures At(s.(comment := true), "\n" + t, startLine, offset) ==
              At(NextLine(s, startLine, offset), t, startLine, offset + 1)
  {
    assert NextLine(s, startLine, offset) == BeginLine(FlushCommand(s, startLine, offset), offset + 1);
    hide *;
    LineEnds(s, startLine, offset);
    AtLineEnd(s.(comment := true), t, startLine, offset);
    LinesGoOn(FlushCommand(s, startLine, offset), t, startLine, offset + 1);
  }

  lemma AtComment(s: Lexer, text: string, t: string, startLine: int, offset: nat)
    requires Between(s) && ValidEnding(Comment(text))
    ensures At(s, "#" + text + "\n" + t, startLine, offset) ==
              At(NextLine(s, startLine, offset), t, startLine, offset + 1)
  {
    hide At, NextLine, FlushCommand, StepHeredoc, StepInDouble;
    var more := text + "\n" + t;
    assert "#" + text + "\n" + t == ['#'] + more;
    LineOf('#', more);
    AtOne(s, '#', more, startLine, offset);
    AtCommentText(s, text, t, startLine, offset);
  }

  // ----- Here documents -----

  lemma {:induction false} SplitText(lines: seq<string>, t: string)
    requires forall l :: l in lines ==> '\n' !in l
    ensures SplitLines(LinesText(lines) + t) == lines + SplitLines(t)
  {
    if lines == [] {
      assert LinesText(lines) + t == t;
    } else {
      assert lines[0] in lines;
      SplitText(lines[1..], t);
      FirstLine(lines[0], LinesText(lines[1..]) + t);
      assert LinesText(lines) + t == lines[0] + "\n" + (LinesText(lines[1..]) + t);
      assert lines == [lines[0]] + lines[1..];
    }
  }

  lemma {:induction false} LinesNewlines(lines: seq<string>)
    requires forall l :: l in lines ==> '\n' !in l
    ensures Newlines(LinesText(lines)) == |lines|
  {
    if lines != [] {
      assert lines[0] in lines;
      LinesNewlines(lines[1..]);
      NewlinesConcat(lines[0] + "\n", LinesText(lines[1..]));
      NewlinesConcat(lines[0], "\n");
      NoNewline(lines[0]);
    }
  }

  /** The operand opens the document h, whose lines come next; t is what follows them. */
  ghost predicate OpensHere(operand: string, h: Heredoc, body: seq<string>, last: string, rest: string, t: string) {
    && '\n' !in operand && operand != "" && operand[0] != '<' && HeredocWord(operand) == Word(h.delim, h.stripTabs, "")
    && DocumentLines(h, body, last) && rest == LinesText(body + [last]) + t
  }

  /** The operator's line ends the command, and the lines after it go to the document. */
  lemma AtHereLine(s: Lexer, operand: string, h: Heredoc, rest: string, startLine: int, offset: nat)
    requires Between(s) && '\n' !in operand && operand != "" && operand[0] != '<'
    requires HeredocWord(operand) == Word(h.delim, h.stripTabs, "") && h.startOffset == offset
    ensures At(s, HereText(operand, rest), startLine, offset) ==
              LexLines(FlushCommand(s, startLine, offset).(heredocBody := [h]), SplitLines(rest), startLine, offset + 1)
  {
    assert HereText(operand, rest) == "<<" + operand + "\n" + rest;
    hide HeredocWord, LexRest, EndLine, FlushCommand, LexLines, SplitLines, At, HereText;
    HeredocRest(s, operand, startLine, offset);
    HeredocLineEnds(s, h, startLine, offset);
    AtWholeLine(s, "<<" + operand, rest, startLine, offset);
  }

  /** The document's lines change nothing else, and what follows them is lexed as after a line end. */
  lemma AtHereBody(s: Lexer, operand: string, h: Heredoc, body: seq<string>, last: string, rest: string, t: string,
      startLine: int, offset: nat)
    requires s.heredocBody == [] && OpensHere(operand, h, body, last, rest, t)
    ensures LexLines(s.(heredocBody := [h]), SplitLines(rest), startLine, offset) ==
              At(BeginLine(s, offset + |body| + 1), t, startLine, offset + |body| + 1)
  {
    var lines := body + [last];
    hide LexLines, LinesText, BeginLine, SplitLines, EndsBody, At, HeredocWord;
    SplitText(lines, t);
    LexLinesAppend(s.(heredocBody := [h]), lines, SplitLines(t), startLine, offset);
    BodyIsSkipped(s, body, last, h, startLine, offset);
    LinesGoOn(s, t, startLine, offset + |body| + 1);
  }

  lemma AtHere(s: Lexer, operand: string, h: Heredoc, body: seq<string>, last: string, rest: string, t: string,
      startLine: int, offset: nat)
    requires Between(s) && OpensHere(operand, h, body, last, rest, t) && h.startOffset == offset
    ensures At(s, HereText(operand, rest), startLine, offset) ==
              At(BeginLine(FlushCommand(s, startLine, offset), offset + |body| + 2), t, startLine, offset + |body| + 2)
  {
    hide At, LexLines, SplitLines, FlushCommand, BeginLine, HereText, HeredocWord, EndLine;
    LineEnds(s, startLine, offset);
    AtHereLine(s, operand, h, rest, startLine, offset);
    hide *;
    AtHereBody(FlushCommand(s, startLine, offset), operand, h, body, last, rest, t, startLine, offset + 1);
  }

  // ----- Scripts -----

  /** A command and what ends it. */
  datatype Clause = Clause(command: Words, ending: Ending)

  ghost predicate ValidClause(c: Clause) { ValidCommand(c.command, false) && ValidEnding(c.ending) }

  function ScriptText(script: seq<Clause>): string {
    if script == [] then ""
    else CommandText(script[0].command) + (EndingText(script[0].ending) + ScriptText(script[1..]))
  }

  /** The line on which the clause after this one starts. */
  function NextOffset(c: Clause, offset: nat): nat {
    offset + Newlines(CommandText(c.command)) + Newlines(EndingText(c.ending))
  }

  /** The command that a list of words is, if it is one, with its lines. */
  function Found(command: Words, startLine: int, offset: nat): seq<Command> {
    if CommandValue(command) == [] then []
    else [Command(CommandValue(command), startLine + offset, startLine + offset + Newlines(CommandText(command)),
                  CommandReason(command, None))]
  }

  /** The commands of a script, and the line it leads to. */
  function AllFound(script: seq<Clause>, startLine: int, offset: nat): seq<Command> {
    if script == [] then []
    else Found(script[0].command, startLine, offset) + AllFound(script[1..], startLine, NextOffset(script[0], offset))
  }

  function ScriptEnd(script: seq<Clause>, offset: nat): nat {
    if script == [] then offset else ScriptEnd(script[1..], NextOffset(script[0], offset))
  }

  /** The commands that are not checked. */
  function Unchecked(commands: seq<Command>): seq<Command> {
    if commands == [] then []
    else (if commands[0].unsupported.Some? then [commands[0]] else []) + Unchecked(commands[1..])
  }

  lemma {:induction false} UncheckedConcat(a: seq<Command>, b: seq<Command>)
    ensures Unchecked(a + b) == Unchecked(a) + Unchecked(b)
  {
    if a == [] {
      assert a + b == b;
    } else {
      assert (a + b)[1..] == a[1..] + b;
      UncheckedConcat(a[1..], b);
    }
  }

  /** Nothing of a command has been read, and the next one starts on this line. */
  ghost predicate Fresh(s: Lexer, offset: nat) {
    Between(s) && s.tokens == [] && s.unsupported.None? && s.currentStart == offset
  }

  function Has(s: Lexer, found: seq<Command>, next: nat): Lexer {
    s.(commands := s.commands + found, unverified := s.unverified + Unchecked(found), currentStart := next)
  }

  /** What flushing adds to the commands. */
  function Flushed(s: Lexer, startLine: int, offset: nat): seq<Command> {
    if s.tokens == [] then [] else [Command(s.tokens, startLine + s.currentStart, startLine + offset, s.unsupported)]
  }

  lemma FlushAdds(s: Lexer, startLine: int, offset: nat)
    requires !s.hasToken && s.current == ""
    ensures FlushCommand(s, startLine, offset) ==
              Has(s, Flushed(s, startLine, offset), offset).(tokens := [], unsupported := None)
  {
    var found := Flushed(s, startLine, offset);
    assert FlushToken(s) == s;
    assert s.commands + [] == s.commands && s.unverified + [] == s.unverified;
    UncheckedOne(found);
    hide FlushToken, Unchecked;
  }

  lemma UncheckedOne(found: seq<Command>)
    requires |found| <= 1
    ensures Unchecked(found) == if found != [] && found[0].unsupported.Some? then found else []
  {
    if found != [] { assert found[1..] == []; }
  }

  lemma CommandFlushed(s: Lexer, command: Words, startLine: int, offset: nat)
    requires Fresh(s, offset)
    ensures
      var end := offset + Newlines(CommandText(command));
      FlushCommand(AfterWords(s, command), startLine, end) == Has(s, Found(command, startLine, offset), end)
  {
    var end, after := offset + Newlines(CommandText(command)), AfterWords(s, command);
    hide CommandValue, CommandReason, Newlines, CommandText, Unchecked, FlushCommand;
    assert s.tokens + CommandValue(command) == CommandValue(command);
    FlushAdds(after, startLine, end);
    assert Flushed(after, startLine, end) == Found(command, startLine, offset);
  }

  lemma EndingNewlines(e: Ending)
    requires ValidEnding(e)
    ensures Newlines(EndingText(e)) ==
              match e
              case Operator(_) => 0
              case NewLine => 1
              case Comment(_) => 1
              case Here(_, _, _, body, _) => |body| + 2
  {
    hide EndsBody, Operand, Lead, ValidPieces, SpelledAll;
    match e
    case Operator(text) => NoNewline(text + " ");
    case NewLine => assert "\n"[1..] == "";
    case Comment(text) => LineNewlines("#" + text);
    case Here(dash, blanks, pieces, body, last) =>
      var line := "<<" + Operand(dash, blanks, SpelledAll(pieces));
      NewlinesConcat(line + "\n", LinesText(body + [last]));
      LineNewlines(line);
      LinesNewlines(body + [last]);
  }

  lemma LineNewlines(line: string)
    requires '\n' !in line
    ensures Newlines(line + "\n") == 1
  {
    NewlinesConcat(line, "\n");
    NoNewline(line);
    assert "\n"[1..] == "";
  }

  /** The start of the next command. */
  function AfterEnding(s: Lexer, startLine: int, offset: nat, lines: nat): Lexer {
    FlushCommand(s, startLine, offset).(currentStart := offset + lines)
  }

  /** The lexer goes on after the ending as at the start of the next command. */
  ghost predicate EndsAt(s: Lexer, e: Ending, t: string, startLine: int, offset: nat, lines: nat) {
    At(s, EndingText(e) + t, startLine, offset) ==
    At(AfterEnding(s, startLine, offset, lines), t, startLine, offset + lines)
  }

  lemma AtOperatorEnding(s: Lexer, e: Ending, t: string, startLine: int, offset: nat)
    requires Between(s) && e.Operator? && ValidEnding(e)
    ensures EndsAt(s, e, t, startLine, offset, 0)
  {
    StartsAt(s, startLine, offset, 0);
    Assoc(e.text, " ", t);
    hide At, FlushCommand, Between;
    AtOperator(s, e.text, t, startLine, offset);
  }

  lemma AtNewLineEnding(s: Lexer, t: string, startLine: int, offset: nat)
    requires Between(s)
    ensures EndsAt(s, NewLine, t, startLine, offset, 1)
  {
    StartsAt(s, startLine, offset, 1);
    hide At, FlushCommand, Between, BeginLine;
    AtNewLine(s, t, startLine, offset);
  }

  lemma AtCommentEnding(s: Lexer, e: Ending, t: string, startLine: int, offset: nat)
    requires Between(s) && e.Comment? && ValidEnding(e)
    ensures EndsAt(s, e, t, startLine, offset, 1)
  {
    StartsAt(s, startLine, offset, 1);
    hide At, FlushCommand, Between, BeginLine;
    AtComment(s, e.text, t, startLine, offset);
  }

  /** What ends a command leaves the lexer at the start of the next one. */
  lemma AtEnding(s: Lexer, e: Ending, t: string, startLine: int, offset: nat)
    requires Between(s) && ValidEnding(e)
    ensures EndsAt(s, e, t, startLine, offset, Newlines(EndingText(e)))
  {
    EndingNewlines(e);
    hide *;
    match e
    case Operator(_) => AtOperatorEnding(s, e, t, startLine, offset);
    case NewLine => AtNewLineEnding(s, t, startLine, offset);
    case Comment(_) => AtCommentEnding(s, e, t, startLine, offset);
    case Here(_, _, _, _, _) => AtHereEnding(s, e, t, startLine, offset);
  }

  lemma AtHereEnding(s: Lexer, e: Ending, t: string, startLine: int, offset: nat)
    requires Between(s) && e.Here? && ValidEnding(e)
    ensures EndsAt(s, e, t, startLine, offset, |e.body| + 2)
  {
    var operand, text := Operand(e.dash, e.blanks, SpelledAll(e.pieces)), LinesText(e.body + [e.last]);
    hide At, FlushCommand, BeginLine, LinesText, SpelledAll, Operand, HereText, OpensHere, Between;
    HereOpens(e, t, offset);
    HereTextPlus(operand, text, t);
    StartsAt(s, startLine, offset, |e.body| + 2);
    assert EndingText(e) == HereText(operand, text);
    hide EndingText;
    AtHere(s, operand, HereOf(e, offset), e.body, e.last, text + t, t, startLine, offset);
  }

  function HereOf(e: Ending, offset: nat): Heredoc
    requires e.Here?
  {
    Heredoc(LiteralAll(e.pieces), e.dash, offset)
  }

  lemma HereOpens(e: Ending, t: string, offset: nat)
    requires e.Here? && ValidEnding(e)
    ensures
      var operand, text := Operand(e.dash, e.blanks, SpelledAll(e.pieces)), LinesText(e.body + [e.last]);
      OpensHere(operand, HereOf(e, offset), e.body, e.last, text + t, t)
  {
    assert Operand(e.dash, e.blanks, SpelledAll(e.pieces)) != "";
    hide HeredocWord, Operand, SpelledAll, LiteralAll, Lead, DocumentLines, ValidPieces, LinesText;
    OperandReads(e.dash, e.blanks, e.pieces);
    SameLines(LiteralAll(e.pieces), e.dash, offset, e.body, e.last);
  }

  lemma HereTextPlus(operand: string, text: string, t: string)
    ensures HereText(operand, text) + t == HereText(operand, text + t)
  {
    Assoc("<<" + operand + "\n", text, t);
  }

  lemma SameLines(delim: string, dash: bool, offset: nat, body: seq<string>, last: string)
    ensures DocumentLines(Heredoc(delim, dash, 0), body, last) <==>
              DocumentLines(Heredoc(delim, dash, offset), body, last)
  {
    var a, b := Heredoc(delim, dash, 0), Heredoc(delim, dash, offset);
    assert forall raw :: EndsBody(a, raw) ==> EndsBody(b, raw);
    assert forall raw :: EndsBody(b, raw) ==> EndsBody(a, raw);
    hide EndsBody;
  }

  lemma StartsAt(s: Lexer, startLine: int, offset: nat, lines: nat)
    requires Between(s)
    ensures
      var flushed := FlushCommand(s, startLine, offset);
      && flushed.(currentStart := offset) == flushed
      && BeginLine(flushed, offset + lines) == flushed.(currentStart := offset + lines)
  {
  }

  lemma AtClause(s: Lexer, c: Clause, t: string, startLine: int, offset: nat)
    requires Fresh(s, offset) && ValidClause(c)
    ensures
      var next := NextOffset(c, offset);
      && Fresh(Has(s, Found(c.command, startLine, offset), next), next)
      && At(s, CommandText(c.command) + (EndingText(c.ending) + t), startLine, offset) ==
           At(Has(s, Found(c.command, startLine, offset), next), t, startLine, next)
  {
    hide At, Newlines, FlushCommand, CommandText, EndingText, ValidCommand, ValidEnding, Found, CommandValue,
         CommandReason;
    var end := offset + Newlines(CommandText(c.command));
    AtCommand(s, c.command, EndingText(c.ending) + t, startLine, offset);
    AtEnding(AfterWords(s, c.command), c.ending, t, startLine, end);
    CommandFlushed(s, c.command, startLine, offset);
  }

  ghost predicate ValidScript(script: seq<Clause>) { forall c :: c in script ==> ValidClause(c) }

  lemma {:induction false} AtScript(s: Lexer, script: seq<Clause>, t: string, startLine: int, offset: nat)
    requires Fresh(s, offset) && ValidScript(script)
    ensures
      var end, found := ScriptEnd(script, offset), AllFound(script, startLine, offset);
      && At(s, ScriptText(script) + t, startLine, offset) == At(Has(s, found, end), t, startLine, end)
      && Fresh(Has(s, found, end), end)
    decreases |script|
  {
    hide At, CommandText, EndingText, ValidClause, Found, CommandValue, CommandReason, NextOffset;
    if script == [] {
      assert ScriptText(script) + t == t && s.commands + [] == s.commands && s.unverified + [] == s.unverified;
    } else {
      var c, rest := script[0], ScriptText(script[1..]);
      var found, next := Found(c.command, startLine, offset), NextOffset(c, offset);
      assert ValidScript(script[1..]);
      Assoc(CommandText(c.command), EndingText(c.ending) + rest, t);
      Assoc(EndingText(c.ending), rest, t);
      AtClause(s, c, rest + t, startLine, offset);
      AtScript(Has(s, found, next), script[1..], t, startLine, next);
      var more := AllFound(script[1..], startLine, next);
      UncheckedConcat(found, more);
      Assoc(s.commands, found, more);
      Assoc(s.unverified, Unchecked(found), Unchecked(more));
    }
  }

  /** The lexer at the end of a script that is the start of a text. */
  lemma ScriptLexed(script: seq<Clause>, t: string, startLine: int) returns (s: Lexer, end: nat)
    requires ValidScript(script)
    ensures end == ScriptEnd(script, 0) && Fresh(s, end)
    ensures s.commands == AllFound(script, startLine, 0) && s.unverified == Unchecked(s.commands)
    ensures |SplitLines(ScriptText(script) + t)| > 0
    ensures LexLines(START, SplitLines(ScriptText(script) + t), startLine, 0) == At(s, t, startLine, end)
  {
    end, s := ScriptEnd(script, 0), HasRead(AllFound(script, startLine, 0), ScriptEnd(script, 0));
    hide At, ScriptText, AllFound, SplitLines, LexLines, Has, ScriptEnd, ValidScript;
    LexFromStart(ScriptText(script) + t, startLine);
    AtScript(START, script, t, startLine, 0);
  }

  /** The lexer's state once these commands have been found. */
  function HasRead(found: seq<Command>, end: nat): (s: Lexer)
    ensures s.commands == found && s.unverified == Unchecked(found) && Fresh(START, 0)
  {
    assert START.commands + found == found && START.unverified + Unchecked(found) == Unchecked(found);
    Has(START, found, end)
  }

  /** Nothing is left open. */
  lemma NothingLeft(s: Lexer, count: nat, startLine: int, offset: nat)
    requires Fresh(s, offset)
    ensures Finish(s, count, startLine) == Lexed(s.commands, [], s.unverified)
  {
  }

  /**
   Lexing the text of a script gives the script's commands: their words with the
   values of their parts, the lines they stand on, and whether they are checked.
   No separator, comment or body line becomes part of a command, and the text's
   end ends the last one.
   */
  lemma LexScript(script: seq<Clause>, last: Words, startLine: int)
    requires ValidScript(script) && ValidCommand(last, false)
    ensures
      var found := AllFound(script, startLine, 0) + Found(last, startLine, ScriptEnd(script, 0));
      Lex(SplitLines(ScriptText(script) + CommandText(last)), startLine) == Lexed(found, [], Unchecked(found))
  {
    hide *;
    var s, offset, end := ScriptAndLast(script, last, startLine);
    LexOf(s, ScriptText(script) + CommandText(last), startLine, end);
  }

  lemma ScriptAndLast(script: seq<Clause>, last: Words, startLine: int) returns (s: Lexer, offset: nat, end: nat)
    requires ValidScript(script) && ValidCommand(last, false)
    ensures Fresh(s, end)
    ensures s.commands == AllFound(script, startLine, 0) + Found(last, startLine, ScriptEnd(script, 0))
    ensures s.unverified == Unchecked(s.commands)
    ensures LexLines(START, SplitLines(ScriptText(script) + CommandText(last)), startLine, 0) == s
  {
    hide At, ScriptText, AllFound, Unchecked, SplitLines, LexLines, ValidScript, ValidCommand, CommandText, Found,
         START;
    var t := CommandText(last);
    s, offset := ScriptLexed(script, t, startLine);
    var found := Found(last, startLine, offset);
    end := offset + Newlines(t);
    AtLastCommand(s, last, startLine, offset);
    UncheckedConcat(s.commands, found);
    s := Has(s, found, end);
  }

  lemma AtLastCommand(s: Lexer, last: Words, startLine: int, offset: nat)
    requires Fresh(s, offset) && ValidCommand(last, false)
    ensures
      var end := offset + Newlines(CommandText(last));
      var next := Has(s, Found(last, startLine, offset), end);
      Fresh(next, end) && At(s, CommandText(last), startLine, offset) == next
  {
    var end := offset + Newlines(CommandText(last));
    hide At, ValidCommand, CommandText, Found, Newlines, FlushCommand, CommandValue, CommandReason;
    assert CommandText(last) + "" == CommandText(last);
    AtCommand(s, last, "", startLine, offset);
    AtEnd(AfterWords(s, last), startLine, end);
    CommandFlushed(s, last, startLine, offset);
  }

  lemma LexOf(s: Lexer, text: string, startLine: int, end: nat)
    requires Fresh(s, end) && LexLines(START, SplitLines(text), startLine, 0) == s
    ensures Lex(SplitLines(text), startLine) == Lexed(s.commands, [], s.unverified)
  {
    hide LexLines, SplitLines, START;
    NothingLeft(s, |SplitLines(text)|, startLine, end);
  }

  // ----- What stays open -----

  lemma {:induction false} AtUnclosed(s: Lexer, text: string, startLine: int, offset: nat)
    requires InString(s) && '\'' !in text
    ensures At(s, text, startLine, offset) == s.(current := s.current + text + "\n")
    decreases |text|
  {
    if text == "" {
      assert s.current + text == s.current;
    } else {
      hide At;
      var c, rest := text[0], text[1..];
      var next := s.(current := s.current + [c]);
      assert text == [c] + rest && c in text;
      if c == '\n' {
        assert text == "\n" + rest && next == s.(current := s.current + "\n");
        AtStringNewline(s, rest, startLine, offset);
        AtUnclosed(next, rest, startLine, offset + 1);
      } else {
        AtStringChar(s, c, rest, startLine, offset);
        AtUnclosed(next, rest, startLine, offset);
      }
      Assoc(s.current, [c], rest);
    }
  }

  /** A quote that nothing closes is reported, and the rest of the text is its command. */
  lemma OpenQuoteIsReported(script: seq<Clause>, text: string, startLine: int)
    requires ValidScript(script) && '\'' !in text
    ensures
      var lines := SplitLines(ScriptText(script) + ("'" + text));
      var end := startLine + |lines| - 1;
      var open := Command([text + "\n"], startLine + ScriptEnd(script, 0), end, None);
      var found := AllFound(script, startLine, 0);
      Lex(lines, startLine) == Lexed(found + [open], [UnterminatedQuote(end)], Unchecked(found))
  {
    hide At, ScriptText, AllFound, Unchecked, SplitLines, LexLines, ValidScript, START;
    var s, offset := ScriptLexed(script, "'" + text, startLine);
    hide *;
    QuoteStaysOpen(s, text, startLine, offset);
    LexOpenQuote(s, text, SplitLines(ScriptText(script) + ("'" + text)), startLine, offset);
  }

  /** The lexer once a text has ended inside quotes. */
  function InQuote(s: Lexer, text: string): Lexer {
    s.(quote := Some('\''), hasToken := true, current := s.current + text + "\n")
  }

  lemma QuoteStaysOpen(s: Lexer, text: string, startLine: int, offset: nat)
    requires Fresh(s, offset) && '\'' !in text
    ensures At(s, "'" + text, startLine, offset) == InQuote(s, text)
  {
    hide At;
    AtOpenQuote(s, text, startLine, offset);
    AtUnclosed(s.(quote := Some('\''), hasToken := true), text, startLine, offset);
  }

  lemma LexOpenQuote(s: Lexer, text: string, lines: seq<string>, startLine: int, offset: nat)
    requires Fresh(s, offset) && lines != [] && LexLines(START, lines, startLine, 0) == InQuote(s, text)
    ensures
      var end := startLine + |lines| - 1;
      Lex(lines, startLine) ==
        Lexed(s.commands + [Command([text + "\n"], startLine + offset, end, None)],
              [UnterminatedQuote(end)], s.unverified)
  {
    hide LexLines, START;
    OpenQuoteEnds(s, text, |lines|, startLine, offset);
  }

  lemma OpenQuoteEnds(s: Lexer, text: string, count: nat, startLine: int, offset: nat)
    requires Fresh(s, offset) && count > 0
    ensures
      var end := startLine + count - 1;
      Finish(InQuote(s, text), count, startLine) ==
        Lexed(s.commands + [Command([text + "\n"], startLine + offset, end, None)],
              [UnterminatedQuote(end)], s.unverified)
  {
    assert s.current + text + "\n" == text + "\n" && s.tokens + [text + "\n"] == [text + "\n"];
    assert startLine + s.currentStart == startLine + offset && startLine + (count - 1) == startLine + count - 1;
  }

  /** A document that no line ends is reported, and none of its lines is taken for a command. */
  lemma OpenHereIsReported(script: seq<Clause>, command: Words, operand: string, h: Heredoc, body: seq<string>,
      startLine: int)
    requires ValidScript(script) && ValidCommand(command, false)
    requires '\n' !in operand && operand != "" && operand[0] != '<'
    requires HeredocWord(operand) == Word(h.delim, h.stripTabs, "")
    requires h.startOffset == ScriptEnd(script, 0) + Newlines(CommandText(command))
    requires forall l :: l in body ==> '\n' !in l && !EndsBody(h, l)
    ensures
      var found := AllFound(script, startLine, 0) + Found(command, startLine, ScriptEnd(script, 0));
      Lex(SplitLines(ScriptText(script) + (CommandText(command) + HereText(operand, LinesText(body)))), startLine) ==
        Lexed(found, [UnterminatedHeredoc(startLine + h.startOffset, h.delim)], Unchecked(found))
  {
    hide At, ScriptText, AllFound, SplitLines, LexLines, ValidScript, ValidCommand, CommandText, Found, START,
         HeredocWord, HereText, LinesText, EndsBody, Unchecked, Newlines;
    var here := HereText(operand, LinesText(body));
    var s, offset := ScriptLexed(script, CommandText(command) + here, startLine);
    var found := Found(command, startLine, offset);
    var end := offset + Newlines(CommandText(command));
    CommandThenHere(s, command, operand, h, body, startLine, offset);
    UncheckedConcat(s.commands, found);
    var lines := SplitLines(ScriptText(script) + (CommandText(command) + here));
    OpenHereEnds(Has(s, found, end), h, |lines|, startLine, end);
  }

  lemma CommandThenHere(s: Lexer, command: Words, operand: string, h: Heredoc, body: seq<string>,
      startLine: int, offset: nat)
    requires Fresh(s, offset) && ValidCommand(command, false)
    requires '\n' !in operand && operand != "" && operand[0] != '<'
    requires HeredocWord(operand) == Word(h.delim, h.stripTabs, "")
    requires h.startOffset == offset + Newlines(CommandText(command))
    requires forall l :: l in body ==> '\n' !in l && !EndsBody(h, l)
    ensures
      var next := Has(s, Found(command, startLine, offset), h.startOffset);
      && Fresh(next, h.startOffset)
      && At(s, CommandText(command) + HereText(operand, LinesText(body)), startLine, offset) ==
           next.(heredocBody := [h])
  {
    hide At, FlushCommand, CommandText, HereText, ValidCommand, Found, CommandValue, CommandReason, SplitLines,
         LexLines, LinesText, EndsBody, HeredocWord, Newlines;
    AtCommand(s, command, HereText(operand, LinesText(body)), startLine, offset);
    AtHereLine(AfterWords(s, command), operand, h, LinesText(body), startLine, h.startOffset);
    CommandFlushed(s, command, startLine, offset);
    var next := Has(s, Found(command, startLine, offset), h.startOffset);
    StaysOpen(next.(heredocBody := [h]), operand, h, body, startLine, h.startOffset + 1);
  }

  lemma StaysOpen(s: Lexer, operand: string, h: Heredoc, body: seq<string>, startLine: int, offset: nat)
    requires s.heredocBody == [h] && HeredocWord(operand) == Word(h.delim, h.stripTabs, "")
    requires forall l :: l in body ==> '\n' !in l && !EndsBody(h, l)
    ensures LexLines(s, SplitLines(LinesText(body)), startLine, offset) == s
  {
    assert h.delim != "" && StripTabs("") == "";
    assert !EndsBody(h, "");
    assert LinesText(body) + "" == LinesText(body) && SplitLines("") == [""];
    var lines := body + [""];
    hide LexLines, SplitLines, LinesText, EndsBody, HeredocWord;
    SplitText(body, "");
    BodyEndsAtFirst(s, lines, |lines|, startLine, offset);
  }

  lemma OpenHereEnds(s: Lexer, h: Heredoc, count: nat, startLine: int, offset: nat)
    requires Fresh(s, offset)
    ensures Finish(s.(heredocBody := [h]), count, startLine) ==
              Lexed(s.commands, [UnterminatedHeredoc(startLine + h.startOffset, h.delim)], s.unverified)
  {
  }

  // ----- Two commands -----

  /** These commands have been read, and the next one starts there. */
  function Read(commands: seq<Command>, next: nat): Lexer { START.(commands := commands, currentStart := next) }

  function First(a: seq<string>, startLine: int): Command {
    Command(a, startLine, startLine + NewlinesIn(a), None)
  }

  function Second(a: seq<string>, b: seq<string>, startLine: int): Command {
    Command(b, startLine + NewlinesIn(a), startLine + NewlinesIn(a) + NewlinesIn(b), None)
  }

  lemma ReadFlushed(commands: seq<Command>, words: seq<string>, startLine: int, offset: nat, end: nat)
    requires words != []
    ensures FlushCommand(Read(commands, offset).(tokens := words), startLine, end) ==
              Read(commands + [Command(words, startLine + offset, startLine + end, None)], end)
  {
  }

  lemma ReadIsPlain(commands: seq<Command>, next: nat)
    ensures
      var s := Read(commands, next);
      && Plain(s) && !s.hasToken && s.current == "" && s.pendingHeredocs == []
      && s.commands == commands && s.unverified == [] && Between(s) && Fresh(s, next)
  {
  }

  /** Words read where a command may start are that command. */
  lemma WordsFlushed(commands: seq<Command>, words: seq<string>, startLine: int, offset: nat)
    requires words != []
    ensures
      var s, end := Read(commands, offset), offset + NewlinesIn(words);
      && Between(s.(tokens := s.tokens + words))
      && FlushCommand(s.(tokens := s.tokens + words), startLine, end) ==
           Read(commands + [Command(words, startLine + offset, startLine + end, None)], end)
  {
    hide NewlinesIn;
    assert [] + words == words;
    ReadFlushed(commands, words, startLine, offset, offset + NewlinesIn(words));
  }

  /** These words of the command after them have been read, too. */
  function Reading(commands: seq<Command>, offset: nat, words: seq<string>): Lexer {
    var s := Read(commands, offset);
    s.(tokens := s.tokens + words)
  }

  /** From here on the text is lexed as its rest is from there on. */
  ghost predicate GoesOn(s: Lexer, text: string, offset: nat, next: Lexer, rest: string, later: nat, startLine: int) {
    At(s, text, startLine, offset) == At(next, rest, startLine, later)
  }

  lemma WordsGoOn(commands: seq<Command>, words: seq<string>, rest: string, startLine: int, offset: nat)
    ensures GoesOn(Read(commands, offset), QuotedWords(words) + rest, offset,
                   Reading(commands, offset, words), rest, offset + NewlinesIn(words), startLine)
  {
    hide Read, At, QuotedWords, NewlinesIn, Between, Fresh, Plain;
    ReadIsPlain(commands, offset);
    AtQuotedWords(Read(commands, offset), words, rest, startLine, offset);
  }

  lemma OperatorGoesOn(commands: seq<Command>, words: seq<string>, operator: string, t: string,
      startLine: int, offset: nat)
    requires words != [] && ValidEnding(Operator(operator))
    ensures
      var end := offset + NewlinesIn(words);
      GoesOn(Reading(commands, offset, words), operator + (" " + t), end,
             Read(commands + [Command(words, startLine + offset, startLine + end, None)], end), t, end, startLine)
  {
    hide Read, At, NewlinesIn, Between, ValidEnding, FlushCommand;
    WordsFlushed(commands, words, startLine, offset);
    AtOperator(Reading(commands, offset, words), operator, t, startLine, offset + NewlinesIn(words));
  }

  lemma Onward(a: Lexer, x: string, m: nat, b: Lexer, y: string, n: nat, c: Lexer, z: string, k: nat, startLine: int)
    requires GoesOn(a, x, m, b, y, n, startLine) && GoesOn(b, y, n, c, z, k, startLine)
    ensures GoesOn(a, x, m, c, z, k, startLine)
  {
    hide At;
  }

  lemma CommandGoesOn(commands: seq<Command>, words: seq<string>, operator: string, t: string,
      startLine: int, offset: nat)
    requires words != [] && ValidEnding(Operator(operator))
    ensures
      var end := offset + NewlinesIn(words);
      GoesOn(Read(commands, offset), QuotedWords(words) + (operator + (" " + t)), offset,
             Read(commands + [Command(words, startLine + offset, startLine + end, None)], end), t, end, startLine)
  {
    hide *;
    var end := offset + NewlinesIn(words);
    WordsGoOn(commands, words, operator + (" " + t), startLine, offset);
    OperatorGoesOn(commands, words, operator, t, startLine, offset);
    Onward(Read(commands, offset), QuotedWords(words) + (operator + (" " + t)), offset,
           Reading(commands, offset, words), operator + (" " + t), end,
           Read(commands + [Command(words, startLine + offset, startLine + end, None)], end), t, end, startLine);
  }

  lemma SecondLexed(commands: seq<Command>, b: seq<string>, startLine: int, offset: nat)
    requires b != []
    ensures
      var end := offset + NewlinesIn(b);
      At(Read(commands, offset), QuotedLine(b), startLine, offset) ==
        Read(commands + [Command(b, startLine + offset, startLine + end, None)], end)
  {
    ReadIsPlain(commands, offset);
    WordsFlushed(commands, b, startLine, offset);
    hide *;
    AtWords(Read(commands, offset), b, startLine, offset);
  }

  /** Two commands of quoted words with an operator between them are two commands. */
  lemma LexTwo(a: seq<string>, operator: string, b: seq<string>, startLine: int)
    requires a != [] && b != [] && ValidEnding(Operator(operator))
    ensures Lex(SplitLines(QuotedWords(a) + (operator + (" " + QuotedLine(b)))), startLine) ==
              Lexed([First(a, startLine), Second(a, b, startLine)], [], [])
  {
    var text := QuotedWords(a) + (operator + (" " + QuotedLine(b)));
    TwoLexed(a, operator, b, startLine);
    var both, end := [First(a, startLine), Second(a, b, startLine)], NewlinesIn(a) + NewlinesIn(b);
    ReadIsPlain(both, end);
    hide *;
    LexOf(Read(both, end), text, startLine, end);
  }

  lemma TwoLexed(a: seq<string>, operator: string, b: seq<string>, startLine: int)
    requires a != [] && b != [] && ValidEnding(Operator(operator))
    ensures LexLines(START, SplitLines(QuotedWords(a) + (operator + (" " + QuotedLine(b)))), startLine, 0) ==
              Read([First(a, startLine), Second(a, b, startLine)], NewlinesIn(a) + NewlinesIn(b))
  {
    hide At, LexLines, SplitLines, QuotedWords, QuotedLine, NewlinesIn, Read, START, ValidEnding;
    FirstLexed(a, operator, QuotedLine(b), startLine);
    var first, second := First(a, startLine), Second(a, b, startLine);
    SecondLexed([first], b, startLine, NewlinesIn(a));
    assert [first] + [second] == [first, second];
  }

  lemma FirstLexed(a: seq<string>, operator: string, t: string, startLine: int)
    requires a != [] && ValidEnding(Operator(operator))
    ensures LexLines(START, SplitLines(QuotedWords(a) + (operator + (" " + t))), startLine, 0) ==
              At(Read([First(a, startLine)], NewlinesIn(a)), t, startLine, NewlinesIn(a))
  {
    hide At, LexLines, SplitLines, QuotedWords, NewlinesIn, ValidEnding;
    assert START == Read([], 0) && [] + [First(a, startLine)] == [First(a, startLine)];
    hide Read, START;
    LexFromStart(QuotedWords(a) + (operator + (" " + t)), startLine);
    CommandGoesOn([], a, operator, t, startLine, 0);
  }
}

/**
 The shell lexer of the documentation check, and the quoting it undoes: section
 2.2.2 of the POSIX Shell Command Language.
 */
module ShellLexer {
  import opened Wrappers

  datatype Reason = Substitution | Backtick | HereString | NoDelimiter | OpenDelimiterQuote

  datatype Command = Command(tokens: seq<string>, startLine: int, endLine: int, unsupported: Option<Reason>)

  datatype Heredoc = Heredoc(delim: string, stripTabs: bool, startOffset: nat)

  datatype Issue = UnterminatedHeredoc(line: int, delim: string) | UnterminatedQuote(line: int)

  datatype Lexed = Lexed(commands: seq<Command>, issues: seq<Issue>, unverified: seq<Command>)

  /** The variables of the pass. */
  datatype Lexer = Lexer(
    commands: seq<Command>,
    unverified: seq<Command>,
    tokens: seq<string>,
    current: string,
    hasToken: bool,
    quote: Option<char>,
    comment: bool,
    unsupported: Option<Reason>,
    continuation: bool,
    pendingHeredocs: seq<Heredoc>,
    heredocBody: seq<Heredoc>,
    currentStart: nat)

  const START := Lexer([], [], [], "", false, None, false, None, false, [], [], 0)

  // ----- Flushing -----

  function FlushToken(s: Lexer): Lexer {
    s.(tokens := if s.hasToken then s.tokens + [s.current] else s.tokens, current := "", hasToken := false)
  }

  function FlushCommand(s: Lexer, startLine: int, offset: nat): Lexer {
    var t := FlushToken(s);
    var command := Command(t.tokens, startLine + t.currentStart, startLine + offset, t.unsupported);
    t.(commands := if t.tokens == [] then t.commands else t.commands + [command],
       unverified := if t.tokens != [] && t.unsupported.Some? then t.unverified + [command] else t.unverified,
       tokens := [], unsupported := None, currentStart := offset)
  }

  function BeginHeredocBodies(s: Lexer): Lexer {
    if s.pendingHeredocs == [] then s else s.(heredocBody := s.pendingHeredocs, pendingHeredocs := [])
  }

  // ----- Heredoc delimiters -----

  /** next: what follows the word on the line. */
  datatype Word = Word(delim: string, stripTabs: bool, next: string) | BadWord(reason: Reason)

  predicate EscapedInDouble(c: char) { c == '$' || c == '`' || c == '"' || c == '\\' }

  function WordFrom(rest: string, delim: string, quote: Option<char>): (string, Option<char>, string)
    decreases |rest|
  {
    if rest == "" then (delim, quote, rest)
    else
      var c := rest[0];
      if quote.Some? then
        if c == quote.value then WordFrom(rest[1..], delim, None)
        else if quote.value == '"' && c == '\\' && |rest| > 1 && EscapedInDouble(rest[1]) then
          WordFrom(rest[2..], delim + [rest[1]], quote)
        else WordFrom(rest[1..], delim + [c], quote)
      else if c == ' ' || c == '\t' then (delim, quote, rest)
      else if c == '\'' || c == '"' then WordFrom(rest[1..], delim, Some(c))
      else if c == '\\' then
        if |rest| == 1 then (delim, quote, rest) else WordFrom(rest[2..], delim + [rest[1]], quote)
      else WordFrom(rest[1..], delim + [c], quote)
  }

  function SkipBlanks(rest: string): string {
    if rest != "" && (rest[0] == ' ' || rest[0] == '\t') then SkipBlanks(rest[1..]) else rest
  }

  function HeredocWord(rest: string): Word {
    var stripTabs := rest != "" && rest[0] == '-';
    var (delim, quote, next) := WordFrom(SkipBlanks(if stripTabs then rest[1..] else rest), "", None);
    if delim == "" then BadWord(NoDelimiter)
    else if quote.Some? then BadWord(OpenDelimiterQuote)
    else Word(delim, stripTabs, next)
  }

  lemma SuffixStep(rest: string, i: nat)
    requires i < |rest|
    ensures rest[i..][0] == rest[i] && rest[i..][1..] == rest[i + 1..]
    ensures i + 1 < |rest| ==> rest[i..][1] == rest[i + 1] && rest[i..][2..] == rest[i + 2..]
  {
  }

  method ReadWord(rest: string, from: nat) returns (delim: string, delimQuote: Option<char>, i: nat)
    requires from <= |rest|
    ensures i <= |rest| && WordFrom(rest[from..], "", None) == (delim, delimQuote, rest[i..])
  {
    delim, delimQuote, i := "", None, from;
    while i < |rest|
      invariant i <= |rest| && WordFrom(rest[i..], delim, delimQuote) == WordFrom(rest[from..], "", None)
    {
      var c := rest[i];
      SuffixStep(rest, i);
      if delimQuote.Some? {
        if c == delimQuote.value {
          delimQuote, i := None, i + 1;
        } else if delimQuote.value == '"' && c == '\\' && i + 1 < |rest| && EscapedInDouble(rest[i + 1]) {
          delim, i := delim + [rest[i + 1]], i + 2;
        } else {
          delim, i := delim + [c], i + 1;
        }
      } else if c == ' ' || c == '\t' {
        return;
      } else if c == '\'' || c == '"' {
        delimQuote, i := Some(c), i + 1;
      } else if c == '\\' {
        if i + 1 == |rest| { return; }
        delim, i := delim + [rest[i + 1]], i + 2;
      } else {
        delim, i := delim + [c], i + 1;
      }
    }
  }

  /** The delimiter word of a heredoc, read from the start of rest: what the pieces it is spelled in stand for. */
  method ParseHeredocWord(rest: string) returns (w: Word)
    ensures w == HeredocWord(rest)
    ensures forall dash, blanks, pieces, t :: Spells(rest, dash, blanks, pieces, t) ==>
              w == Reading(dash, pieces, t)
  {
    AllSpellings(rest);
    var i := if rest != "" && rest[0] == '-' then 1 else 0;
    var stripTabs := i == 1;
    while i < |rest| && (rest[i] == ' ' || rest[i] == '\t')
      invariant i <= |rest|
      invariant SkipBlanks(rest[i..]) == SkipBlanks(if stripTabs then rest[1..] else rest)
    {
      SuffixStep(rest, i);
      i := i + 1;
    }
    var delim, delimQuote;
    delim, delimQuote, i := ReadWord(rest, i);
    if delim == "" { return BadWord(NoDelimiter); }
    if delimQuote.Some? { return BadWord(OpenDelimiterQuote); }
    w := Word(delim, stripTabs, rest[i..]);
  }

  // ----- One line -----

  function Push(s: Lexer, c: char): Lexer { s.(current := s.current + [c], hasToken := true) }

  /** One step at the start of rest, a non-empty end of the line: the new state and what is left. */
  function Step(s: Lexer, rest: string, startLine: int, offset: nat): (r: (Lexer, string))
    requires rest != ""
    ensures |r.1| < |rest|
  {
    var c := rest[0];
    if s.comment then (s, rest[1..])
    else if s.quote == Some('\'') then
      (if c == '\'' then s.(quote := None) else s.(current := s.current + [c]), rest[1..])
    else if s.quote == Some('"') then StepInDouble(s, rest)
    else StepUnquoted(s, rest, startLine, offset)
  }

  function StepInDouble(s: Lexer, rest: string): (r: (Lexer, string))
    requires rest != ""
    ensures |r.1| < |rest|
  {
    var c := rest[0];
    if c == '\\' then
      if |rest| == 1 then (s.(continuation := true), "")
      else if EscapedInDouble(rest[1]) then (s.(current := s.current + [rest[1]]), rest[2..])
      else (s.(current := s.current + [c]), rest[1..])
    else if c == '"' then (s.(quote := None), rest[1..])
    else (s.(current := s.current + [c]), rest[1..])
  }

  function StepUnquoted(s: Lexer, rest: string, startLine: int, offset: nat): (r: (Lexer, string))
    requires rest != ""
    ensures |r.1| < |rest|
  {
    var c := rest[0];
    if c == '\\' then
      if |rest| == 1 then (s.(continuation := true), "") else (Push(s, rest[1]), rest[2..])
    else if c == '\'' || c == '"' then (s.(quote := Some(c), hasToken := true), rest[1..])
    else if c == ' ' || c == '\t' then (FlushToken(s), rest[1..])
    else if c == '#' then
      (if s.hasToken then s.(current := s.current + [c]) else FlushToken(s.(comment := true)), rest[1..])
    else if c == ';' then (FlushCommand(s, startLine, offset), rest[1..])
    else if c == '&' || c == '|' then
      (FlushCommand(s, startLine, offset), if |rest| > 1 && rest[1] == c then rest[2..] else rest[1..])
    else if c == '$' && |rest| > 1 && rest[1] == '(' then (Push(s.(unsupported := Some(Substitution)), c), rest[1..])
    else if c == '`' then (Push(s.(unsupported := Some(Backtick)), c), rest[1..])
    else if c == '<' && |rest| > 1 && rest[1] == '<' then StepHeredoc(s, rest, offset)
    else (Push(s, c), rest[1..])
  }

  /** An error leaves no index to go on from, so the rest of the line is lost. */
  function StepHeredoc(s: Lexer, rest: string, offset: nat): (r: (Lexer, string))
    requires |rest| > 1
    ensures |r.1| < |rest|
  {
    if |rest| > 2 && rest[2] == '<' then (s.(unsupported := Some(HereString)), rest[3..])
    else
      HeredocWordShrinks(rest[2..]);
      match HeredocWord(rest[2..])
      case BadWord(reason) => (s.(unsupported := Some(reason)), "")
      case Word(delim, stripTabs, next) =>
        (FlushToken(s.(pendingHeredocs := s.pendingHeredocs + [Heredoc(delim, stripTabs, offset)])), next)
  }

  lemma {:induction false} WordFromShrinks(rest: string, delim: string, quote: Option<char>)
    ensures |WordFrom(rest, delim, quote).2| <= |rest|
    decreases |rest|
  {
    if rest != "" {
      var c := rest[0];
      if quote.Some? {
        if c == quote.value { WordFromShrinks(rest[1..], delim, None); }
        else if quote.value == '"' && c == '\\' && |rest| > 1 && EscapedInDouble(rest[1]) {
          WordFromShrinks(rest[2..], delim + [rest[1]], quote);
        } else { WordFromShrinks(rest[1..], delim + [c], quote); }
      } else if c == '\'' || c == '"' {
        WordFromShrinks(rest[1..], delim, Some(c));
      } else if c == '\\' {
        if |rest| > 1 { WordFromShrinks(rest[2..], delim + [rest[1]], quote); }
      } else if c != ' ' && c != '\t' {
        WordFromShrinks(rest[1..], delim + [c], quote);
      }
    }
  }

  lemma {:induction false} SkipShrinks(rest: string)
    ensures |SkipBlanks(rest)| <= |rest|
  {
    if rest != "" { SkipShrinks(rest[1..]); }
  }

  lemma HeredocWordShrinks(rest: string)
    ensures HeredocWord(rest).Word? ==> |HeredocWord(rest).next| <= |rest|
  {
    var skipped := if rest != "" && rest[0] == '-' then rest[1..] else rest;
    SkipShrinks(skipped);
    WordFromShrinks(SkipBlanks(skipped), "", None);
  }

  function LexRest(s: Lexer, rest: string, startLine: int, offset: nat): Lexer
    decreases |rest|
  {
    if rest == "" then s
    else
      var (t, left) := Step(s, rest, startLine, offset);
      LexRest(t, left, startLine, offset)
  }

  /** A command that has not begun yet starts on this line. */
  function BeginLine(s: Lexer, offset: nat): Lexer {
    if !s.hasToken && s.tokens == [] && s.quote.None? && !s.comment && !s.continuation then s.(currentStart := offset)
    else s
  }

  function EndLine(s: Lexer, startLine: int, offset: nat): Lexer {
    if s.comment then BeginHeredocBodies(FlushCommand(s.(comment := false, continuation := false), startLine, offset))
    else if s.quote == Some('\'') then s.(current := s.current + "\n", continuation := false)
    else if s.quote == Some('"') then
      s.(current := if s.continuation then s.current else s.current + "\n", continuation := false)
    else if s.continuation then s.(continuation := false)
    else BeginHeredocBodies(FlushCommand(s, startLine, offset))
  }

  function StripTabs(raw: string): string { if raw != "" && raw[0] == '\t' then StripTabs(raw[1..]) else raw }

  /** A line of a heredoc body: only the delimiter line does anything. */
  function BodyLine(s: Lexer, raw: string): Lexer
    requires s.heredocBody != []
  {
    var head := s.heredocBody[0];
    if (if head.stripTabs then StripTabs(raw) else raw) == head.delim then s.(heredocBody := s.heredocBody[1..]) else s
  }

  function LexLine(s: Lexer, raw: string, startLine: int, offset: nat): Lexer {
    if s.heredocBody != [] then BodyLine(s, raw)
    else EndLine(LexRest(BeginLine(s, offset), raw, startLine, offset), startLine, offset)
  }

  function LexLines(s: Lexer, lines: seq<string>, startLine: int, offset: nat): Lexer
    decreases |lines|
  {
    if lines == [] then s else LexLines(LexLine(s, lines[0], startLine, offset), lines[1..], startLine, offset + 1)
  }

  function Finish(s: Lexer, count: nat, startLine: int): Lexed {
    var last := if count == 0 then 0 else count - 1;
    var open := if s.heredocBody != [] then s.heredocBody else s.pendingHeredocs;
    var heredoc := if open == [] then [] else [UnterminatedHeredoc(startLine + open[0].startOffset, open[0].delim)];
    var quote := if s.quote.None? then [] else [UnterminatedQuote(startLine + last)];
    var t := FlushCommand(s, startLine, last);
    Lexed(t.commands, heredoc + quote, t.unverified)
  }

  function Lex(rawLines: seq<string>, startLine: int): Lexed {
    Finish(LexLines(START, rawLines, startLine, 0), |rawLines|, startLine)
  }

  /** The pass over the lines of an example, character by character. */
  method LexShellCommands(rawLines: seq<string>, startLine: int) returns (lexed: Lexed)
    ensures lexed == Lex(rawLines, startLine)
  {
    var lexer := START;
    for offset := 0 to |rawLines|
      invariant LexLines(lexer, rawLines[offset..], startLine, offset) == LexLines(START, rawLines, startLine, 0)
    {
      var raw := rawLines[offset];
      assert rawLines[offset..][1..] == rawLines[offset + 1..];
      if lexer.heredocBody != [] {
        lexer := BodyLine(lexer, raw);
      } else {
        lexer := BeginLine(lexer, offset);
        ghost var begun := lexer;
        var rest := raw;
        while rest != ""
          invariant LexRest(lexer, rest, startLine, offset) == LexRest(begun, raw, startLine, offset)
          decreases |rest|
        {
          var (next, left) := Step(lexer, rest, startLine, offset);
          lexer, rest := next, left;
        }
        lexer := EndLine(lexer, startLine, offset);
      }
    }
    lexed := Finish(lexer, |rawLines|, startLine);
  }

  // ----- Quoting -----

  /** Every quote closes the string, stands escaped, and opens it again. */
  function EscapeChar(c: char): string { if c == '\'' then "'\\''" else [c] }

  function Escape(value: string): string { if value == "" then "" else EscapeChar(value[0]) + Escape(value[1..]) }

  function PosixSingleQuote(value: string): string { "'" + Escape(value) + "'" }

  function QuotedLine(words: seq<string>): string
    requires words != []
  {
    if |words| == 1 then PosixSingleQuote(words[0]) else PosixSingleQuote(words[0]) + " " + QuotedLine(words[1..])
  }

  function Head(text: string): string { if text == "" || text[0] == '\n' then "" else [text[0]] + Head(text[1..]) }

  /** The lines after the first. */
  function Tail(text: string): seq<string>
    decreases |text|, 0
  {
    if text == "" then [] else if text[0] == '\n' then SplitLines(text[1..]) else Tail(text[1..])
  }

  function SplitLines(text: string): seq<string>
    decreases |text|, 1
  {
    [Head(text)] + Tail(text)
  }

  function Newlines(text: string): nat {
    if text == "" then 0 else (if text[0] == '\n' then 1 else 0) + Newlines(text[1..])
  }

  /** Lexing goes on in the middle of a line: text is the rest of it and the lines after. */
  function At(s: Lexer, text: string, startLine: int, offset: nat): Lexer {
    LexLines(EndLine(LexRest(s, Head(text), startLine, offset), startLine, offset), Tail(text), startLine, offset + 1)
  }

  ghost predicate InString(s: Lexer) {
    s.quote == Some('\'') && !s.comment && s.hasToken && s.heredocBody == [] && !s.continuation
  }

  ghost predicate Plain(s: Lexer) { s.quote.None? && !s.comment && s.heredocBody == [] && !s.continuation }

  lemma Assoc<T>(a: seq<T>, b: seq<T>, c: seq<T>)
    ensures (a + b) + c == a + (b + c)
  {
  }

  lemma AtStep(s: Lexer, text: string, startLine: int, offset: nat, n: nat)
    requires 0 < n <= |Head(text)| && n <= |text| && Step(s, Head(text), startLine, offset).1 == Head(text)[n..]
    requires Head(text)[n..] == Head(text[n..]) && Tail(text) == Tail(text[n..])
    ensures At(s, text, startLine, offset) == At(Step(s, Head(text), startLine, offset).0, text[n..], startLine, offset)
  {
  }

  /** A character other than a newline stays on the line. */
  lemma HeadTail(c: char, t: string)
    requires c != '\n'
    ensures Head([c] + t) == [c] + Head(t) && Tail([c] + t) == Tail(t)
  {
    assert ([c] + t)[1..] == t;
  }

  lemma AtOne(s: Lexer, c: char, t: string, startLine: int, offset: nat)
    requires c != '\n' && Step(s, [c] + Head(t), startLine, offset).1 == Head(t)
    ensures At(s, [c] + t, startLine, offset) == At(Step(s, [c] + Head(t), startLine, offset).0, t, startLine, offset)
  {
    HeadTail(c, t);
    assert ([c] + t)[1..] == t && ([c] + Head(t))[1..] == Head(t);
    AtStep(s, [c] + t, startLine, offset, 1);
  }

  lemma AtStringChar(s: Lexer, c: char, t: string, startLine: int, offset: nat)
    requires InString(s) && c != '\n'
    ensures At(s, [c] + t, startLine, offset) ==
              At(if c == '\'' then s.(quote := None) else s.(current := s.current + [c]), t, startLine, offset)
  {
    assert ([c] + Head(t))[1..] == Head(t);
    AtOne(s, c, t, startLine, offset);
  }

  lemma AtStringNewline(s: Lexer, t: string, startLine: int, offset: nat)
    requires InString(s)
    ensures At(s, "\n" + t, startLine, offset) == At(s.(current := s.current + "\n"), t, startLine, offset + 1)
  {
    var text := "\n" + t;
    assert text[1..] == t && Head(text) == "" && Tail(text) == SplitLines(t);
    var next := s.(current := s.current + "\n");
    assert EndLine(s, startLine, offset) == next;
    var lines := SplitLines(t);
    assert lines[0] == Head(t) && lines[1..] == Tail(t);
    assert BeginLine(next, offset + 1) == next;
  }

  lemma AtOpenQuote(s: Lexer, t: string, startLine: int, offset: nat)
    requires Plain(s)
    ensures At(s, "'" + t, startLine, offset) == At(s.(quote := Some('\''), hasToken := true), t, startLine, offset)
  {
    assert (['\''] + Head(t))[1..] == Head(t);
    AtOne(s, '\'', t, startLine, offset);
  }

  lemma AtBlank(s: Lexer, t: string, startLine: int, offset: nat)
    requires Plain(s)
    ensures At(s, " " + t, startLine, offset) == At(FlushToken(s), t, startLine, offset)
  {
    assert ([' '] + Head(t))[1..] == Head(t);
    AtOne(s, ' ', t, startLine, offset);
  }

  lemma AtEscapedQuote(s: Lexer, t: string, startLine: int, offset: nat)
    requires Plain(s)
    ensures At(s, "\\'" + t, startLine, offset) == At(Push(s, '\''), t, startLine, offset)
  {
    var text := "\\'" + t;
    assert text == ['\\'] + ("'" + t) && "'" + t == ['\''] + t;
    HeadTail('\\', "'" + t);
    HeadTail('\'', t);
    assert text[2..] == t && Head(text)[2..] == Head(t) && Tail(text) == Tail(t);
    AtStep(s, text, startLine, offset, 2);
  }

  lemma AtEscapedChar(s: Lexer, c: char, rest: string, startLine: int, offset: nat)
    requires InString(s)
    ensures At(s, EscapeChar(c) + rest, startLine, offset) ==
              At(s.(current := s.current + [c]), rest, startLine, offset + if c == '\n' then 1 else 0)
  {
    if c == '\n' {
      assert EscapeChar(c) + rest == "\n" + rest && s.current + [c] == s.current + "\n";
      AtStringNewline(s, rest, startLine, offset);
    } else if c == '\'' {
      assert EscapeChar(c) + rest == ['\''] + ("\\'" + ("'" + rest));
      AtStringChar(s, '\'', "\\'" + ("'" + rest), startLine, offset);
      AtEscapedQuote(s.(quote := None), "'" + rest, startLine, offset);
      AtOpenQuote(Push(s.(quote := None), '\''), rest, startLine, offset);
    } else {
      AtStringChar(s, c, rest, startLine, offset);
    }
  }

  /** Inside a quoted string the escaped text adds exactly the value. */
  lemma {:induction false} AtEscaped(s: Lexer, w: string, t: string, startLine: int, offset: nat)
    requires InString(s)
    ensures At(s, Escape(w) + "'" + t, startLine, offset) ==
              At(s.(current := s.current + w, quote := None), t, startLine, offset + Newlines(w))
    decreases |w|
  {
    hide At;
    if w == "" {
      assert Escape(w) + "'" + t == ['\''] + t && s.current + w == s.current;
      AtStringChar(s, '\'', t, startLine, offset);
    } else {
      var rest := Escape(w[1..]) + "'" + t;
      assert Escape(w) + "'" + t == EscapeChar(w[0]) + rest;
      AtEscapedChar(s, w[0], rest, startLine, offset);
      AtEscaped(s.(current := s.current + [w[0]]), w[1..], t, startLine, offset + if w[0] == '\n' then 1 else 0);
      assert s.current + [w[0]] + w[1..] == s.current + w;
    }
  }

  /** A quoted word, lexed where a word may start, is one token with the word's value. */
  lemma AtWord(s: Lexer, w: string, t: string, startLine: int, offset: nat)
    requires Plain(s) && !s.hasToken && s.current == ""
    ensures At(s, PosixSingleQuote(w) + t, startLine, offset) ==
              At(s.(current := w, hasToken := true), t, startLine, offset + Newlines(w))
  {
    assert PosixSingleQuote(w) + t == "'" + (Escape(w) + "'" + t);
    AtOpenQuote(s, Escape(w) + "'" + t, startLine, offset);
    AtEscaped(s.(quote := Some('\''), hasToken := true), w, t, startLine, offset);
    assert s.current + w == w;
  }

  function NewlinesIn(words: seq<string>): nat {
    if words == [] then 0 else Newlines(words[0]) + NewlinesIn(words[1..])
  }

  /** The words, each quoted and followed by a blank. */
  function QuotedWords(words: seq<string>): string {
    if words == [] then "" else PosixSingleQuote(words[0]) + " " + QuotedWords(words[1..])
  }

  lemma {:induction false} AtQuotedWords(s: Lexer, words: seq<string>, rest: string, startLine: int, offset: nat)
    requires Plain(s) && !s.hasToken && s.current == ""
    ensures At(s, QuotedWords(words) + rest, startLine, offset) ==
              At(s.(tokens := s.tokens + words), rest, startLine, offset + NewlinesIn(words))
    decreases |words|
  {
    hide At, PosixSingleQuote, Newlines;
    if words == [] {
      assert QuotedWords(words) + rest == rest && s.tokens + words == s.tokens;
    } else {
      var more := QuotedWords(words[1..]) + rest;
      assert QuotedWords(words) + rest == PosixSingleQuote(words[0]) + " " + more;
      var next := s.(tokens := s.tokens + [words[0]]);
      AtWordAndBlank(s, words[0], more, startLine, offset);
      AtQuotedWords(next, words[1..], rest, startLine, offset + Newlines(words[0]));
      assert next.tokens + words[1..] == s.tokens + words;
    }
  }

  lemma {:induction false} QuotedLineSplits(words: seq<string>)
    requires words != []
    ensures
      var front, last := words[..|words| - 1], words[|words| - 1];
      && QuotedLine(words) == QuotedWords(front) + PosixSingleQuote(last)
      && NewlinesIn(words) == NewlinesIn(front) + Newlines(last)
  {
    var front, last := words[..|words| - 1], words[|words| - 1];
    if |words| == 1 {
      assert front == [] && words[1..] == [];
      assert "" + PosixSingleQuote(last) == PosixSingleQuote(last);
      hide PosixSingleQuote, Newlines;
    } else {
      assert words[1..][..|words| - 2] == front[1..];
      hide PosixSingleQuote, Newlines;
      QuotedLineSplits(words[1..]);
      Assoc(PosixSingleQuote(words[0]) + " ", QuotedWords(front[1..]), PosixSingleQuote(last));
    }
  }

  lemma AtFrontAndLast(s: Lexer, front: seq<string>, last: string, startLine: int, offset: nat)
    requires Plain(s) && !s.hasToken && s.current == "" && s.pendingHeredocs == []
    ensures At(s, QuotedWords(front) + PosixSingleQuote(last), startLine, offset) ==
              FlushCommand(s.(tokens := s.tokens + front + [last]),
                  startLine, offset + NewlinesIn(front) + Newlines(last))
  {
    hide At, PosixSingleQuote, Newlines, QuotedWords, NewlinesIn, FlushCommand;
    var t := s.(tokens := s.tokens + front);
    AtQuotedWords(s, front, PosixSingleQuote(last), startLine, offset);
    AtLastWord(t, last, startLine, offset + NewlinesIn(front));
  }

  lemma FrontAndLast<T>(a: seq<T>, words: seq<T>)
    requires words != []
    ensures a + words[..|words| - 1] + [words[|words| - 1]] == a + words
  {
  }

  lemma AtWords(s: Lexer, words: seq<string>, startLine: int, offset: nat)
    requires Plain(s) && !s.hasToken && s.current == "" && s.pendingHeredocs == [] && words != []
    ensures At(s, QuotedLine(words), startLine, offset) ==
              FlushCommand(s.(tokens := s.tokens + words), startLine, offset + NewlinesIn(words))
  {
    hide At, PosixSingleQuote, Newlines, QuotedLine, QuotedWords, NewlinesIn, FlushCommand, Plain;
    QuotedLineSplits(words);
    AtFrontAndLast(s, words[..|words| - 1], words[|words| - 1], startLine, offset);
    FrontAndLast(s.tokens, words);
  }

  lemma AtWordAndBlank(s: Lexer, w: string, rest: string, startLine: int, offset: nat)
    requires Plain(s) && !s.hasToken && s.current == ""
    ensures At(s, PosixSingleQuote(w) + " " + rest, startLine, offset) ==
              At(s.(tokens := s.tokens + [w]), rest, startLine, offset + Newlines(w))
  {
    hide At, PosixSingleQuote, Newlines;
    var word := s.(current := w, hasToken := true);
    assert PosixSingleQuote(w) + " " + rest == PosixSingleQuote(w) + (" " + rest);
    AtWord(s, w, " " + rest, startLine, offset);
    AtBlank(word, rest, startLine, offset + Newlines(w));
    assert FlushToken(word) == s.(tokens := s.tokens + [w]);
  }

  lemma AtLastWord(s: Lexer, w: string, startLine: int, offset: nat)
    requires Plain(s) && !s.hasToken && s.current == "" && s.pendingHeredocs == []
    ensures At(s, PosixSingleQuote(w), startLine, offset) ==
              FlushCommand(s.(tokens := s.tokens + [w]), startLine, offset + Newlines(w))
  {
    hide At, PosixSingleQuote, Newlines;
    var word := s.(current := w, hasToken := true);
    assert PosixSingleQuote(w) + "" == PosixSingleQuote(w);
    AtEnd(word, startLine, offset + Newlines(w));
    AtWord(s, w, "", startLine, offset);
    assert FlushToken(word) == s.(tokens := s.tokens + [w]);
  }

  lemma AtEnd(s: Lexer, startLine: int, offset: nat)
    requires Plain(s) && s.pendingHeredocs == []
    ensures At(s, "", startLine, offset) == FlushCommand(s, startLine, offset)
  {
  }

  lemma LexFromStart(text: string, startLine: int)
    ensures LexLines(START, SplitLines(text), startLine, 0) == At(START, text, startLine, 0)
    ensures |SplitLines(text)| == 1 + |Tail(text)|
  {
    var lines := SplitLines(text);
    assert lines[0] == Head(text) && lines[1..] == Tail(text) && BeginLine(START, 0) == START;
  }

  /** One command of these words has been read from the first line on. */
  function OneCommand(words: seq<string>, startLine: int): Lexer {
    FlushCommand(START.(tokens := words), startLine, NewlinesIn(words))
  }

  lemma OneCommandIs(words: seq<string>, startLine: int, count: nat)
    requires words != []
    ensures OneCommand(words, startLine).heredocBody == []
    ensures Finish(OneCommand(words, startLine), count, startLine) ==
              Lexed([Command(words, startLine, startLine + NewlinesIn(words), None)], [], [])
  {
    hide NewlinesIn;
  }

  lemma LexedToOne(lines: seq<string>, words: seq<string>, startLine: int)
    requires words != [] && LexLines(START, lines, startLine, 0) == OneCommand(words, startLine)
    ensures Lex(lines, startLine) == Lexed([Command(words, startLine, startLine + NewlinesIn(words), None)], [], [])
  {
    hide OneCommand, LexLines, START, NewlinesIn, Finish;
    OneCommandIs(words, startLine, |lines|);
  }

  /** Quoting and then lexing is the identity on every non-empty list of words, whatever is in them. */
  lemma LexQuoted(words: seq<string>, startLine: int)
    requires words != []
    ensures Lex(SplitLines(QuotedLine(words)), startLine) ==
              Lexed([Command(words, startLine, startLine + NewlinesIn(words), None)], [], [])
  {
    hide QuotedLine, SplitLines, NewlinesIn, LexLines, Lex, OneCommand, START;
    QuotedLexes(words, startLine);
    LexedToOne(SplitLines(QuotedLine(words)), words, startLine);
  }

  lemma QuotedLexes(words: seq<string>, startLine: int)
    requires words != []
    ensures LexLines(START, SplitLines(QuotedLine(words)), startLine, 0) == OneCommand(words, startLine)
  {
    StartIsPlain(words);
    hide At, QuotedLine, SplitLines, NewlinesIn, LexLines, FlushCommand, START, Plain;
    LexFromStart(QuotedLine(words), startLine);
    AtWords(START, words, startLine, 0);
  }

  lemma StartIsPlain(words: seq<string>)
    ensures Plain(START) && !START.hasToken && START.current == "" && START.pendingHeredocs == []
    ensures START.(tokens := START.tokens + words) == START.(tokens := words)
  {
    assert START.tokens + words == words;
  }

  // ----- What a delimiter word reads as -----

  /** The pieces a delimiter word may be spelled in; they concatenate. */
  datatype Piece = Bare(c: char) | Escaped(c: char) | Single(text: string) | Double(raw: string)

  predicate BareChar(c: char) { c != ' ' && c != '\t' && c != '\'' && c != '"' && c != '\\' }

  predicate ValidPiece(p: Piece) {
    match p
    case Bare(c) => BareChar(c)
    case Escaped(_) => true
    case Single(text) => '\'' !in text
    case Double(raw) => Inside(raw, true)
  }

  /** Between double quotes a backslash escapes these four characters, section 2.2.3. */
  predicate StartsPair(raw: string) {
    && |raw| > 1 && raw[0] == '\\'
    && (raw[1] == '$' || raw[1] == '`' || raw[1] == '"' || raw[1] == '\\')
  }

  /** Text that stays between double quotes; before a closing quote it may not end in a backslash of its own. */
  predicate Inside(raw: string, closed: bool)
    decreases |raw|
  {
    if raw == "" then true
    else if StartsPair(raw) then Inside(raw[2..], closed)
    else raw[0] != '"' && !(closed && raw == "\\") && Inside(raw[1..], closed)
  }

  function Unescaped(raw: string): string
    decreases |raw|
  {
    if raw == "" then "" else if StartsPair(raw) then [raw[1]] + Unescaped(raw[2..]) else [raw[0]] + Unescaped(raw[1..])
  }

  function Spelled(p: Piece): string {
    match p
    case Bare(c) => [c]
    case Escaped(c) => ['\\', c]
    case Single(text) => "'" + text + "'"
    case Double(raw) => "\"" + raw + "\""
  }

  function Literal(p: Piece): string {
    match p
    case Bare(c) => [c]
    case Escaped(c) => [c]
    case Single(text) => text
    case Double(raw) => Unescaped(raw)
  }

  function SpelledAll(pieces: seq<Piece>): string {
    if pieces == [] then "" else Spelled(pieces[0]) + SpelledAll(pieces[1..])
  }

  function LiteralAll(pieces: seq<Piece>): string {
    if pieces == [] then "" else Literal(pieces[0]) + LiteralAll(pieces[1..])
  }

  ghost predicate ValidPieces(pieces: seq<Piece>) { forall p :: p in pieces ==> ValidPiece(p) }

  /** A blank, the end of the line or a last backslash ends a word. */
  predicate EndsWord(t: string) { t == "" || t[0] == ' ' || t[0] == '\t' || t == "\\" }

  /** A quote that nothing on the line closes. */
  predicate OpenQuote(t: string) {
    t != "" && ((t[0] == '\'' && '\'' !in t[1..]) || (t[0] == '"' && Inside(t[1..], false)))
  }

  function OpenText(t: string): string
    requires OpenQuote(t)
  {
    if t[0] == '"' then Unescaped(t[1..]) else t[1..]
  }

  /** What the pieces of a word stand for, given what follows them. */
  function Reading(dash: bool, pieces: seq<Piece>, t: string): Word {
    if OpenQuote(t) then BadWord(if LiteralAll(pieces) + OpenText(t) == "" then NoDelimiter else OpenDelimiterQuote)
    else if LiteralAll(pieces) == "" then BadWord(NoDelimiter)
    else Word(LiteralAll(pieces), dash, t)
  }

  lemma WordStep(c: char, t: string, delim: string, quote: Option<char>)
    ensures ([c] + t)[0] == c && ([c] + t)[1..] == t && delim + [c] + "" == delim + [c]
  {
  }

  lemma {:induction false} ReadsSingle(text: string, t: string, delim: string)
    requires '\'' !in text
    ensures WordFrom(text + "'" + t, delim, Some('\'')) == WordFrom(t, delim + text, None)
  {
    if text == "" {
      assert text + "'" + t == ['\''] + t && delim + text == delim;
      WordStep('\'', t, delim, Some('\''));
    } else {
      var rest := text[1..] + "'" + t;
      assert text + "'" + t == [text[0]] + rest;
      WordStep(text[0], rest, delim, Some('\''));
      ReadsSingle(text[1..], t, delim + [text[0]]);
      assert delim + [text[0]] + text[1..] == delim + text;
    }
  }

  lemma ReadsPair(raw: string, t: string, delim: string)
    requires StartsPair(raw)
    ensures WordFrom(raw + t, delim, Some('"')) == WordFrom(raw[2..] + t, delim + [raw[1]], Some('"'))
  {
    var all := raw + t;
    assert all[0] == raw[0] && all[1] == raw[1] && all[2..] == raw[2..] + t;
  }

  lemma ReadsPlain(raw: string, t: string, delim: string)
    requires raw != "" && raw[0] != '"' && !StartsPair(raw) && (raw == "\\" ==> t == "")
    ensures WordFrom(raw + t, delim, Some('"')) == WordFrom(raw[1..] + t, delim + [raw[0]], Some('"'))
  {
    var all := raw + t;
    assert all[0] == raw[0] && all[1..] == raw[1..] + t && (|raw| > 1 ==> all[1] == raw[1]);
    assert |raw| == 1 ==> raw == [raw[0]];
  }

  lemma {:induction false} ReadsInside(raw: string, t: string, delim: string)
    requires Inside(raw, t != "")
    ensures WordFrom(raw + t, delim, Some('"')) == WordFrom(t, delim + Unescaped(raw), Some('"'))
    decreases |raw|
  {
    if raw == "" {
      assert raw + t == t && delim + Unescaped(raw) == delim;
    } else if StartsPair(raw) {
      ReadsPair(raw, t, delim);
      hide WordFrom;
      ReadsInside(raw[2..], t, delim + [raw[1]]);
      Assoc(delim, [raw[1]], Unescaped(raw[2..]));
    } else {
      ReadsPlain(raw, t, delim);
      hide WordFrom;
      ReadsInside(raw[1..], t, delim + [raw[0]]);
      Assoc(delim, [raw[0]], Unescaped(raw[1..]));
    }
  }

  lemma ReadsDouble(raw: string, t: string, delim: string)
    requires Inside(raw, true)
    ensures WordFrom(raw + "\"" + t, delim, Some('"')) == WordFrom(t, delim + Unescaped(raw), None)
  {
    WordStep('"', t, delim + Unescaped(raw), Some('"'));
    assert WordFrom(['"'] + t, delim + Unescaped(raw), Some('"')) == WordFrom(t, delim + Unescaped(raw), None);
    hide WordFrom, Inside;
    assert raw + "\"" + t == raw + (['"'] + t);
    ReadsInside(raw, ['"'] + t, delim);
  }

  lemma ReadsEscaped(c: char, t: string, delim: string)
    ensures WordFrom(['\\', c] + t, delim, None) == WordFrom(t, delim + [c], None)
  {
    var all := ['\\', c] + t;
    assert all[0] == '\\' && all[1] == c && all[2..] == t;
  }

  lemma ReadsOpening(c: char, t: string, delim: string)
    requires c == '\'' || c == '"'
    ensures WordFrom([c] + t, delim, None) == WordFrom(t, delim, Some(c))
  {
    WordStep(c, t, delim, None);
  }

  lemma ReadsBare(c: char, t: string, delim: string)
    requires BareChar(c)
    ensures WordFrom([c] + t, delim, None) == WordFrom(t, delim + [c], None)
  {
    WordStep(c, t, delim, None);
  }

  lemma ReadsPiece(p: Piece, t: string, delim: string)
    requires ValidPiece(p)
    ensures WordFrom(Spelled(p) + t, delim, None) == WordFrom(t, delim + Literal(p), None)
  {
    hide WordFrom, BareChar, Inside, Unescaped;
    match p
    case Bare(c) => ReadsBare(c, t, delim);
    case Escaped(c) => ReadsEscaped(c, t, delim);
    case Single(text) =>
      assert Spelled(p) + t == ['\''] + (text + "'" + t);
      ReadsOpening('\'', text + "'" + t, delim);
      ReadsSingle(text, t, delim);
    case Double(raw) =>
      assert Spelled(p) + t == ['"'] + (raw + "\"" + t);
      ReadsOpening('"', raw + "\"" + t, delim);
      ReadsDouble(raw, t, delim);
  }

  lemma {:induction false} ReadsPieces(pieces: seq<Piece>, t: string, delim: string)
    requires ValidPieces(pieces)
    ensures WordFrom(SpelledAll(pieces) + t, delim, None) == WordFrom(t, delim + LiteralAll(pieces), None)
    decreases |pieces|
  {
    if pieces == [] {
      assert SpelledAll(pieces) + t == t && delim + LiteralAll(pieces) == delim;
    } else {
      var rest := SpelledAll(pieces[1..]) + t;
      assert SpelledAll(pieces) + t == Spelled(pieces[0]) + rest;
      hide WordFrom, Spelled, Literal;
      ReadsPiece(pieces[0], rest, delim);
      ReadsPieces(pieces[1..], t, delim + Literal(pieces[0]));
      assert delim + Literal(pieces[0]) + LiteralAll(pieces[1..]) == delim + LiteralAll(pieces);
    }
  }

  lemma {:induction false} SkipsBlanks(blanks: string, rest: string)
    requires forall c :: c in blanks ==> c == ' ' || c == '\t'
    requires rest == "" || (rest[0] != ' ' && rest[0] != '\t')
    ensures SkipBlanks(blanks + rest) == rest
  {
    if blanks == "" {
      assert blanks + rest == rest;
    } else {
      assert (blanks + rest)[1..] == blanks[1..] + rest && blanks[0] in blanks;
      assert forall c :: c in blanks[1..] ==> c in blanks;
      SkipsBlanks(blanks[1..], rest);
    }
  }

  /** What may stand between the operator and the word. */
  ghost predicate Lead(dash: bool, blanks: string, word: string) {
    && (forall c :: c in blanks ==> c == ' ' || c == '\t')
    && (word == "" || (word[0] != ' ' && word[0] != '\t'))
    && (!dash ==> blanks != "" || word == "" || word[0] != '-')
  }

  function Operand(dash: bool, blanks: string, word: string): string { (if dash then "-" else "") + blanks + word }

  lemma LeadIsSkipped(dash: bool, blanks: string, word: string)
    requires Lead(dash, blanks, word)
    ensures
      var (delim, quote, next) := WordFrom(word, "", None);
      HeredocWord(Operand(dash, blanks, word)) ==
        if delim == "" then BadWord(NoDelimiter)
        else if quote.Some? then BadWord(OpenDelimiterQuote)
        else Word(delim, dash, next)
  {
    var rest := Operand(dash, blanks, word);
    assert dash ==> rest[1..] == blanks + word;
    assert blanks != "" ==> blanks[0] in blanks;
    assert !dash ==> rest == blanks + word && (rest == "" || rest[0] != '-');
    SkipsBlanks(blanks, word);
    hide WordFrom;
  }

  lemma {:induction false} OpenSingle(text: string, delim: string)
    requires '\'' !in text
    ensures WordFrom(text, delim, Some('\'')) == (delim + text, Some('\''), "")
  {
    if text == "" {
      assert delim + text == delim;
    } else {
      OpenSingle(text[1..], delim + [text[0]]);
      assert delim + [text[0]] + text[1..] == delim + text;
    }
  }

  lemma OpenDouble(raw: string, delim: string)
    requires Inside(raw, false)
    ensures WordFrom(raw, delim, Some('"')) == (delim + Unescaped(raw), Some('"'), "")
  {
    ReadsInside(raw, "", delim);
    assert raw + "" == raw;
  }

  lemma OpenQuoteTakesAll(t: string, delim: string)
    requires OpenQuote(t)
    ensures WordFrom(t, delim, None) == (delim + OpenText(t), Some(t[0]), "")
  {
    assert t == [t[0]] + t[1..];
    hide WordFrom, Inside, Unescaped;
    ReadsOpening(t[0], t[1..], delim);
    if t[0] == '"' { OpenDouble(t[1..], delim); } else { OpenSingle(t[1..], delim); }
  }

  lemma StopsThere(t: string, delim: string)
    requires EndsWord(t)
    ensures WordFrom(t, delim, None) == (delim, None, t) && !OpenQuote(t)
  {
  }

  /** rest is an optional dash, blanks, the pieces of a word, and then t, which ends the word or leaves a quote open. */
  ghost predicate Spells(rest: string, dash: bool, blanks: string, pieces: seq<Piece>, t: string) {
    && rest == Operand(dash, blanks, SpelledAll(pieces) + t)
    && ValidPieces(pieces)
    && (EndsWord(t) || OpenQuote(t))
    && Lead(dash, blanks, SpelledAll(pieces) + t)
  }

  /**
   However a delimiter is spelled, bare, escaped, in single or in double quotes or
   in any mixture, it reads as the literal word, and what follows is left; a quote
   that stays open makes it unusable.
   */
  lemma ReadsDelimiter(rest: string, dash: bool, blanks: string, pieces: seq<Piece>, t: string)
    requires Spells(rest, dash, blanks, pieces, t)
    ensures HeredocWord(rest) == Reading(dash, pieces, t)
  {
    var delim := LiteralAll(pieces);
    assert "" + delim == delim;
    hide WordFrom, SpelledAll, LiteralAll, Lead, Operand, EndsWord, OpenQuote, OpenText;
    if OpenQuote(t) { OpenQuoteTakesAll(t, delim); } else { StopsThere(t, delim); }
    LeadIsSkipped(dash, blanks, SpelledAll(pieces) + t);
    ReadsPieces(pieces, t, "");
  }

  lemma AllSpellings(rest: string)
    ensures forall dash, blanks, pieces, t :: Spells(rest, dash, blanks, pieces, t) ==>
              HeredocWord(rest) == Reading(dash, pieces, t)
  {
    hide HeredocWord, Reading, Spells;
    forall dash, blanks, pieces, t | Spells(rest, dash, blanks, pieces, t)
      ensures HeredocWord(rest) == Reading(dash, pieces, t)
    {
      ReadsDelimiter(rest, dash, blanks, pieces, t);
    }
  }

  // ----- Every operand is spelled in pieces -----

  lemma {:induction false} ScanDouble(rest: string) returns (raw: string, closed: bool, after: string)
    ensures Inside(raw, closed)
    ensures if closed then rest == raw + "\"" + after else rest == raw
    decreases |rest|
  {
    if rest == "" {
      raw, closed, after := "", false, "";
    } else if rest[0] == '"' {
      raw, closed, after := "", true, rest[1..];
    } else if StartsPair(rest) {
      raw, closed, after := ScanDouble(rest[2..]);
      var pair := rest[..2];
      assert (pair + raw)[2..] == raw && rest == pair + rest[2..];
      if closed { assert rest == pair + raw + "\"" + after; }
      raw := pair + raw;
    } else {
      raw, closed, after := ScanDouble(rest[1..]);
      var c := [rest[0]];
      assert (c + raw)[1..] == raw && rest == c + rest[1..];
      assert raw != "" ==> raw[0] == rest[1];
      assert raw == "" && closed ==> rest[1] == '"';
      if closed { assert rest == c + raw + "\"" + after; }
      raw := c + raw;
    }
  }

  lemma {:induction false} ScanSingle(rest: string) returns (text: string, closed: bool, after: string)
    ensures '\'' !in text && if closed then rest == text + "'" + after else rest == text
  {
    if rest == "" {
      text, closed, after := "", false, "";
    } else if rest[0] == '\'' {
      text, closed, after := "", true, rest[1..];
    } else {
      text, closed, after := ScanSingle(rest[1..]);
      assert rest == [rest[0]] + rest[1..];
      if closed { assert rest == [rest[0]] + text + "'" + after; }
      text := [rest[0]] + text;
    }
  }

  /** The first piece of a word, unless the word ends or a quote stays open there. */
  lemma FirstPiece(word: string) returns (p: Piece, after: string)
    requires !EndsWord(word) && !OpenQuote(word)
    ensures ValidPiece(p) && word == Spelled(p) + after && |after| < |word|
  {
    var c := word[0];
    assert word == [c] + word[1..];
    if c == '\\' {
      p, after := Escaped(word[1]), word[2..];
      assert word == ['\\', word[1]] + word[2..];
    } else if c == '\'' || c == '"' {
      var text, closed;
      if c == '"' {
        text, closed, after := ScanDouble(word[1..]);
        p := Double(text);
      } else {
        text, closed, after := ScanSingle(word[1..]);
        p := Single(text);
      }
      assert closed;
      assert word == [c] + text + [c] + after;
    } else {
      p, after := Bare(c), word[1..];
    }
  }

  lemma {:induction false} PiecesOf(word: string) returns (pieces: seq<Piece>, t: string)
    ensures ValidPieces(pieces) && word == SpelledAll(pieces) + t && (EndsWord(t) || OpenQuote(t))
    decreases |word|
  {
    if EndsWord(word) || OpenQuote(word) {
      pieces, t := [], word;
      assert word == "" + word;
    } else {
      var p, after := FirstPiece(word);
      pieces, t := PiecesOf(after);
      hide EndsWord, OpenQuote, Spelled, ValidPiece;
      Assoc(Spelled(p), SpelledAll(pieces), t);
      assert ([p] + pieces)[1..] == pieces;
      pieces := [p] + pieces;
    }
  }

  lemma {:induction false} BlanksOf(rest: string) returns (blanks: string, word: string)
    ensures rest == blanks + word && (forall c :: c in blanks ==> c == ' ' || c == '\t')
    ensures word == "" || (word[0] != ' ' && word[0] != '\t')
  {
    if rest != "" && (rest[0] == ' ' || rest[0] == '\t') {
      blanks, word := BlanksOf(rest[1..]);
      assert rest == [rest[0]] + blanks + word;
      blanks := [rest[0]] + blanks;
    } else {
      blanks, word := "", rest;
    }
  }

  /** There is no other operand, so the readings above say what each operand reads as. */
  lemma EveryOperand(rest: string) returns (dash: bool, blanks: string, pieces: seq<Piece>, t: string)
    ensures Spells(rest, dash, blanks, pieces, t)
  {
    dash := rest != "" && rest[0] == '-';
    var word;
    blanks, word := BlanksOf(if dash then rest[1..] else rest);
    assert rest == Operand(dash, blanks, word);
    assert Lead(dash, blanks, word);
    hide Operand, Lead, EndsWord, OpenQuote, SpelledAll;
    pieces, t := PiecesOf(word);
  }

  /** An operand is refused for its quote exactly when its pieces are followed by a quote that stays open. */
  lemma RefusedForItsQuote(rest: string)
    ensures HeredocWord(rest) == BadWord(OpenDelimiterQuote) <==>
              exists dash, blanks, pieces, t ::
                Spells(rest, dash, blanks, pieces, t) && OpenQuote(t) && LiteralAll(pieces) + OpenText(t) != ""
  {
    var dash, blanks, pieces, t := EveryOperand(rest);
    AllSpellings(rest);
    hide HeredocWord, Spells, OpenQuote, OpenText, LiteralAll;
    if HeredocWord(rest) == BadWord(OpenDelimiterQuote) {
      assert Spells(rest, dash, blanks, pieces, t) && Reading(dash, pieces, t) == BadWord(OpenDelimiterQuote);
    }
  }

  function BarePieces(delim: string): seq<Piece> {
    if delim == "" then [] else [Bare(delim[0])] + BarePieces(delim[1..])
  }

  lemma {:induction false} BareIsItself(delim: string)
    requires forall c :: c in delim ==> BareChar(c)
    ensures ValidPieces(BarePieces(delim)) &&
              SpelledAll(BarePieces(delim)) == delim && LiteralAll(BarePieces(delim)) == delim
    ensures delim != "" ==> BarePieces(delim) != []
  {
    if delim != "" {
      BareIsItself(delim[1..]);
      assert BarePieces(delim)[1..] == BarePieces(delim[1..]) && delim == [delim[0]] + delim[1..];
    }
  }

  lemma {:induction false} PlainIsInside(text: string)
    requires forall c :: c in text ==> c != '"' && c != '\\'
    ensures Inside(text, true) && Unescaped(text) == text
    decreases |text|
  {
    if text != "" {
      assert text[0] in text && forall c :: c in text[1..] ==> c in text;
      PlainIsInside(text[1..]);
      assert text == [text[0]] + text[1..];
    }
  }

  /** WORD, 'WORD' and "WORD" are one delimiter. */
  lemma ThreeSpellings(dash: bool, blanks: string, delim: string, t: string)
    requires delim != "" && (forall c :: c in delim ==> BareChar(c)) && EndsWord(t)
    requires Lead(dash, blanks, delim + t)
    ensures
      var word := Word(delim, dash, t);
      && HeredocWord(Operand(dash, blanks, delim + t)) == word
      && HeredocWord(Operand(dash, blanks, "'" + delim + "'" + t)) == word
      && HeredocWord(Operand(dash, blanks, "\"" + delim + "\"" + t)) == word
  {
    BareIsItself(delim);
    PlainIsInside(delim);
    StopsThere(t, "");
    ReadsDelimiter(Operand(dash, blanks, delim + t), dash, blanks, BarePieces(delim), t);
    OnePiece(dash, blanks, Single(delim), t);
    OnePiece(dash, blanks, Double(delim), t);
  }

  lemma OnePiece(dash: bool, blanks: string, p: Piece, t: string)
    requires (p.Single? || p.Double?) && ValidPiece(p) && Literal(p) != "" && EndsWord(t)
    requires forall c :: c in blanks ==> c == ' ' || c == '\t'
    ensures HeredocWord(Operand(dash, blanks, Spelled(p) + t)) == Word(Literal(p), dash, t)
  {
    StopsThere(t, "");
    assert SpelledAll([p]) == Spelled(p) + "" == Spelled(p) && LiteralAll([p]) == Literal(p) + "" == Literal(p);
    assert (Spelled(p) + t)[0] == Spelled(p)[0];
    hide HeredocWord, OpenQuote, EndsWord;
    ReadsDelimiter(Operand(dash, blanks, Spelled(p) + t), dash, blanks, [p], t);
  }

  // ----- Bodies -----

  predicate EndsBody(h: Heredoc, raw: string) { (if h.stripTabs then StripTabs(raw) else raw) == h.delim }

  /** A body ends exactly at the first line that is the delimiter, with leading tabs off when asked for. */
  lemma {:induction false} BodyEndsAtFirst(s: Lexer, lines: seq<string>, k: nat, startLine: int, offset: nat)
    requires s.heredocBody != [] && k <= |lines|
    requires forall i :: 0 <= i < k ==> !EndsBody(s.heredocBody[0], lines[i])
    requires k < |lines| ==> EndsBody(s.heredocBody[0], lines[k])
    ensures LexLines(s, lines, startLine, offset) ==
              if k == |lines| then s
              else LexLines(s.(heredocBody := s.heredocBody[1..]), lines[k + 1..], startLine, offset + k + 1)
    decreases |lines|
  {
    hide LexRest, EndLine, BeginLine, StripTabs;
    if lines != [] && k > 0 {
      BodyEndsAtFirst(s, lines[1..], k - 1, startLine, offset + 1);
      assert k < |lines| ==> lines[1..][k..] == lines[k + 1..];
    }
  }

  /** An operand that is no word makes the lexer lose the rest of the line, whatever commands are on it. */
  lemma BadWordLosesLine(s: Lexer, rest: string, startLine: int, offset: nat)
    requires Plain(s) && HeredocWord(rest).BadWord? && (rest == "" || rest[0] != '<')
    ensures LexRest(s, "<<" + rest, startLine, offset) == s.(unsupported := Some(HeredocWord(rest).reason))
  {
    var line := "<<" + rest;
    assert line[0] == '<' && line[1] == '<' && line[2..] == rest && (rest != "" ==> line[2] == rest[0]);
    hide HeredocWord;
    assert StepUnquoted(s, line, startLine, offset) == StepHeredoc(s, line, offset);
    assert Step(s, line, startLine, offset) == (s.(unsupported := Some(HeredocWord(rest).reason)), "");
  }

  /** So two commands after an empty delimiter are never seen, although the line is meant to be parsed on. */
  lemma EmptyDelimiterHidesCommands(s: Lexer, commands: string, startLine: int, offset: nat)
    requires Plain(s)
    ensures LexRest(s, "<< '' ;" + commands, startLine, offset) == s.(unsupported := Some(NoDelimiter))
  {
    var t := " ;" + commands;
    var rest := Operand(false, " ", SpelledAll([Single("")]) + t);
    assert SpelledAll([Single("")]) == "''" && LiteralAll([Single("")]) == "";
    assert (SpelledAll([Single("")]) + t)[0] == '\'';
    ReadsDelimiter(rest, false, " ", [Single("")], t);
    assert "<< '' ;" + commands == "<<" + rest && rest[0] == ' ';
    hide HeredocWord, LexRest;
    BadWordLosesLine(s, rest, startLine, offset);
  }

  // ----- A whole heredoc -----

  lemma {:induction false} NoNewline(text: string)
    requires '\n' !in text
    ensures Head(text) == text && Tail(text) == [] && Newlines(text) == 0
    decreases |text|
  {
    if text != "" {
      NoNewline(text[1..]);
      assert text == [text[0]] + text[1..];
    }
  }

  lemma HeredocRest(s: Lexer, operand: string, startLine: int, offset: nat)
    requires Plain(s) && !s.hasToken && s.current == "" && s.pendingHeredocs == []
    requires HeredocWord(operand).Word? && HeredocWord(operand).next == "" && (operand == "" || operand[0] != '<')
    ensures LexRest(s, "<<" + operand, startLine, offset) ==
              s.(pendingHeredocs := [Heredoc(HeredocWord(operand).delim, HeredocWord(operand).stripTabs, offset)])
  {
    var line := "<<" + operand;
    assert line[0] == '<' && line[1] == '<' && line[2..] == operand && (operand != "" ==> line[2] == operand[0]);
    hide HeredocWord, FlushCommand;
    var h := Heredoc(HeredocWord(operand).delim, HeredocWord(operand).stripTabs, offset);
    assert StepUnquoted(s, line, startLine, offset) == StepHeredoc(s, line, offset);
    var after := s.(pendingHeredocs := [h]);
    assert s.pendingHeredocs + [h] == [h];
    assert FlushToken(after) == after;
    assert Step(s, line, startLine, offset) == (after, "");
  }

  /** The header's last line: the operator with its operand, and the line is over. */
  lemma AtHeredoc(s: Lexer, operand: string, startLine: int, offset: nat)
    requires Plain(s) && !s.hasToken && s.current == "" && s.pendingHeredocs == [] && '\n' !in operand
    requires HeredocWord(operand).Word? && HeredocWord(operand).next == "" && (operand == "" || operand[0] != '<')
    ensures At(s, "<<" + operand, startLine, offset) ==
              var h := Heredoc(HeredocWord(operand).delim, HeredocWord(operand).stripTabs, offset);
              FlushCommand(s, startLine, offset).(heredocBody := [h])
  {
    NoNewline("<<" + operand);
    HeredocRest(s, operand, startLine, offset);
    var h := Heredoc(HeredocWord(operand).delim, HeredocWord(operand).stripTabs, offset);
    HeredocLineEnds(s, h, startLine, offset);
    hide HeredocWord, LexRest, Head, Tail, EndLine, FlushCommand, LexLines;
    NoLines(FlushCommand(s, startLine, offset).(heredocBody := [h]), startLine, offset + 1);
  }

  lemma HeredocLineEnds(s: Lexer, h: Heredoc, startLine: int, offset: nat)
    requires Plain(s) && s.pendingHeredocs == []
    ensures EndLine(s.(pendingHeredocs := [h]), startLine, offset) ==
              FlushCommand(s, startLine, offset).(heredocBody := [h])
  {
  }

  lemma {:induction false} LexLinesAppend(s: Lexer, a: seq<string>, b: seq<string>, startLine: int, offset: nat)
    ensures LexLines(s, a + b, startLine, offset) ==
              LexLines(LexLines(s, a, startLine, offset), b, startLine, offset + |a|)
    decreases |a|
  {
    if a == [] {
      assert a + b == b;
    } else {
      assert (a + b)[1..] == a[1..] + b;
      hide LexLine;
      LexLinesAppend(LexLine(s, a[0], startLine, offset), a[1..], b, startLine, offset + 1);
    }
  }

  /**
   A command of quoted words with a heredoc, however its delimiter is spelled,
   lexes to that one command: no line of the body is taken for a command, and the
   first delimiter line ends it.
   */
  lemma LexHeredoc(words: seq<string>, dash: bool, blanks: string, pieces: seq<Piece>, body: seq<string>, last: string,
                   startLine: int)
    requires words != [] && ValidPieces(pieces) && LiteralAll(pieces) != ""
    requires Lead(dash, blanks, SpelledAll(pieces)) && '\n' !in Operand(dash, blanks, SpelledAll(pieces))
    requires Operand(dash, blanks, SpelledAll(pieces))[0] != '<'
    requires forall raw :: raw in body ==> !EndsBody(Heredoc(LiteralAll(pieces), dash, 0), raw)
    requires EndsBody(Heredoc(LiteralAll(pieces), dash, 0), last)
    ensures
      var header := SplitLines(QuotedWords(words) + "<<" + Operand(dash, blanks, SpelledAll(pieces)));
      Lex(header + body + [last], startLine) ==
        Lexed([Command(words, startLine, startLine + NewlinesIn(words), None)], [], [])
  {
    var operand, delim := Operand(dash, blanks, SpelledAll(pieces)), LiteralAll(pieces);
    OperandReads(dash, blanks, pieces);
    hide HeredocWord, QuotedWords, SplitLines, NewlinesIn, Lead, SpelledAll, LiteralAll, Operand, ValidPieces;
    assert forall raw :: EndsBody(Heredoc(delim, dash, 0), raw) ==>
                           EndsBody(Heredoc(delim, dash, NewlinesIn(words)), raw);
    assert forall raw :: EndsBody(Heredoc(delim, dash, NewlinesIn(words)), raw) ==>
                           EndsBody(Heredoc(delim, dash, 0), raw);
    hide LexLines, Lex, OneCommand, EndsBody, START, Finish;
    var header := HeaderEnds(words, operand, startLine);
    OneCommandIs(words, startLine, 0);
    var h := Heredoc(delim, dash, NewlinesIn(words));
    HeredocLexes(START, OneCommand(words, startLine), header, h, body, last, startLine);
    LexedToOne(header + body + [last], words, startLine);
  }

  lemma OperandReads(dash: bool, blanks: string, pieces: seq<Piece>)
    requires ValidPieces(pieces) && LiteralAll(pieces) != "" && Lead(dash, blanks, SpelledAll(pieces))
    ensures HeredocWord(Operand(dash, blanks, SpelledAll(pieces))) == Word(LiteralAll(pieces), dash, "")
  {
    assert SpelledAll(pieces) + "" == SpelledAll(pieces);
    hide HeredocWord, SpelledAll, LiteralAll, Lead, Operand, ValidPieces;
    ReadsDelimiter(Operand(dash, blanks, SpelledAll(pieces)), dash, blanks, pieces, "");
  }

  lemma HeredocLexes(from: Lexer, s: Lexer, header: seq<string>,
      h: Heredoc, body: seq<string>, last: string, startLine: int)
    requires s.heredocBody == [] && LexLines(from, header, startLine, 0) == s.(heredocBody := [h])
    requires (forall raw :: raw in body ==> !EndsBody(h, raw)) && EndsBody(h, last)
    ensures LexLines(from, header + body + [last], startLine, 0) == s
  {
    hide LexLines, EndsBody;
    LexLinesAppend(from, header, body + [last], startLine, 0);
    BodyIsSkipped(s, body, last, h, startLine, |header|);
    Assoc(header, body, [last]);
  }

  lemma NoLines(s: Lexer, startLine: int, offset: nat)
    ensures LexLines(s, [], startLine, offset) == s
  {
  }

  /** An open heredoc's body and its last line change nothing else. */
  lemma BodyIsSkipped(s: Lexer, body: seq<string>, last: string, h: Heredoc, startLine: int, offset: nat)
    requires s.heredocBody == [] && (forall raw :: raw in body ==> !EndsBody(h, raw)) && EndsBody(h, last)
    ensures LexLines(s.(heredocBody := [h]), body + [last], startLine, offset) == s
  {
    var lines, open := body + [last], s.(heredocBody := [h]);
    hide EndsBody;
    forall i | 0 <= i < |body| ensures !EndsBody(h, lines[i]) { assert body[i] in body; }
    assert lines[|body| + 1..] == [] && [h][1..] == [];
    NoLines(s, startLine, offset + |body| + 1);
    hide LexLines;
    BodyEndsAtFirst(open, lines, |body|, startLine, offset);
  }

  lemma HeaderEnds(words: seq<string>, operand: string, startLine: int) returns (header: seq<string>)
    requires '\n' !in operand && HeredocWord(operand).Word? &&
              HeredocWord(operand).next == "" && operand != "" && operand[0] != '<'
    ensures header == SplitLines(QuotedWords(words) + "<<" + operand)
    ensures
      var h := Heredoc(HeredocWord(operand).delim, HeredocWord(operand).stripTabs, NewlinesIn(words));
      LexLines(START, header, startLine, 0) == OneCommand(words, startLine).(heredocBody := [h])
  {
    var text := QuotedWords(words) + "<<" + operand;
    header := SplitLines(text);
    Assoc(QuotedWords(words), "<<", operand);
    StartIsPlain(words);
    hide HeredocWord, QuotedWords, SplitLines, NewlinesIn, At, FlushCommand, LexLines, START;
    LexFromStart(text, startLine);
    AtQuotedWords(START, words, "<<" + operand, startLine, 0);
    AtHeredoc(START.(tokens := words), operand, startLine, NewlinesIn(words));
  }
}

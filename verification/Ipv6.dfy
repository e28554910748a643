/**
 Reading IPv6 text: every legal spelling of eight words, section 2.2 of RFC 4291,
 gives those words, and an IPv4-mapped address is judged as its IPv4 address.
 */
module Ipv6 {
  import opened Basics
  import opened Strings
  import opened Wrappers

  // ----- Text -----

  function LowerChar(c: char): char { if 'A' <= c <= 'Z' then c + ('a' - 'A') else c }

  function Lower(s: string): string { seq(|s|, i requires 0 <= i < |s| => LowerChar(s[i])) }

  /** Drops a zone: the first percent sign after which the line goes on to the end. */
  function StripZone(s: string): string {
    if s == "" then ""
    else if s[0] == '%' && forall c :: c in s ==> !LineEnd(c) then ""
    else [s[0]] + StripZone(s[1..])
  }

  function DigitValue(c: char): nat
    requires Digit(c)
  {
    c as int - '0' as int
  }

  predicate Digits(s: string) { s != "" && forall c :: c in s ==> Digit(c) }

  function Decimal(s: string): nat
    requires forall c :: c in s ==> Digit(c)
  {
    if s == "" then 0 else Decimal(s[..|s| - 1]) * 10 + DigitValue(s[|s| - 1])
  }

  predicate HexDigit(c: char) { Digit(c) || 'a' <= c <= 'f' }

  function HexDigitValue(c: char): nat
    requires HexDigit(c)
  {
    if Digit(c) then DigitValue(c) else c as int - 'a' as int + 10
  }

  function HexValue(s: string): nat
    requires forall c :: c in s ==> HexDigit(c)
  {
    if s == "" then 0 else HexValue(s[..|s| - 1]) * 16 + HexDigitValue(s[|s| - 1])
  }

  /** toString(16) */
  function HexText(n: nat): string {
    if n < 16 then [HEX[n]] else HexText(n / 16) + [HEX[n % 16]]
  }

  predicate Group(s: string) { 1 <= |s| <= 4 && forall c :: c in s ==> HexDigit(c) }

  // ----- The parser -----

  predicate FourDigits(parts: seq<string>) {
    |parts| == 4 && Digits(parts[0]) && Digits(parts[1]) && Digits(parts[2]) && Digits(parts[3])
  }

  predicate Dotted(s: string) { FourDigits(Split(s, '.')) }

  function Numbers(parts: seq<string>): (n: seq<nat>)
    requires FourDigits(parts)
    ensures |n| == 4
  {
    [Decimal(parts[0]), Decimal(parts[1]), Decimal(parts[2]), Decimal(parts[3])]
  }

  /** The two words that four octets stand for. */
  function WordPair(n: seq<nat>): (words: seq<nat>)
    requires |n| == 4
    ensures |words| == 2
  {
    [n[0] * 256 + n[1], n[2] * 256 + n[3]]
  }

  predicate AreOctets(n: seq<nat>)
    requires |n| == 4
  {
    n[0] <= 255 && n[1] <= 255 && n[2] <= 255 && n[3] <= 255
  }

  /** Where the leftmost dotted quad that reaches the end starts. */
  function DottedTail(s: string): (at: Option<nat>)
    ensures at.Some? ==> at.value <= |s| && Dotted(s[at.value..])
  {
    if Dotted(s) then Some(0)
    else if s == "" then None
    else match DottedTail(s[1..]) case None => None case Some(i) => assert s[i + 1..] == s[1..][i..]; Some(i + 1)
  }

  /** The text with its dotted quad, if any, as two groups; None for an octet over 255. */
  function WithoutDots(lower: string): Option<string> {
    var at := DottedTail(lower);
    if at.None? then Some(lower)
    else
      var n := Numbers(Split(lower[at.value..], '.'));
      if !AreOctets(n) then None
      else Some(lower[..at.value] + HexText(WordPair(n)[0]) + ":" + HexText(WordPair(n)[1]))
  }

  /** The first double colon. */
  function DoubleColon(s: string): (at: Option<nat>)
    ensures at.Some? ==> at.value + 2 <= |s|
  {
    if |s| < 2 then None
    else if s[0] == ':' && s[1] == ':' then Some(0)
    else match DoubleColon(s[1..]) case None => None case Some(i) => Some(i + 1)
  }

  function Groups(text: string): seq<string> { if text == "" then [] else Split(text, ':') }

  function Zeros(n: nat): seq<string> { seq(n, _ => "0") }

  function Values(groups: seq<string>): seq<nat>
    requires forall g :: g in groups ==> Group(g)
  {
    seq(|groups|, i requires 0 <= i < |groups| && Group(groups[i]) => HexValue(groups[i]))
  }

  function FromGroups(groups: seq<string>): (words: Option<seq<nat>>)
    ensures words.Some? ==> |words.value| == 8
  {
    if |groups| == 8 && forall g :: g in groups ==> Group(g) then Some(Values(groups)) else None
  }

  predicate GroupChars(s: string) { forall c :: c in s ==> HexDigit(c) || c == ':' }

  /** The eight words of a text of groups. */
  function ParseGroups(text: string): (words: Option<seq<nat>>)
    ensures words.Some? ==> |words.value| == 8
  {
    if text == "" || !GroupChars(text) then None
    else
      var at := DoubleColon(text);
      if at.None? then FromGroups(Groups(text))
      else if DoubleColon(text[at.value + 2..]).Some? then None
      else
        var left, right := Groups(text[..at.value]), Groups(text[at.value + 2..]);
        if |left| + |right| > 7 then None else FromGroups(left + Zeros(8 - |left| - |right|) + right)
  }

  function Ipv6Words(addr: string): (words: Option<seq<nat>>)
    ensures words.Some? ==> |words.value| == 8
  {
    match WithoutDots(StripZone(Lower(addr)))
    case None => None
    case Some(text) => ParseGroups(text)
  }

  // ----- Legal spellings -----

  predicate AllGroups(groups: seq<string>) { forall g :: g in groups ==> Group(Lower(g)) }

  function LowerAll(groups: seq<string>): seq<string> {
    seq(|groups|, i requires 0 <= i < |groups| => Lower(groups[i]))
  }

  /** Eight groups, or fewer around one double colon that stands for at least one group of zeros. */
  datatype Spelling = Full(groups: seq<string>) | Compressed(left: seq<string>, right: seq<string>)

  predicate Legal(s: Spelling) {
    match s
    case Full(groups) => |groups| == 8 && AllGroups(groups)
    case Compressed(left, right) => |left| + |right| <= 7 && AllGroups(left) && AllGroups(right)
  }

  function Text(s: Spelling): string {
    match s
    case Full(groups) => Join(groups, ':')
    case Compressed(left, right) => Join(left, ':') + "::" + Join(right, ':')
  }

  function Spelled(s: Spelling): seq<nat>
    requires Legal(s)
  {
    match s
    case Full(groups) => Values(LowerAll(groups))
    case Compressed(left, right) =>
      Values(LowerAll(left)) + seq(8 - |left| - |right|, _ => 0) + Values(LowerAll(right))
  }

  // ----- Reading a legal spelling -----

  lemma {:induction false} JoinChars(groups: seq<string>)
    requires forall g :: g in groups ==> Group(g)
    ensures GroupChars(Join(groups, ':'))
    ensures groups != [] ==> Join(groups, ':') != "" && Join(groups, ':')[0] != ':'
  {
    if |groups| == 1 {
      assert groups[0] in groups && groups[0][0] in groups[0];
    } else if |groups| > 1 {
      assert groups[0] in groups;
      JoinChars(groups[1..]);
      assert groups[0][0] in groups[0] && Join(groups, ':')[0] == groups[0][0];
    }
  }

  lemma {:induction false} NoDoublePlain(s: string)
    requires ':' !in s
    ensures DoubleColon(s).None?
  {
    if |s| >= 2 {
      assert s[0] in s;
      NoDoublePlain(s[1..]);
    }
  }

  /** Past a group and a colon that no colon follows, the search starts anew. */
  lemma {:induction false} DoubleAfter(g: string, rest: string)
    requires ':' !in g && g != "" && (rest == "" || rest[0] != ':')
    ensures
      var text := g + ":" + rest;
      DoubleColon(text) == match DoubleColon(rest) case None => None case Some(i) => Some(i + |g| + 1)
    decreases |g|
  {
    var text := g + ":" + rest;
    assert g[0] in g && text[0] == g[0] && text[1..] == g[1..] + ":" + rest;
    if |g| == 1 {
      var tail := ":" + rest;
      assert text[1..] == tail && tail[1..] == rest;
      if rest != "" { assert tail[1] == rest[0]; }
    } else {
      DoubleAfter(g[1..], rest);
    }
  }

  lemma {:induction false} DoubleAtOnce(g: string, rest: string)
    requires ':' !in g
    ensures DoubleColon(g + "::" + rest) == Some(|g|)
  {
    var text := g + "::" + rest;
    if g == "" {
      assert text[0] == ':' && text[1] == ':';
    } else {
      assert g[0] in g && text[0] == g[0] && text[1..] == g[1..] + "::" + rest;
      DoubleAtOnce(g[1..], rest);
    }
  }

  lemma {:induction false} NoDouble(groups: seq<string>)
    requires forall g :: g in groups ==> Group(g)
    ensures DoubleColon(Join(groups, ':')).None?
  {
    if |groups| == 1 {
      assert groups[0] in groups;
      NoDoublePlain(groups[0]);
    } else if |groups| > 1 {
      assert groups[0] in groups;
      NoDouble(groups[1..]);
      JoinChars(groups[1..]);
      DoubleAfter(groups[0], Join(groups[1..], ':'));
    }
  }

  lemma {:induction false} OneDouble(left: seq<string>, rest: string)
    requires forall g :: g in left ==> Group(g)
    ensures DoubleColon(Join(left, ':') + "::" + rest) == Some(|Join(left, ':')|)
  {
    if left == [] {
      DoubleAtOnce("", rest);
    } else if |left| == 1 {
      assert left[0] in left;
      DoubleAtOnce(left[0], rest);
    } else {
      assert left[0] in left;
      var more := Join(left[1..], ':') + "::" + rest;
      OneDouble(left[1..], rest);
      JoinChars(left[1..]);
      assert Join(left, ':') + "::" + rest == left[0] + ":" + more;
      assert more[0] == Join(left[1..], ':')[0];
      DoubleAfter(left[0], more);
    }
  }

  lemma GroupsOfJoin(groups: seq<string>)
    requires forall g :: g in groups ==> Group(g)
    ensures Groups(Join(groups, ':')) == groups
  {
    JoinChars(groups);
    if groups != [] {
      forall g | g in groups ensures ':' !in g {}
      SplitJoin(groups, ':');
    }
  }

  predicate AreGroups(groups: seq<string>) { forall g :: g in groups ==> Group(g) }

  lemma ParseFull(groups: seq<string>)
    requires |groups| == 8 && AreGroups(groups)
    ensures ParseGroups(Join(groups, ':')) == Some(Values(groups))
  {
    JoinChars(groups);
    NoDouble(groups);
    GroupsOfJoin(groups);
  }

  lemma ValuesConcat(a: seq<string>, b: seq<string>)
    requires AreGroups(a) && AreGroups(b)
    ensures AreGroups(a + b) && Values(a + b) == Values(a) + Values(b)
  {
  }

  lemma ParseAroundDouble(l: string, r: string)
    requires GroupChars(l) && GroupChars(r) && DoubleColon(l + "::" + r) == Some(|l|) && DoubleColon(r).None?
    requires |Groups(l)| + |Groups(r)| <= 7
    ensures ParseGroups(l + "::" + r) == FromGroups(Groups(l) + Zeros(8 - |Groups(l)| - |Groups(r)|) + Groups(r))
  {
    hide DoubleColon, Groups, FromGroups, GroupChars;
    AroundDouble(l, r);
  }

  lemma AroundDouble(l: string, r: string)
    ensures GroupChars(l) && GroupChars(r) ==> GroupChars(l + "::" + r)
    ensures (l + "::" + r)[..|l|] == l && (l + "::" + r)[|l| + 2..] == r && l + "::" + r != ""
  {
    assert forall c :: c in l + "::" + r ==> c in l || c in r || c == ':';
  }

  lemma ParseCompressed(left: seq<string>, right: seq<string>)
    requires |left| + |right| <= 7 && AreGroups(left) && AreGroups(right)
    ensures ParseGroups(Join(left, ':') + "::" + Join(right, ':')) ==
              Some(Values(left) + seq(8 - |left| - |right|, _ => 0) + Values(right))
  {
    var n := 8 - |left| - |right|;
    hide Join, ParseGroups, DoubleColon, Groups, Group, GroupChars;
    JoinChars(left);
    JoinChars(right);
    OneDouble(left, Join(right, ':'));
    NoDouble(right);
    GroupsOfJoin(left);
    GroupsOfJoin(right);
    ParseAroundDouble(Join(left, ':'), Join(right, ':'));
    ZeroGroups(n);
    ValuesConcat(left, Zeros(n));
    ValuesConcat(left + Zeros(n), right);
  }

  lemma ZeroGroups(n: nat)
    ensures AreGroups(Zeros(n)) && Values(Zeros(n)) == seq(n, _ => 0)
  {
    assert HexValue("0") == 0 by { assert "0"[..0] == ""; }
  }

  // ----- Lower case, zones and dots -----

  lemma LowerConcat(a: string, b: string)
    ensures Lower(a + b) == Lower(a) + Lower(b)
  {
  }

  lemma {:induction false} LowerJoin(groups: seq<string>)
    ensures Lower(Join(groups, ':')) == Join(LowerAll(groups), ':')
  {
    if |groups| > 1 {
      LowerJoin(groups[1..]);
      LowerConcat(groups[0] + [':'], Join(groups[1..], ':'));
      LowerConcat(groups[0], [':']);
      assert Lower([':']) == [':'];
      assert LowerAll(groups)[1..] == LowerAll(groups[1..]);
    }
  }

  lemma LowerText(s: Spelling)
    ensures Lower(Text(s)) ==
              match s
              case Full(groups) => Join(LowerAll(groups), ':')
              case Compressed(left, right) => Join(LowerAll(left), ':') + "::" + Join(LowerAll(right), ':')
  {
    match s
    case Full(groups) => LowerJoin(groups);
    case Compressed(left, right) =>
      LowerJoin(left);
      LowerJoin(right);
      LowerConcat(Join(left, ':') + "::", Join(right, ':'));
      LowerConcat(Join(left, ':'), "::");
      assert Lower("::") == "::";
  }

  lemma {:induction false} NoZone(s: string)
    requires '%' !in s
    ensures StripZone(s) == s
  {
    if s != "" {
      assert s[0] in s && s == [s[0]] + s[1..];
      NoZone(s[1..]);
    }
  }

  lemma {:induction false} ZoneStripped(s: string, zone: string)
    requires '%' !in s && forall c :: c in zone ==> !LineEnd(c)
    ensures StripZone(s + "%" + zone) == s
  {
    var t := s + "%" + zone;
    if s == "" {
      assert t == "%" + zone;
    } else {
      assert s[0] in s && t[0] == s[0] && t[1..] == s[1..] + "%" + zone && s == [s[0]] + s[1..];
      ZoneStripped(s[1..], zone);
    }
  }

  lemma {:induction false} SplitKeepsChars(s: string, c: char, i: nat, x: char)
    requires i < |Split(s, c)| && x in Split(s, c)[i]
    ensures x in s
  {
    if s != "" {
      assert s == [s[0]] + s[1..];
      var rest := Split(s[1..], c);
      if s[0] == c {
        if i > 0 { SplitKeepsChars(s[1..], c, i - 1, x); }
      } else if i == 0 {
        if x != s[0] {
          assert x in rest[0];
          SplitKeepsChars(s[1..], c, 0, x);
        }
      } else {
        SplitKeepsChars(s[1..], c, i, x);
      }
    }
  }

  /** A character that is no digit and no dot turns up in some part of the split. */
  lemma {:induction false} SplitLosesNothing(s: string, c: char, x: char) returns (i: nat)
    requires x in s && x != c
    ensures i < |Split(s, c)| && x in Split(s, c)[i]
  {
    assert s == [s[0]] + s[1..];
    if s[0] == x {
      i := 0;
    } else {
      i := SplitLosesNothing(s[1..], c, x);
      if s[0] == c { i := i + 1; }
    }
  }

  lemma DottedChars(s: string, x: char)
    requires Dotted(s) && x in s
    ensures Digit(x) || x == '.'
  {
    if x != '.' {
      var i := SplitLosesNothing(s, '.', x);
      assert Digits(Split(s, '.')[i]);
    }
  }

  lemma {:induction false} NoDots(s: string)
    requires '.' !in s
    ensures DottedTail(s).None?
  {
    SplitPlain(s, '.');
    if s != "" {
      assert s == [s[0]] + s[1..];
      NoDots(s[1..]);
    }
  }

  /** After a colon a dotted quad is found where it starts. */
  lemma {:induction false} DotsFound(head: string, quad: string)
    requires Dotted(quad) && head != "" && head[|head| - 1] == ':'
    ensures DottedTail(head + quad) == Some(|head|)
    decreases |head|
  {
    var s := head + quad;
    assert ':' in s by { assert s[|head| - 1] == ':'; }
    if Dotted(s) { DottedChars(s, ':'); }
    assert s[1..] == head[1..] + quad;
    if |head| == 1 {
      assert s[1..] == quad && DottedTail(quad) == Some(0);
    } else {
      DotsFound(head[1..], quad);
    }
  }

  lemma CharsOfGroups(s: string)
    requires GroupChars(s)
    ensures '%' !in s && '.' !in s
  {
  }

  lemma AllLower(groups: seq<string>)
    ensures AllGroups(groups) <==> AreGroups(LowerAll(groups))
  {
    forall g | g in groups && AreGroups(LowerAll(groups)) ensures Group(Lower(g)) {
      var i :| 0 <= i < |groups| && groups[i] == g;
      assert LowerAll(groups)[i] in LowerAll(groups);
    }
    forall g | g in LowerAll(groups) && AllGroups(groups) ensures Group(g) {
      var i :| 0 <= i < |groups| && LowerAll(groups)[i] == g;
      assert groups[i] in groups;
    }
  }

  lemma ParseLegal(s: Spelling)
    requires Legal(s)
    ensures GroupChars(Lower(Text(s))) && ParseGroups(Lower(Text(s))) == Some(Spelled(s))
  {
    LowerText(s);
    hide Join, ParseGroups, GroupChars, Group, Lower;
    match s
    case Full(groups) =>
      AllLower(groups);
      JoinChars(LowerAll(groups));
      ParseFull(LowerAll(groups));
    case Compressed(left, right) =>
      AllLower(left);
      AllLower(right);
      JoinChars(LowerAll(left));
      JoinChars(LowerAll(right));
      AroundDouble(Join(LowerAll(left), ':'), Join(LowerAll(right), ':'));
      ParseCompressed(LowerAll(left), LowerAll(right));
  }

  /** Every legal spelling in groups, in any case, with or without a zone, reads as the words it spells. */
  lemma ReadsGroups(s: Spelling, zone: string)
    requires Legal(s) && forall c :: c in Lower(zone) ==> !LineEnd(c)
    ensures Ipv6Words(Text(s)) == Some(Spelled(s))
    ensures Ipv6Words(Text(s) + "%" + zone) == Some(Spelled(s))
  {
    var text := Lower(Text(s));
    ParseLegal(s);
    CharsOfGroups(text);
    NoZone(text);
    NoDots(text);
    LowerConcat(Text(s) + "%", zone);
    LowerConcat(Text(s), "%");
    assert Lower("%") == "%";
    ZoneStripped(text, Lower(zone));
  }

  // ----- Dotted tails -----

  lemma {:induction false} HexTextOf(n: nat, digits: nat)
    requires digits > 0
    requires if digits == 1 then n < 16 else if digits == 2 then n < 256 else if digits == 3 then n < 4096
             else digits == 4 && n < 0x1_0000
    ensures |HexText(n)| <= digits && Group(HexText(n)) && HexValue(HexText(n)) == n
  {
    HexDigitOf(n % 16);
    if n < 16 {
      assert [HEX[n]][..0] == "";
    } else {
      HexTextOf(n / 16, digits - 1);
      var front := HexText(n / 16);
      assert HexText(n)[..|HexText(n)| - 1] == front;
    }
  }

  lemma HexDigitOf(n: nat)
    requires n < 16
    ensures HexDigit(HEX[n]) && HexDigitValue(HEX[n]) == n
  {
  }

  predicate Quad(q: seq<string>) { FourDigits(q) && AreOctets(Numbers(q)) }

  function QuadText(q: seq<string>): string { Join(q, '.') }

  /** The two words of a dotted quad. */
  function QuadWords(q: seq<string>): (words: seq<nat>)
    requires Quad(q)
    ensures |words| == 2
  {
    WordPair(Numbers(q))
  }

  function QuadGroups(q: seq<string>): (groups: seq<string>)
    requires Quad(q)
    ensures |groups| == 2
  {
    [HexText(QuadWords(q)[0]), HexText(QuadWords(q)[1])]
  }

  lemma QuadSplits(q: seq<string>)
    requires Quad(q)
    ensures Split(QuadText(q), '.') == q && Dotted(QuadText(q))
    ensures '%' !in QuadText(q) && Lower(QuadText(q)) == QuadText(q)
  {
    forall o | o in q ensures '.' !in o { assert o == q[0] || o == q[1] || o == q[2] || o == q[3]; }
    SplitJoin(q, '.');
    var text := QuadText(q);
    assert Dotted(text);
    forall i | 0 <= i < |text| ensures text[i] != '%' && LowerChar(text[i]) == text[i] {
      assert text[i] in text;
      DottedChars(text, text[i]);
    }
  }

  lemma QuadGroupsRead(q: seq<string>)
    requires Quad(q)
    ensures AreGroups(QuadGroups(q)) && Values(QuadGroups(q)) == QuadWords(q)
  {
    HexTextOf(QuadWords(q)[0], 4);
    HexTextOf(QuadWords(q)[1], 4);
  }

  lemma JoinTwo(a: string, b: string)
    ensures Join([a, b], ':') == a + ":" + b
  {
    assert [a, b][1..] == [b];
  }

  lemma WithoutDotsAt(s: string, at: nat, q: seq<string>)
    requires Quad(q) && DottedTail(s) == Some(at) && at <= |s| && Split(s[at..], '.') == q
    ensures WithoutDots(s) == Some(s[..at] + QuadGroups(q)[0] + ":" + QuadGroups(q)[1])
  {
    hide Split, DottedTail, HexText, Numbers;
  }

  /** A quad after a colon is read as the two groups it stands for. */
  lemma QuadReplaced(head: string, q: seq<string>)
    requires Quad(q) && head != "" && head[|head| - 1] == ':'
    ensures WithoutDots(head + QuadText(q)) == Some(head + Join(QuadGroups(q), ':'))
  {
    hide Quad, Split, DottedTail, Dotted, Join, QuadText, QuadGroups, WithoutDots, Lower;
    QuadSplits(q);
    DotsFound(head, QuadText(q));
    assert (head + QuadText(q))[|head|..] == QuadText(q) && (head + QuadText(q))[..|head|] == head;
    WithoutDotsAt(head + QuadText(q), |head|, q);
    var g := QuadGroups(q);
    TwoGroups(q);
    assert head + g[0] + ":" + g[1] == head + (g[0] + ":" + g[1]);
  }

  lemma TwoGroups(q: seq<string>)
    requires Quad(q)
    ensures |QuadGroups(q)| == 2 && Join(QuadGroups(q), ':') == QuadGroups(q)[0] + ":" + QuadGroups(q)[1]
  {
    JoinTwo(QuadGroups(q)[0], QuadGroups(q)[1]);
    assert QuadGroups(q) == [QuadGroups(q)[0], QuadGroups(q)[1]];
  }

  lemma {:induction false} JoinConcat(a: seq<string>, b: seq<string>)
    requires a != [] && b != []
    ensures Join(a + b, ':') == Join(a, ':') + ":" + Join(b, ':')
  {
    if |a| == 1 {
      assert (a + b)[1..] == b;
    } else {
      assert (a + b)[1..] == a[1..] + b;
      JoinConcat(a[1..], b);
    }
  }

  /** A head of six groups, or of at most five around a double colon, before a dotted quad. */
  predicate LegalHead(s: Spelling) {
    match s
    case Full(groups) => |groups| == 6 && AllGroups(groups)
    case Compressed(left, right) => |left| + |right| <= 5 && AllGroups(left) && AllGroups(right)
  }

  function HeadText(s: Spelling): string {
    match s
    case Full(groups) => Join(groups, ':') + ":"
    case Compressed(left, right) => Join(left, ':') + "::" + if right == [] then "" else Join(right, ':') + ":"
  }

  /** The spelling in groups that a dotted one stands for. */
  function Undotted(s: Spelling, q: seq<string>): Spelling
    requires Quad(q)
  {
    match s
    case Full(groups) => Full(groups + QuadGroups(q))
    case Compressed(left, right) => Compressed(left, right + QuadGroups(q))
  }

  lemma {:induction false} LowerGroup(g: string)
    requires forall c :: c in g ==> HexDigit(c) || c == ':'
    ensures Lower(g) == g
  {
    forall i | 0 <= i < |g| ensures LowerChar(g[i]) == g[i] { assert g[i] in g; }
  }

  lemma UndottedLegal(s: Spelling, q: seq<string>)
    requires LegalHead(s) && Quad(q)
    ensures Legal(Undotted(s, q))
  {
    QuadGroupsRead(q);
    forall g | g in QuadGroups(q) ensures Group(Lower(g)) { LowerGroup(g); }
  }

  lemma UndottedText(s: Spelling, q: seq<string>)
    requires LegalHead(s) && Quad(q)
    ensures Text(Undotted(s, q)) == HeadText(s) + Join(QuadGroups(q), ':')
  {
    hide Join, HexText, Decimal;
    match s
    case Full(groups) => JoinConcat(groups, QuadGroups(q));
    case Compressed(left, right) =>
      if right == [] {
        assert right + QuadGroups(q) == QuadGroups(q) && Join(left, ':') + "::" + "" == Join(left, ':') + "::";
      } else {
        JoinConcat(right, QuadGroups(q));
      }
  }

  lemma HeadLowers(s: Spelling, q: seq<string>)
    requires LegalHead(s) && Quad(q)
    ensures Lower(HeadText(s)) + Join(QuadGroups(q), ':') == Lower(Text(Undotted(s, q)))
    ensures Lower(HeadText(s)) != "" && Lower(HeadText(s))[|Lower(HeadText(s))| - 1] == ':'
    ensures '%' !in Lower(HeadText(s))
  {
    var g := Join(QuadGroups(q), ':');
    UndottedText(s, q);
    LowerConcat(HeadText(s), g);
    QuadGroupsRead(q);
    JoinChars(QuadGroups(q));
    LowerGroup(g);
    UndottedLegal(s, q);
    ParseLegal(Undotted(s, q));
    var text := Lower(Text(Undotted(s, q)));
    CharsOfGroups(text);
    forall c | c in Lower(HeadText(s)) ensures c in text {}
  }

  /** A legal spelling with a dotted tail reads as the words of its groups followed by those of its quad. */
  lemma ReadsDotted(s: Spelling, q: seq<string>)
    requires LegalHead(s) && Quad(q)
    ensures Legal(Undotted(s, q)) && Ipv6Words(HeadText(s) + QuadText(q)) == Some(Spelled(Undotted(s, q)))
    ensures Spelled(Undotted(s, q))[6..] == QuadWords(q)
  {
    var head := Lower(HeadText(s));
    UndottedLegal(s, q);
    ParseLegal(Undotted(s, q));
    HeadLowers(s, q);
    QuadSplits(q);
    LowerConcat(HeadText(s), QuadText(q));
    NoZone(head + QuadText(q));
    QuadReplaced(head, q);
    CharsOfGroups(Lower(Text(Undotted(s, q))));
    SpelledTail(s, q);
  }

  lemma SpelledTail(s: Spelling, q: seq<string>)
    requires LegalHead(s) && Quad(q) && Legal(Undotted(s, q))
    ensures |Spelled(Undotted(s, q))| == 8 && Spelled(Undotted(s, q))[6..] == QuadWords(q)
  {
    QuadGroupsRead(q);
    var g := QuadGroups(q);
    forall x | x in g ensures Lower(x) == x { LowerGroup(x); }
    match s
    case Full(groups) =>
      assert LowerAll(groups + g)[6..] == g;
      assert Values(LowerAll(groups + g))[6..] == Values(g);
    case Compressed(left, right) =>
      assert LowerAll(right + g)[|right|..] == g;
      assert Values(LowerAll(right + g))[|right|..] == Values(g);
  }

  // ----- Private addresses -----

  /** The special-use IPv4 ranges. */
  predicate PrivateOctets(a: nat, b: nat, c: nat, d: nat) {
    || a == 0 || a == 10 || a == 127 || (a == 169 && b == 254)
    || (a == 172 && 16 <= b <= 31) || (a == 192 && b == 168)
    || (a == 100 && 64 <= b <= 127)
    || (a == 192 && b == 0 && (c == 0 || c == 2))
    || (a == 198 && (b == 18 || b == 19))
    || (a == 198 && b == 51 && c == 100)
    || (a == 203 && b == 0 && c == 113) || a >= 224
  }

  /** Four parts, each an integer up to 255; an empty part counts as 0. */
  function Ipv4Octets(addr: string): Option<seq<nat>> {
    var parts := Split(addr, '.');
    if |parts| != 4 || exists p :: p in parts && !(forall c :: c in p ==> Digit(c)) then None
    else
      assert forall i :: 0 <= i < 4 ==> parts[i] in parts;
      var p := [Decimal(parts[0]), Decimal(parts[1]), Decimal(parts[2]), Decimal(parts[3])];
      if exists n :: n in p && n > 255 then None else Some(p)
  }

  predicate IsPrivateIPv4(addr: string) {
    var p := Ipv4Octets(addr);
    p.Some? && PrivateOctets(p.value[0], p.value[1], p.value[2], p.value[3])
  }

  /** The dotted text of the address embedded at two words. */
  function Embedded(high: nat, low: nat): string {
    DecimalText(high / 256) + "." + DecimalText(high % 256) + "."
    + DecimalText(low / 256) + "." + DecimalText(low % 256)
  }

  predicate AllZero(words: seq<nat>) { forall w :: w in words ==> w == 0 }

  predicate IsPrivateWords(words: seq<nat>)
    requires |words| == 8
  {
    if || AllZero(words) || (AllZero(words[..7]) && words[7] == 1)
       || words[0] / 0x200 == 0x7E || words[0] / 0x40 == 0x3FA || words[0] / 0x100 == 0xFF
       || (words[0] == 0x2001 && words[1] == 0x0DB8) then true
    else if words[0] == 0x2002 && IsPrivateIPv4(Embedded(words[1], words[2])) then true
    else
      var compatible := AllZero(words[..6]);
      var mapped := AllZero(words[..5]) && words[5] == 0xFFFF;
      var nat64 := words[0] == 0x64 && words[1] == 0xFF9B && (AllZero(words[2..6]) || words[2] == 1);
      (compatible || mapped || nat64) && IsPrivateIPv4(Embedded(words[6], words[7]))
  }

  predicate IsPrivateIPv6(addr: string) {
    var words := Ipv6Words(addr);
    words.None? || IsPrivateWords(words.value)
  }

  lemma {:induction false} DecimalTextOf(n: nat, digits: nat)
    requires digits > 0 && (if digits == 1 then n < 10 else if digits == 2 then n < 100 else digits == 3 && n < 1000)
    ensures Digits(DecimalText(n)) && Decimal(DecimalText(n)) == n
  {
    HexDigitOf(n % 10);
    assert Digit(HEX[n % 10]) && DigitValue(HEX[n % 10]) == n % 10;
    if n < 10 {
      assert [HEX[n]][..0] == "";
    } else {
      DecimalTextOf(n / 10, digits - 1);
      var front := DecimalText(n / 10);
      assert DecimalText(n)[..|DecimalText(n)| - 1] == front;
    }
  }

  function Decimals(a: nat, b: nat, c: nat, d: nat): seq<string> {
    [DecimalText(a), DecimalText(b), DecimalText(c), DecimalText(d)]
  }

  lemma QuadOctets(q: seq<string>)
    requires Quad(q)
    ensures Ipv4Octets(QuadText(q)) == Some(Numbers(q))
  {
    QuadSplits(q);
  }

  lemma JoinFour(a: string, b: string, c: string, d: string)
    ensures QuadText([a, b, c, d]) == a + "." + b + "." + c + "." + d
  {
    var q := [a, b, c, d];
    assert q[1..] == [b, c, d] && [b, c, d][1..] == [c, d] && [c, d][1..] == [d];
    assert Join([c, d], '.') == c + ['.'] + d;
    assert Join([b, c, d], '.') == b + ['.'] + Join([c, d], '.');
    assert Join(q, '.') == a + ['.'] + Join([b, c, d], '.');
    assert a + ['.'] + (b + ['.'] + (c + ['.'] + d)) == a + "." + b + "." + c + "." + d;
  }

  /** The text built from two words reads back as their four octets. */
  lemma EmbeddedOctets(a: nat, b: nat, c: nat, d: nat)
    requires a <= 255 && b <= 255 && c <= 255 && d <= 255
    ensures Ipv4Octets(Embedded(a * 256 + b, c * 256 + d)) == Some([a, b, c, d])
  {
    hide Ipv4Octets, DecimalText, Decimal, Digits, QuadText;
    assert (a * 256 + b) / 256 == a && (a * 256 + b) % 256 == b && (c * 256 + d) / 256 == c && (c * 256 + d) % 256 == d;
    DecimalTextOf(a, 3);
    DecimalTextOf(b, 3);
    DecimalTextOf(c, 3);
    DecimalTextOf(d, 3);
    JoinFour(DecimalText(a), DecimalText(b), DecimalText(c), DecimalText(d));
    QuadOctets(Decimals(a, b, c, d));
  }

  /** The prefix of IPv4-mapped addresses, section 2.5.5.2 of RFC 4291. */
  const MAPPED: seq<nat> := [0, 0, 0, 0, 0, 0xFFFF]

  lemma MappedWords(words: seq<nat>, a: nat, b: nat, c: nat, d: nat)
    requires a <= 255 && b <= 255 && c <= 255 && d <= 255
    requires words == MAPPED + [a * 256 + b, c * 256 + d]
    ensures IsPrivateWords(words) <==> PrivateOctets(a, b, c, d)
  {
    hide Embedded, Ipv4Octets, PrivateOctets;
    EmbeddedOctets(a, b, c, d);
    assert words[5] in words && words[..7][5] in words[..7] && words[..6][5] in words[..6];
    assert words[..5] == [0, 0, 0, 0, 0];
  }

  lemma MappedQuad(words: seq<nat>, q: seq<string>)
    requires Quad(q) && words == MAPPED + QuadWords(q)
    ensures IsPrivateWords(words) <==> IsPrivateIPv4(QuadText(q))
  {
    QuadOctets(q);
    var n := Numbers(q);
    MappedWords(words, n[0], n[1], n[2], n[3]);
    hide IsPrivateWords, QuadText, PrivateOctets, Ipv4Octets, Decimal;
  }

  lemma Judged(addr: string, words: seq<nat>, q: seq<string>)
    requires Quad(q) && Ipv6Words(addr) == Some(words) && words == MAPPED + QuadWords(q)
    ensures IsPrivateIPv6(addr) <==> IsPrivateIPv4(QuadText(q))
  {
    hide Ipv6Words, IsPrivateWords, IsPrivateIPv4, QuadText;
    MappedQuad(words, q);
  }

  /** However it is spelled, an IPv4-mapped address is private exactly when its IPv4 address is. */
  lemma MappedIsJudgedAsIPv4(s: Spelling, q: seq<string>, zone: string)
    requires Legal(s) && Quad(q) && Spelled(s) == MAPPED + QuadWords(q) && forall c :: c in Lower(zone) ==> !LineEnd(c)
    ensures IsPrivateIPv6(Text(s)) <==> IsPrivateIPv4(QuadText(q))
    ensures IsPrivateIPv6(Text(s) + "%" + zone) <==> IsPrivateIPv4(QuadText(q))
  {
    ReadsGroups(s, zone);
    Judged(Text(s), Spelled(s), q);
    Judged(Text(s) + "%" + zone, Spelled(s), q);
  }

  /** The same for the dotted spellings, such as `::ffff:10.0.0.1`. */
  lemma MappedDottedIsJudgedAsIPv4(s: Spelling, q: seq<string>)
    requires LegalHead(s) && Quad(q) && Legal(Undotted(s, q)) && Spelled(Undotted(s, q))[..6] == MAPPED
    ensures IsPrivateIPv6(HeadText(s) + QuadText(q)) <==> IsPrivateIPv4(QuadText(q))
  {
    hide Undotted, Legal, LegalHead, Spelled, IsPrivateIPv6, Ipv6Words, IsPrivateIPv4, HeadText, QuadText;
    ReadsDotted(s, q);
    SpelledTail(s, q);
    var words := Spelled(Undotted(s, q));
    assert words == words[..6] + words[6..];
    Judged(HeadText(s) + QuadText(q), words, q);
  }

  // ----- The ranges -----

  /** The addresses from base on, as many as the prefix leaves open. */
  datatype Block = Block(base: nat, size: nat)

  predicate In(address: nat, block: Block) { block.base <= address < block.base + block.size }

  predicate Among(address: nat, blocks: seq<Block>) { exists k :: 0 <= k < |blocks| && In(address, blocks[k]) }

  /** The 32-bit number of four octets. */
  function Number4(a: nat, b: nat, c: nat, d: nat): nat { ((a * 0x100 + b) * 0x100 + c) * 0x100 + d }

  /** The special-purpose blocks of RFC 6890 that the guard knows, with multicast and what is reserved above it. */
  const SPECIAL4: seq<Block> := [
    Block(Number4(0, 0, 0, 0), 0x100_0000), // 0.0.0.0/8
    Block(Number4(10, 0, 0, 0), 0x100_0000), // 10.0.0.0/8
    Block(Number4(100, 64, 0, 0), 0x40_0000), // 100.64.0.0/10
    Block(Number4(127, 0, 0, 0), 0x100_0000), // 127.0.0.0/8
    Block(Number4(169, 254, 0, 0), 0x1_0000), // 169.254.0.0/16
    Block(Number4(172, 16, 0, 0), 0x10_0000), // 172.16.0.0/12
    Block(Number4(192, 0, 0, 0), 0x100), // 192.0.0.0/24
    Block(Number4(192, 0, 2, 0), 0x100), // 192.0.2.0/24
    Block(Number4(192, 168, 0, 0), 0x1_0000), // 192.168.0.0/16
    Block(Number4(198, 18, 0, 0), 0x2_0000), // 198.18.0.0/15
    Block(Number4(198, 51, 100, 0), 0x100), // 198.51.100.0/24
    Block(Number4(203, 0, 113, 0), 0x100), // 203.0.113.0/24
    Block(Number4(224, 0, 0, 0), 0x2000_0000)] // 224.0.0.0/3

  /** The octets that are private are the addresses of those blocks. */
  lemma PrivateIsSpecial(a: nat, b: nat, c: nat, d: nat)
    requires a <= 255 && b <= 255 && c <= 255 && d <= 255
    ensures PrivateOctets(a, b, c, d) <==> Among(Number4(a, b, c, d), SPECIAL4)
  {
    var n := Number4(a, b, c, d);
    if PrivateOctets(a, b, c, d) {
      var k :=
        if a == 0 then 0 else if a == 10 then 1 else if a == 100 then 2 else if a == 127 then 3
        else if a == 169 then 4 else if a == 172 then 5 else if a == 192 && b == 0 then if c == 0 then 6 else 7
        else if a == 192 then 8 else if a == 198 then if b == 51 then 10 else 9 else if a == 203 then 11 else 12;
      assert In(n, SPECIAL4[k]);
    }
    if k :| 0 <= k < |SPECIAL4| && In(n, SPECIAL4[k]) {
      assert 0 <= k <= 12;
    }
  }

  /** The 128-bit number of eight words. */
  function Number6(w: seq<nat>): nat
    requires |w| == 8
  {
    w[0] * 0x1_0000_0000_0000_0000_0000_0000_0000 + w[1] * 0x1_0000_0000_0000_0000_0000_0000 +
    w[2] * 0x1_0000_0000_0000_0000_0000 + w[3] * 0x1_0000_0000_0000_0000 + w[4] * 0x1_0000_0000_0000 +
    w[5] * 0x1_0000_0000 + w[6] * 0x1_0000 + w[7]
  }

  const SPECIAL6: seq<Block> := [
    Block(0, 1), // ::/128
    Block(1, 1), // ::1/128
    Block(Number6([0xFC00, 0, 0, 0, 0, 0, 0, 0]), 0x200_0000_0000_0000_0000_0000_0000_0000), // fc00::/7
    Block(Number6([0xFE80, 0, 0, 0, 0, 0, 0, 0]), 0x40_0000_0000_0000_0000_0000_0000_0000), // fe80::/10
    Block(Number6([0xFF00, 0, 0, 0, 0, 0, 0, 0]), 0x100_0000_0000_0000_0000_0000_0000_0000), // ff00::/8
    Block(Number6([0x2001, 0xDB8, 0, 0, 0, 0, 0, 0]), 0x1_0000_0000_0000_0000_0000_0000)] // 2001:db8::/32

  /** 2002::/16, with an IPv4 address after the prefix. */
  const SIX_TO_FOUR := Block(Number6([0x2002, 0, 0, 0, 0, 0, 0, 0]), 0x1_0000_0000_0000_0000_0000_0000_0000)

  /** The blocks with an IPv4 address at the end. */
  const EMBEDDING: seq<Block> := [
    Block(0, 0x1_0000_0000), // ::/96
    Block(Number6([0, 0, 0, 0, 0, 0xFFFF, 0, 0]), 0x1_0000_0000), // ::ffff:0:0/96
    Block(Number6([0x64, 0xFF9B, 0, 0, 0, 0, 0, 0]), 0x1_0000_0000), // 64:ff9b::/96
    Block(Number6([0x64, 0xFF9B, 1, 0, 0, 0, 0, 0]), 0x1_0000_0000_0000_0000_0000)] // 64:ff9b:1::/48

  /** In a special block, or around an IPv4 address that is. */
  predicate Special6(address: nat) {
    || Among(address, SPECIAL6)
    || (In(address, SIX_TO_FOUR) && Among(address / 0x1_0000_0000_0000_0000_0000 % 0x1_0000_0000, SPECIAL4))
    || (Among(address, EMBEDDING) && Among(address % 0x1_0000_0000, SPECIAL4))
  }

  predicate AreWords(words: seq<nat>) { |words| == 8 && forall i :: 0 <= i < 8 ==> words[i] <= 0xFFFF }

  /** The tests of single words are those of the blocks. */
  lemma SpecialWords(w: seq<nat>)
    requires AreWords(w)
    ensures Among(Number6(w), SPECIAL6) <==>
              || Number6(w) == 0 || Number6(w) == 1 || w[0] / 0x200 == 0x7E || w[0] / 0x40 == 0x3FA
              || w[0] / 0x100 == 0xFF || (w[0] == 0x2001 && w[1] == 0xDB8)
  {
    var n := Number6(w);
    assert In(n, SPECIAL6[0]) <==> n == 0;
    assert In(n, SPECIAL6[1]) <==> n == 1;
    assert In(n, SPECIAL6[2]) <==> w[0] / 0x200 == 0x7E;
    assert In(n, SPECIAL6[3]) <==> w[0] / 0x40 == 0x3FA;
    assert In(n, SPECIAL6[4]) <==> w[0] / 0x100 == 0xFF;
    assert In(n, SPECIAL6[5]) <==> w[0] == 0x2001 && w[1] == 0xDB8;
    hide In, Number6;
  }

  lemma FourZeros(w: seq<nat>)
    requires |w| == 4
    ensures AllZero(w) <==> w[0] == 0 && w[1] == 0 && w[2] == 0 && w[3] == 0
  {
    assert w[0] in w && w[1] in w && w[2] in w && w[3] in w;
  }

  lemma OneMoreZero(w: seq<nat>, x: nat)
    ensures AllZero(w + [x]) <==> AllZero(w) && x == 0
  {
    assert (w + [x])[|w|] in w + [x] && forall y :: y in w ==> y in w + [x];
  }

  lemma ZeroWords(w: seq<nat>)
    requires |w| == 8
    ensures AllZero(w[..5]) <==> w[0] == 0 && w[1] == 0 && w[2] == 0 && w[3] == 0 && w[4] == 0
    ensures AllZero(w[..6]) <==> AllZero(w[..5]) && w[5] == 0
    ensures AllZero(w[..7]) <==> AllZero(w[..6]) && w[6] == 0
    ensures AllZero(w) <==> AllZero(w[..7]) && w[7] == 0
    ensures AllZero(w[2..6]) <==> w[2] == 0 && w[3] == 0 && w[4] == 0 && w[5] == 0
  {
    hide AllZero;
    FourZeros(w[..4]);
    FourZeros(w[2..6]);
    OneMoreZero(w[..4], w[4]);
    OneMoreZero(w[..5], w[5]);
    OneMoreZero(w[..6], w[6]);
    OneMoreZero(w[..7], w[7]);
    assert w[..5] == w[..4] + [w[4]] && w[..6] == w[..5] + [w[5]];
    assert w[..7] == w[..6] + [w[6]] && w == w[..7] + [w[7]];
  }

  lemma EmbeddingWords(w: seq<nat>)
    requires AreWords(w)
    ensures Among(Number6(w), EMBEDDING) <==>
              || (AllZero(w[..6])) || (AllZero(w[..5]) && w[5] == 0xFFFF)
              || (w[0] == 0x64 && w[1] == 0xFF9B && (AllZero(w[2..6]) || w[2] == 1))
  {
    ZeroWords(w);
    var n := Number6(w);
    hide AllZero;
    assert In(n, EMBEDDING[0]) <==> AllZero(w[..6]);
    assert In(n, EMBEDDING[1]) <==> AllZero(w[..5]) && w[5] == 0xFFFF;
    assert In(n, EMBEDDING[2]) <==> w[0] == 0x64 && w[1] == 0xFF9B && AllZero(w[2..6]);
    assert In(n, EMBEDDING[3]) <==> w[0] == 0x64 && w[1] == 0xFF9B && w[2] == 1;
    hide In, Number6;
  }

  /** The number of two words. */
  function Number2(high: nat, low: nat): nat { high * 0x1_0000 + low }

  lemma SixToFourNumber(w: seq<nat>)
    requires AreWords(w)
    ensures Number6(w) / 0x1_0000_0000_0000_0000_0000 % 0x1_0000_0000 == Number2(w[1], w[2])
    ensures In(Number6(w), SIX_TO_FOUR) <==> w[0] == 0x2002
  {
    var front := w[0] * 0x1_0000_0000 + Number2(w[1], w[2]);
    var low := w[3] * 0x1_0000_0000_0000_0000 + w[4] * 0x1_0000_0000_0000 + w[5] * 0x1_0000_0000 + Number2(w[6], w[7]);
    assert low < 0x1_0000_0000_0000_0000_0000;
    assert Number6(w) == front * 0x1_0000_0000_0000_0000_0000 + low;
    hide Number6, Number2;
    assert (front * 0x1_0000_0000_0000_0000_0000 + low) / 0x1_0000_0000_0000_0000_0000 == front;
  }

  lemma LastDigits(front: nat, low: nat)
    requires low < 0x1_0000_0000
    ensures (front * 0x1_0000_0000 + low) % 0x1_0000_0000 == low
  {
  }

  lemma LastNumber(w: seq<nat>)
    requires AreWords(w)
    ensures Number6(w) % 0x1_0000_0000 == Number2(w[6], w[7])
  {
    var front := w[0] * 0x1_0000_0000_0000_0000_0000 + w[1] * 0x1_0000_0000_0000_0000 +
      w[2] * 0x1_0000_0000_0000 + w[3] * 0x1_0000_0000 + Number2(w[4], w[5]);
    var low := Number2(w[6], w[7]);
    assert low < 0x1_0000_0000 && Number6(w) == front * 0x1_0000_0000 + low;
    hide Number6, Number2, AreWords;
    LastDigits(front, low);
  }

  lemma WordsOfOctets(a: nat, b: nat, c: nat, d: nat)
    ensures Number4(a, b, c, d) == Number2(a * 256 + b, c * 256 + d)
  {
  }

  lemma OctetsOfWord(word: nat) returns (a: nat, b: nat)
    requires word <= 0xFFFF
    ensures word == a * 256 + b && a <= 255 && b <= 255
  {
    a, b := word / 256, word % 256;
  }

  lemma EmbeddedPrivate(a: nat, b: nat, c: nat, d: nat)
    requires a <= 255 && b <= 255 && c <= 255 && d <= 255
    ensures IsPrivateIPv4(Embedded(a * 256 + b, c * 256 + d)) <==> PrivateOctets(a, b, c, d)
  {
    hide Embedded, Ipv4Octets, PrivateOctets;
    EmbeddedOctets(a, b, c, d);
  }

  /** The address at two words is private when its number is in an IPv4 block. */
  lemma EmbeddedSpecial(high: nat, low: nat)
    requires high <= 0xFFFF && low <= 0xFFFF
    ensures IsPrivateIPv4(Embedded(high, low)) <==> Among(Number2(high, low), SPECIAL4)
  {
    hide IsPrivateIPv4, Embedded, PrivateOctets, Among, Number4, Number2, SPECIAL4;
    var a, b := OctetsOfWord(high);
    var c, d := OctetsOfWord(low);
    WordsOfOctets(a, b, c, d);
    EmbeddedPrivate(a, b, c, d);
    PrivateIsSpecial(a, b, c, d);
  }

  lemma SmallNumbers(w: seq<nat>)
    requires AreWords(w)
    ensures Number6(w) == 0 <==> AllZero(w)
    ensures Number6(w) == 1 <==> AllZero(w[..7]) && w[7] == 1
  {
    ZeroWords(w);
    hide AllZero;
  }

  /** Eight words are private exactly when the address they make up is special. */
  lemma PrivateWordsAreSpecial(w: seq<nat>)
    requires AreWords(w)
    ensures IsPrivateWords(w) <==> Special6(Number6(w))
  {
    hide Number6, In, Among, AllZero, IsPrivateIPv4, Embedded, Number2;
    SmallNumbers(w);
    SpecialWords(w);
    EmbeddingWords(w);
    SixToFourNumber(w);
    LastNumber(w);
    EmbeddedSpecial(w[1], w[2]);
    EmbeddedSpecial(w[6], w[7]);
  }

  lemma {:induction false} HexBound(s: string, digits: nat)
    requires (forall c :: c in s ==> HexDigit(c)) && |s| <= digits <= 4
    ensures HexValue(s) < if digits == 0 then 1 else if digits == 1 then 0x10 else if digits == 2 then 0x100
                          else if digits == 3 then 0x1000 else 0x1_0000
  {
    if s != "" {
      HexBound(s[..|s| - 1], digits - 1);
      assert s[|s| - 1] in s && HexDigitValue(s[|s| - 1]) < 16;
    }
  }

  lemma GroupValues(groups: seq<string>)
    requires AreGroups(groups)
    ensures forall i :: 0 <= i < |groups| ==> Values(groups)[i] <= 0xFFFF
  {
    forall i | 0 <= i < |groups| ensures Values(groups)[i] <= 0xFFFF {
      assert groups[i] in groups;
      HexBound(groups[i], 4);
    }
  }

  lemma SpelledWords(s: Spelling)
    requires Legal(s)
    ensures AreWords(Spelled(s))
  {
    hide HexValue;
    match s
    case Full(groups) =>
      AllLower(groups);
      GroupValues(LowerAll(groups));
    case Compressed(left, right) =>
      AllLower(left);
      AllLower(right);
      GroupValues(LowerAll(left));
      GroupValues(LowerAll(right));
  }

  /** However it is spelled, an address is private exactly when it is special. */
  lemma PrivateIsSpecial6(s: Spelling, zone: string)
    requires Legal(s) && forall c :: c in Lower(zone) ==> !LineEnd(c)
    ensures AreWords(Spelled(s))
    ensures IsPrivateIPv6(Text(s)) <==> Special6(Number6(Spelled(s)))
    ensures IsPrivateIPv6(Text(s) + "%" + zone) <==> Special6(Number6(Spelled(s)))
  {
    SpelledWords(s);
    PrivateWordsAreSpecial(Spelled(s));
    hide IsPrivateWords, Special6, Number6, AreWords;
    ReadsGroups(s, zone);
  }

  /** The same for the spellings with a dotted tail. */
  lemma PrivateDottedIsSpecial6(s: Spelling, q: seq<string>)
    requires LegalHead(s) && Quad(q)
    ensures Legal(Undotted(s, q)) && AreWords(Spelled(Undotted(s, q)))
    ensures IsPrivateIPv6(HeadText(s) + QuadText(q)) <==> Special6(Number6(Spelled(Undotted(s, q))))
  {
    hide Undotted, Legal, LegalHead, Spelled, IsPrivateWords, Special6, Number6, AreWords, HeadText, QuadText;
    ReadsDotted(s, q);
    SpelledWords(Undotted(s, q));
    PrivateWordsAreSpecial(Spelled(Undotted(s, q)));
  }

  /** A dotted quad is private exactly when its number is in an IPv4 block. */
  lemma PrivateQuadIsSpecial(q: seq<string>)
    requires Quad(q)
    ensures IsPrivateIPv4(QuadText(q)) <==> Among(Number2(QuadWords(q)[0], QuadWords(q)[1]), SPECIAL4)
  {
    var n := Numbers(q);
    QuadOctets(q);
    hide QuadText, PrivateOctets, Ipv4Octets, Decimal, Among, SPECIAL4, Number4, Number2;
    PrivateIsSpecial(n[0], n[1], n[2], n[3]);
    WordsOfOctets(n[0], n[1], n[2], n[3]);
  }
}

/**
 The shell permission gate: ordered rules of which the last match wins, and a
 structural test that accepts only policies under which every command is denied.
 */
module PermissionPolicy {
  import opened Basics
  import opened Wrappers

  datatype Effect = Allow | Deny | Ask

  datatype Rule = Rule(action: string, resource: string, effect: Effect)

  // ----- Documents to rules -----

  /** A V1 bash value: a string, an object's entries in enumeration order, or anything else. */
  datatype BashValue = Text(effect: string) | Entries(entries: seq<(string, Option<string>)>) | Other

  /** An element of a V2 permission list; the texts are None when they are not strings. */
  datatype RawRule = RawRule(action: Option<string>, resource: Option<string>, effect: Option<string>) | NotAnObject

  datatype Doc = Doc(bash: BashValue, permissions: Option<seq<RawRule>>)

  function EffectOf(s: string): Option<Effect> {
    if s == "allow" then Some(Allow) else if s == "deny" then Some(Deny) else if s == "ask" then Some(Ask) else None
  }

  function EffectName(e: Effect): string {
    match e
    case Allow => "allow"
    case Deny => "deny"
    case Ask => "ask"
  }

  /** The known effects are the names of the three, and nothing else. */
  lemma EffectNames(s: string, e: Effect)
    ensures EffectOf(s) == Some(e) <==> s == EffectName(e)
  {
    assert "allow"[0] == 'a' && "deny"[0] == 'd' && |"ask"| == 3;
  }

  function EntryRule(entry: (string, Option<string>)): seq<Rule> {
    if entry.1.None? || EffectOf(entry.1.value).None? then []
    else [Rule("shell", entry.0, EffectOf(entry.1.value).value)]
  }

  function EntryRules(entries: seq<(string, Option<string>)>): seq<Rule> {
    if entries == [] then [] else EntryRules(entries[..|entries| - 1]) + EntryRule(entries[|entries| - 1])
  }

  function Translated(bash: BashValue): seq<Rule> {
    match bash
    case Text(effect) => if EffectOf(effect).Some? then [Rule("shell", "*", EffectOf(effect).value)] else []
    case Entries(entries) => EntryRules(entries)
    case Other => []
  }

  function NativeRule(raw: RawRule): seq<Rule> {
    if && raw.RawRule? && raw.action.Some? && raw.resource.Some?
       && raw.effect.Some? && EffectOf(raw.effect.value).Some? then
      [Rule(raw.action.value, raw.resource.value, EffectOf(raw.effect.value).value)]
    else []
  }

  function NativeRules(raws: seq<RawRule>): seq<Rule> {
    if raws == [] then [] else NativeRules(raws[..|raws| - 1]) + NativeRule(raws[|raws| - 1])
  }

  function Permissions(doc: Doc): seq<Rule> { if doc.permissions.Some? then NativeRules(doc.permissions.value) else [] }

  const BASELINE := [Rule("shell", "*", Allow)]

  function DocRules(doc: Option<Doc>): seq<Rule> {
    if doc.None? then [] else Translated(doc.value.bash) + Permissions(doc.value)
  }

  function LayerRules(layers: seq<Option<Doc>>): seq<Rule> {
    if layers == [] then []
    else LayerRules(layers[..|layers| - 1]) + DocRules(layers[|layers| - 1])
  }

  /** The baseline, the layers in order, then the agent with its V1 value last. */
  function OrderedRules(layers: seq<Option<Doc>>, agent: Option<Doc>): seq<Rule> {
    BASELINE + LayerRules(layers) + if agent.None? then [] else Permissions(agent.value) + Translated(agent.value.bash)
  }

  // ----- The wildcard matcher -----

  /**
   The regular expression of a pattern, piece by piece: a character, an optional
   character, or any run without a line end.
   */
  datatype Piece = Lit(c: char) | Opt(c: char) | AnyRun

  /** How many more question marks the last piece takes: one makes it optional or lazy, a second one lazy. */
  datatype Compiled = Compiled(pieces: seq<Piece>, marks: nat)

  /** A question mark is not escaped: it acts on the piece before it, or is an error. */
  function Compile(pattern: string): Option<Compiled> {
    if pattern == "" then Some(Compiled([], 0))
    else
      var before := Compile(pattern[..|pattern| - 1]);
      var c := pattern[|pattern| - 1];
      if before.None? then None
      else if c == '*' then Some(Compiled(before.value.pieces + [AnyRun], 1))
      else if c != '?' then Some(Compiled(before.value.pieces + [Lit(c)], 2))
      else if before.value.marks == 0 || before.value.pieces == [] then None
      else
        var front, last := before.value.pieces[..|before.value.pieces| - 1],
            before.value.pieces[|before.value.pieces| - 1];
        Some(Compiled(front + [if last.Lit? then Opt(last.c) else last], before.value.marks - 1))
  }

  // What compiles: characters and stars, each with the question marks that act on it.

  datatype Unit = Unit(c: char, marks: nat)

  function QuestionMarks(n: nat): string { if n == 0 then "" else QuestionMarks(n - 1) + "?" }

  function UnitsText(units: seq<Unit>): string {
    if units == [] then ""
    else
      var last := units[|units| - 1];
      UnitsText(units[..|units| - 1]) + [last.c] + QuestionMarks(last.marks)
  }

  /** A character may be optional and lazy, a run only lazy. */
  function MostMarks(c: char): nat { if c == '*' then 1 else 2 }

  function UnitPiece(u: Unit): Piece {
    if u.c == '*' then AnyRun else if u.marks == 0 then Lit(u.c) else Opt(u.c)
  }

  function UnitPieces(units: seq<Unit>): seq<Piece> { seq(|units|, i requires 0 <= i < |units| => UnitPiece(units[i])) }

  predicate ValidUnits(units: seq<Unit>) { forall u :: u in units ==> u.marks <= MostMarks(u.c) }

  predicate AreUnits(units: seq<Unit>) { forall u :: u in units ==> u.c != '?' }

  lemma CompileLast(front: string, c: char)
    ensures Compile(front + [c]) ==
              if Compile(front).None? then None
              else if c == '*' then Some(Compiled(Compile(front).value.pieces + [AnyRun], 1))
              else if c != '?' then Some(Compiled(Compile(front).value.pieces + [Lit(c)], 2))
              else OneMark(Compile(front).value)
  {
    assert (front + [c])[..|front|] == front;
  }

  /** What one more question mark makes of a pattern. */
  function OneMark(before: Compiled): Option<Compiled> {
    if before.marks == 0 || before.pieces == [] then None
    else
      var n := |before.pieces| - 1;
      var last := before.pieces[n];
      Some(Compiled(before.pieces[..n] + [if last.Lit? then Opt(last.c) else last], before.marks - 1))
  }

  lemma {:induction false} UnitsCompile(units: seq<Unit>)
    requires AreUnits(units)
    ensures Compile(UnitsText(units)) ==
              if !ValidUnits(units) then None
              else Some(Compiled(UnitPieces(units),
                  if units == [] then 0 else MostMarks(units[|units| - 1].c) - units[|units| - 1].marks))
  {
    if units != [] {
      var front, last := units[..|units| - 1], units[|units| - 1];
      assert units == front + [last] && last in units && forall u :: u in front ==> u in units;
      UnitsCompile(front);
      LastUnit(front, last, last.marks);
      assert ValidUnits(units) <==> ValidUnits(front) && last.marks <= MostMarks(last.c);
      if ValidUnits(units) { assert UnitPieces(units) == UnitPieces(front) + [UnitPiece(last)]; }
    }
  }

  lemma {:induction false} LastUnit(front: seq<Unit>, last: Unit, marks: nat)
    requires last.c != '?'
    ensures
      var before := Compile(UnitsText(front));
      Compile(UnitsText(front) + [last.c] + QuestionMarks(marks)) ==
        if before.None? || marks > MostMarks(last.c) then None
        else Some(Compiled(before.value.pieces + [UnitPiece(Unit(last.c, marks))], MostMarks(last.c) - marks))
    decreases marks
  {
    var text := UnitsText(front) + [last.c];
    hide UnitsText;
    if marks == 0 {
      assert text + QuestionMarks(0) == text;
      CompileLast(UnitsText(front), last.c);
    } else {
      LastUnit(front, last, marks - 1);
      assert text + QuestionMarks(marks) == text + QuestionMarks(marks - 1) + ['?'];
      CompileLast(text + QuestionMarks(marks - 1), '?');
    }
  }

  /** Every pattern is made of such units, after question marks that have nothing to act on. */
  lemma {:induction false} UnitsOf(pattern: string) returns (open: nat, units: seq<Unit>)
    ensures AreUnits(units) && pattern == QuestionMarks(open) + UnitsText(units)
  {
    if pattern == "" {
      open, units := 0, [];
    } else {
      var front, c := pattern[..|pattern| - 1], pattern[|pattern| - 1];
      assert pattern == front + [c];
      open, units := UnitsOf(front);
      if c != '?' {
        assert (units + [Unit(c, 0)])[..|units|] == units;
        units := units + [Unit(c, 0)];
      } else if units == [] {
        assert front == QuestionMarks(open) && c == '?';
        open := open + 1;
      } else {
        var n := |units| - 1;
        var more := units[..n] + [Unit(units[n].c, units[n].marks + 1)];
        assert more[..n] == units[..n] && units[n] in units;
        assert UnitsText(more) == UnitsText(units) + ['?'];
        units := more;
      }
    }
  }

  lemma {:induction false} OpenMarksFail(open: nat, rest: string)
    requires open > 0
    ensures Compile(QuestionMarks(open) + rest).None?
    decreases open, |rest|
  {
    if rest != "" {
      var front, c := rest[..|rest| - 1], rest[|rest| - 1];
      OpenMarksFail(open, front);
      assert QuestionMarks(open) + rest == QuestionMarks(open) + front + [c];
      CompileLast(QuestionMarks(open) + front, c);
    } else if open > 1 {
      OpenMarksFail(open - 1, "");
      assert QuestionMarks(open) + "" == QuestionMarks(open - 1) + "" + ['?'];
      CompileLast(QuestionMarks(open - 1) + "", '?');
    } else {
      assert QuestionMarks(1) + "" == "" + ['?'] && QuestionMarks(0) == "";
      CompileLast("", '?');
    }
  }

  /**
   A pattern compiles exactly when each of its question marks acts on a character or a
   star before it, two at most on a character and one on a star; and then to the pieces
   of those units.
   */
  lemma CompilesExactly(pattern: string) returns (open: nat, units: seq<Unit>)
    ensures AreUnits(units) && pattern == QuestionMarks(open) + UnitsText(units)
    ensures Compile(pattern).Some? <==> open == 0 && ValidUnits(units)
    ensures Compile(pattern).Some? ==> Compile(pattern).value.pieces == UnitPieces(units)
  {
    open, units := UnitsOf(pattern);
    if open > 0 {
      OpenMarksFail(open, UnitsText(units));
    } else {
      assert pattern == UnitsText(units);
      UnitsCompile(units);
    }
  }

  predicate Accepts(pieces: seq<Piece>, value: string)
    decreases |pieces| + |value|
  {
    if pieces == [] then value == []
    else match pieces[0]
      case Lit(c) => value != [] && value[0] == c && Accepts(pieces[1..], value[1..])
      case Opt(c) => Accepts(pieces[1..], value) || (value != [] && value[0] == c && Accepts(pieces[1..], value[1..]))
      case AnyRun => Accepts(pieces[1..], value) || (value != [] && !LineEnd(value[0]) && Accepts(pieces, value[1..]))
  }

  // What matching means: the value is cut into one part for each piece.

  predicate Fits(piece: Piece, part: string) {
    match piece
    case Lit(c) => part == [c]
    case Opt(c) => part == "" || part == [c]
    case AnyRun => forall c :: c in part ==> !LineEnd(c)
  }

  predicate Cut(pieces: seq<Piece>, parts: seq<string>, value: string) {
    && |parts| == |pieces| && Concat(parts) == value
    && forall i :: 0 <= i < |pieces| ==> Fits(pieces[i], parts[i])
  }

  function Concat(parts: seq<string>): string { if parts == [] then "" else parts[0] + Concat(parts[1..]) }

  lemma OneMorePart(pieces: seq<Piece>, part: string, parts: seq<string>, value: string)
    requires pieces != [] && Fits(pieces[0], part) && Cut(pieces[1..], parts, value)
    ensures Cut(pieces, [part] + parts, part + value)
  {
    assert ([part] + parts)[1..] == parts;
    forall i | 0 <= i < |pieces| ensures Fits(pieces[i], ([part] + parts)[i]) {
      if i > 0 { assert pieces[i] == pieces[1..][i - 1]; }
    }
  }

  lemma {:induction false} AcceptedIsCut(pieces: seq<Piece>, value: string) returns (parts: seq<string>)
    requires Accepts(pieces, value)
    ensures Cut(pieces, parts, value)
    decreases |pieces| + |value|
  {
    if pieces == [] { return []; }
    if Accepts(pieces[1..], value) && !pieces[0].Lit? {
      parts := AcceptedIsCut(pieces[1..], value);
      assert "" + value == value;
      OneMorePart(pieces, "", parts, value);
      parts := [""] + parts;
    } else if pieces[0].AnyRun? {
      parts := AcceptedIsCut(pieces, value[1..]);
      assert value == [value[0]] + parts[0] + Concat(parts[1..]) && parts == [parts[0]] + parts[1..];
      parts := [[value[0]] + parts[0]] + parts[1..];
    } else {
      parts := AcceptedIsCut(pieces[1..], value[1..]);
      assert value == [value[0]] + value[1..];
      OneMorePart(pieces, [value[0]], parts, value[1..]);
      parts := [[value[0]]] + parts;
    }
  }

  lemma {:induction false} CutIsAccepted(pieces: seq<Piece>, parts: seq<string>, value: string)
    requires Cut(pieces, parts, value)
    ensures Accepts(pieces, value)
    decreases |pieces| + |value|
  {
    if pieces != [] {
      var part, rest := parts[0], Concat(parts[1..]);
      assert value == part + rest;
      if part == "" {
        assert value == rest;
        CutIsAccepted(pieces[1..], parts[1..], value);
      } else if pieces[0].AnyRun? {
        assert part[0] in part && value[0] == part[0] && value[1..] == part[1..] + rest;
        var shorter := [part[1..]] + parts[1..];
        assert shorter[1..] == parts[1..];
        CutIsAccepted(pieces, shorter, value[1..]);
      } else {
        assert value[0] == part[0] && value[1..] == rest;
        CutIsAccepted(pieces[1..], parts[1..], rest);
      }
    }
  }

  /** A value is accepted exactly when it can be cut into parts that fit the pieces. */
  lemma AcceptsExactly(pieces: seq<Piece>, value: string)
    ensures Accepts(pieces, value) <==> exists parts :: Cut(pieces, parts, value)
  {
    if Accepts(pieces, value) {
      var parts := AcceptedIsCut(pieces, value);
      assert Cut(pieces, parts, value);
    }
    if parts :| Cut(pieces, parts, value) { CutIsAccepted(pieces, parts, value); }
  }

  /** None when the pattern does not compile. */
  function WildcardMatches(pattern: string, value: string): Option<bool> {
    if pattern == "*" then Some(true)
    else if '*' !in pattern then Some(pattern == value)
    else if Compile(pattern).None? then None
    else Some(Accepts(Compile(pattern).value.pieces, value))
  }

  lemma {:induction false} CompilePlain(p: string)
    requires '*' !in p && '?' !in p
    ensures Compile(p).Some? && Compile(p).value.pieces == seq(|p|, i requires 0 <= i < |p| => Lit(p[i]))
  {
    if p != "" { CompilePlain(p[..|p| - 1]); }
  }

  lemma {:induction false} AcceptsRun(value: string)
    ensures Accepts([AnyRun], value) <==> forall c :: c in value ==> !LineEnd(c)
  {
    assert Accepts([], value) <==> value == [];
    if value != [] {
      AcceptsRun(value[1..]);
      assert value == [value[0]] + value[1..];
    }
  }

  lemma {:induction false} AcceptsPrefix(p: string, value: string)
    ensures Accepts(seq(|p|, i requires 0 <= i < |p| => Lit(p[i])) + [AnyRun], value) <==>
              p <= value && forall c :: c in value[|p|..] ==> !LineEnd(c)
  {
    var pieces := seq(|p|, i requires 0 <= i < |p| => Lit(p[i])) + [AnyRun];
    if p == "" {
      assert pieces == [AnyRun] && value[0..] == value;
      AcceptsRun(value);
    } else if value != [] && value[0] == p[0] {
      assert pieces[1..] == seq(|p[1..]|, i requires 0 <= i < |p[1..]| => Lit(p[1..][i])) + [AnyRun];
      AcceptsPrefix(p[1..], value[1..]);
      assert p == [p[0]] + p[1..] && value == [value[0]] + value[1..];
      if p <= value { assert value[|p|..] == value[1..][|p[1..]|..]; }
    }
  }

  /** `git diff*` covers the commands that start so, as long as no line end follows. */
  lemma PrefixPattern(p: string, value: string)
    requires '*' !in p && '?' !in p && p != ""
    ensures WildcardMatches(p + "*", value) == Some(p <= value && forall c :: c in value[|p|..] ==> !LineEnd(c))
  {
    var pattern := p + "*";
    assert pattern[..|pattern| - 1] == p && pattern[|p|] == '*';
    CompilePlain(p);
    AcceptsPrefix(p, value);
  }

  // ----- Last match wins -----

  predicate Shellish(r: Rule) { r.action == "*" || r.action == "shell" }

  /** The effect for one command; None when a pattern on the way does not compile. */
  function Evaluate(rules: seq<Rule>, command: string): Option<Effect> {
    if rules == [] then Some(Ask)
    else
      var before, rule := Evaluate(rules[..|rules| - 1], command), rules[|rules| - 1];
      if before.None? || !Shellish(rule) then before
      else match WildcardMatches(rule.resource, command)
        case None => None
        case Some(hit) => if hit then Some(rule.effect) else before
  }

  method EvaluateCommand(rules: seq<Rule>, command: string) returns (effect: Option<Effect>)
    ensures effect == Evaluate(rules, command)
  {
    var matched: Option<Effect> := None;
    for i := 0 to |rules|
      invariant Evaluate(rules[..i], command) == Some(if matched.Some? then matched.value else Ask)
    {
      assert rules[..i + 1][..i] == rules[..i];
      if Shellish(rules[i]) {
        var hit := WildcardMatches(rules[i].resource, command);
        if hit.None? {
          EvaluateStaysBroken(rules, i + 1, command);
          return None;
        }
        if hit.value { matched := Some(rules[i].effect); }
      }
    }
    assert rules[..|rules|] == rules;
    effect := Some(if matched.Some? then matched.value else Ask);
  }

  lemma {:induction false} EvaluateStaysBroken(rules: seq<Rule>, n: nat, command: string)
    requires n <= |rules| && Evaluate(rules[..n], command).None?
    ensures Evaluate(rules, command).None?
    decreases |rules| - n
  {
    if n == |rules| {
      assert rules[..n] == rules;
    } else {
      assert rules[..n + 1][..n] == rules[..n];
      EvaluateStaysBroken(rules, n + 1, command);
    }
  }

  // ----- The structural test -----

  predicate WildcardDeny(r: Rule) { Shellish(r) && r.resource == "*" && r.effect == Deny }

  predicate Permissive(r: Rule) { Shellish(r) && r.effect != Deny }

  /** Some wildcard shell deny is followed by no shell allow or ask. */
  predicate Shielded(rules: seq<Rule>) {
    exists k :: 0 <= k < |rules| && WildcardDeny(rules[k]) && forall j :: k < j < |rules| ==> !Permissive(rules[j])
  }

  /** Every pattern that evaluation may look at compiles. */
  predicate Compiles(rules: seq<Rule>) {
    forall i :: 0 <= i < |rules| && Shellish(rules[i]) ==> WildcardMatches(rules[i].resource, "").Some?
  }

  lemma CompilesForAll(pattern: string, value: string, other: string)
    ensures WildcardMatches(pattern, value).Some? <==> WildcardMatches(pattern, other).Some?
  {
  }

  lemma {:induction false} EvaluateCompiles(rules: seq<Rule>, command: string)
    ensures Evaluate(rules, command).Some? <==> Compiles(rules)
  {
    if rules != [] {
      var front, last := rules[..|rules| - 1], rules[|rules| - 1];
      EvaluateCompiles(front, command);
      CompilesForAll(last.resource, command, "");
      assert Compiles(rules) <==> Compiles(front) && (Shellish(last) ==> WildcardMatches(last.resource, "").Some?) by {
        assert forall i :: 0 <= i < |front| ==> front[i] == rules[i];
      }
    }
  }

  /** A shielded policy denies every command there is. */
  lemma {:induction false} ShieldedDeniesEverything(rules: seq<Rule>, command: string)
    requires Shielded(rules) && Compiles(rules)
    ensures Evaluate(rules, command) == Some(Deny)
  {
    var k :| 0 <= k < |rules| && WildcardDeny(rules[k]) && forall j :: k < j < |rules| ==> !Permissive(rules[j]);
    var front, last := rules[..|rules| - 1], rules[|rules| - 1];
    EvaluateCompiles(rules, command);
    if k < |rules| - 1 {
      assert WildcardDeny(front[k]) && forall j :: k < j < |front| ==> !Permissive(front[j]);
      assert forall i :: 0 <= i < |front| ==> front[i] == rules[i];
      ShieldedDeniesEverything(front, command);
    }
  }

  datatype Reason =
    | BestEffortRaw
    | NoWildcardDeny
    | LiveRule(effect: Effect, resource: string)
    | ProbeNotDenied(probe: string)
    | DenyFirst

  /** Thrown: a pattern did not compile while a probe was evaluated. */
  datatype Verdict = Verdict(rules: seq<Rule>, unsafe: bool, reason: Reason, shellRuleCount: nat) | Thrown

  const PROBES := [
    "curl http://attacker.example", "rm -rf /", "echo pwned > /etc/hosts", "sh -c anything",
    "git push --force origin main", "find / -name secrets", "cat ~/.ssh/id_rsa", "npm publish",
    "node -e \"process.exit(1)\"", "bash"]

  method TranslateV1BashPermissions(bash: BashValue) returns (rules: seq<Rule>)
    ensures rules == Translated(bash)
  {
    match bash
    case Text(effect) => return if EffectOf(effect).Some? then [Rule("shell", "*", EffectOf(effect).value)] else [];
    case Other => return [];
    case Entries(entries) =>
      rules := [];
      for i := 0 to |entries|
        invariant rules == EntryRules(entries[..i])
      {
        assert entries[..i + 1][..i] == entries[..i];
        var (resource, effect) := entries[i];
        if effect.None? { continue; }
        if EffectOf(effect.value).None? { continue; }
        rules := rules + [Rule("shell", resource, EffectOf(effect.value).value)];
      }
      assert entries[..|entries|] == entries;
  }

  method MergeLayers(layers: seq<Option<Doc>>) returns (orderedRules: seq<Rule>)
    ensures orderedRules == BASELINE + LayerRules(layers)
  {
    orderedRules := BASELINE;
    for i := 0 to |layers|
      invariant orderedRules == BASELINE + LayerRules(layers[..i])
    {
      LayerStep(layers, i);
      if layers[i].None? { continue; }
      var v1 := TranslateV1BashPermissions(layers[i].value.bash);
      orderedRules := orderedRules + (v1 + Permissions(layers[i].value));
    }
    assert layers[..|layers|] == layers;
  }

  lemma LayerStep(layers: seq<Option<Doc>>, i: nat)
    requires i < |layers|
    ensures BASELINE + LayerRules(layers[..i + 1]) == BASELINE + LayerRules(layers[..i]) + DocRules(layers[i])
  {
    assert layers[..i + 1][..i] == layers[..i];
  }

  method MergeRules(layers: seq<Option<Doc>>, agent: Option<Doc>) returns (orderedRules: seq<Rule>)
    ensures orderedRules == OrderedRules(layers, agent)
  {
    orderedRules := MergeLayers(layers);
    if agent.Some? {
      var v1 := TranslateV1BashPermissions(agent.value.bash);
      orderedRules := orderedRules + (Permissions(agent.value) + v1);
    }
  }

  predicate ShadowedFrom(rules: seq<Rule>, n: nat) { exists j :: n <= j < |rules| && WildcardDeny(rules[j]) }

  /** The first shell allow or ask that no later wildcard deny shadows. */
  predicate FirstLive(rules: seq<Rule>, k: nat) {
    && k < |rules| && Permissive(rules[k]) && !ShadowedFrom(rules, k + 1)
    && forall i :: 0 <= i < k && Permissive(rules[i]) ==> ShadowedFrom(rules, i + 1)
  }

  method FindLive(rules: seq<Rule>) returns (live: Option<nat>)
    ensures live.Some? ==> FirstLive(rules, live.value)
    ensures live.None? ==> forall k :: 0 <= k < |rules| && Permissive(rules[k]) ==> ShadowedFrom(rules, k + 1)
  {
    live := None;
    for k := 0 to |rules|
      invariant live.None? && forall i :: 0 <= i < k && Permissive(rules[i]) ==> ShadowedFrom(rules, i + 1)
    {
      if Permissive(rules[k]) && !ShadowedFrom(rules, k + 1) { return Some(k); }
    }
  }

  /** With a wildcard deny somewhere, the policy is shielded exactly when no rule is live. */
  lemma LiveDecides(rules: seq<Rule>)
    requires ShadowedFrom(rules, 0)
    ensures Shielded(rules) <==> forall k :: 0 <= k < |rules| && Permissive(rules[k]) ==> ShadowedFrom(rules, k + 1)
  {
    var k := LastDeny(rules, |rules|);
    if Shielded(rules) {
      var d :| 0 <= d < |rules| && WildcardDeny(rules[d]) && forall j :: d < j < |rules| ==> !Permissive(rules[j]);
      forall i | 0 <= i < |rules| && Permissive(rules[i]) ensures ShadowedFrom(rules, i + 1) {
        assert i < d;
      }
    }
  }

  lemma {:induction false} LastDeny(rules: seq<Rule>, n: nat) returns (k: nat)
    requires n <= |rules| && ShadowedFrom(rules, 0) && forall j :: n <= j < |rules| ==> !WildcardDeny(rules[j])
    ensures k < |rules| && WildcardDeny(rules[k]) && !ShadowedFrom(rules, k + 1)
  {
    if WildcardDeny(rules[n - 1]) { k := n - 1; } else { k := LastDeny(rules, n - 1); }
  }

  /**
   In protected mode the policy is accepted exactly when it is shielded and its
   patterns compile; the probes never find anything, at most they throw.
   */
  method ComputeEffectivePermissionPolicy(layers: seq<Option<Doc>>, agent: Option<Doc>, isProtected: bool)
    returns (v: Verdict)
    ensures v.Verdict? ==> v.rules == OrderedRules(layers, agent) && !v.reason.ProbeNotDenied?
    ensures v.Verdict? ==> v.shellRuleCount == |set i | 0 <= i < |v.rules| && Shellish(v.rules[i])|
    ensures v.Verdict? && v.reason.LiveRule? ==>
              exists k: nat :: FirstLive(v.rules, k) && v.reason == LiveRule(v.rules[k].effect, v.rules[k].resource)
    ensures !isProtected ==> v.Verdict? && !v.unsafe && v.reason == BestEffortRaw
    ensures isProtected ==>
              var rules := OrderedRules(layers, agent);
              && (v.Verdict? && !v.unsafe <==> Shielded(rules) && Compiles(rules))
              && (v.Thrown? <==> Shielded(rules) && !Compiles(rules))
              && (v.Verdict? && !v.unsafe ==> v.reason == DenyFirst)
              && (v.Verdict? && v.reason == NoWildcardDeny <==> !ShadowedFrom(rules, 0))
  {
    var rules := MergeRules(layers, agent);
    var count: nat := |FilterShellish(rules)|;
    ShellishCounted(rules);
    if !isProtected { return Verdict(rules, false, BestEffortRaw, count); }
    if !ShadowedFrom(rules, 0) { return Verdict(rules, true, NoWildcardDeny, count); }
    LiveDecides(rules);
    var live := FindLive(rules);
    if live.Some? {
      return Verdict(rules, true, LiveRule(rules[live.value].effect, rules[live.value].resource), count);
    }
    var probed := ProbeStage(rules);
    if Compiles(rules) { DenialsOnly(rules, probed); }
    match probed
    case Broke => v := Thrown;
    case NotDenied(probe) => v := Verdict(rules, true, ProbeNotDenied(probe), count);
    case AllDenied => v := Verdict(rules, false, DenyFirst, count);
  }

  datatype Probed = AllDenied | NotDenied(probe: string) | Broke

  method ProbeStage(rules: seq<Rule>) returns (r: Probed)
    ensures r.Broke? <==> !Compiles(rules)
    ensures r.NotDenied? ==> Evaluate(rules, r.probe) != Some(Deny)
    ensures r.AllDenied? ==> forall i :: 0 <= i < |PROBES| ==> Evaluate(rules, PROBES[i]) == Some(Deny)
  {
    for i := 0 to |PROBES|
      invariant i > 0 ==> Compiles(rules)
      invariant forall j :: 0 <= j < i ==> Evaluate(rules, PROBES[j]) == Some(Deny)
    {
      var effect := EvaluateCommand(rules, PROBES[i]);
      EvaluateCompiles(rules, PROBES[i]);
      if effect.None? { return Broke; }
      if effect.value != Deny { return NotDenied(PROBES[i]); }
    }
    r := AllDenied;
  }

  lemma DenialsOnly(rules: seq<Rule>, r: Probed)
    requires Shielded(rules) && Compiles(rules)
    ensures r.NotDenied? ==> Evaluate(rules, r.probe) == Some(Deny)
  {
    if r.NotDenied? { ShieldedDeniesEverything(rules, r.probe); }
  }

  function FilterShellish(rules: seq<Rule>): seq<Rule> {
    if rules == [] then []
    else
      var last := rules[|rules| - 1];
      FilterShellish(rules[..|rules| - 1]) + if Shellish(last) then [last] else []
  }

  lemma {:induction false} ShellishCounted(rules: seq<Rule>)
    ensures |FilterShellish(rules)| == |set i | 0 <= i < |rules| && Shellish(rules[i])|
  {
    var here := set i | 0 <= i < |rules| && Shellish(rules[i]);
    if rules == [] {
      assert here == {};
    } else {
      var front, n := rules[..|rules| - 1], |rules| - 1;
      ShellishCounted(front);
      var before := set i | 0 <= i < |front| && Shellish(front[i]);
      assert here == before + if Shellish(rules[n]) then {n} else {};
    }
  }

  function ShellRule(resource: string, effect: string): RawRule {
    RawRule(Some("shell"), Some(resource), Some(effect))
  }

  /** A project layer that denies everything, allows `ls`, and denies it again. */
  const DENIED_AGAIN := Doc(Other, Some([ShellRule("*", "deny"), ShellRule("ls", "allow"), ShellRule("ls", "deny")]))

  lemma DeniedAgainRules()
    ensures OrderedRules([Some(DENIED_AGAIN)], None) ==
              BASELINE + [Rule("shell", "*", Deny), Rule("shell", "ls", Allow), Rule("shell", "ls", Deny)]
  {
    var raws := DENIED_AGAIN.permissions.value;
    assert raws[..2][..1] == raws[..1] && raws[..1][..0] == [];
    assert NativeRules(raws[..1]) == [Rule("shell", "*", Deny)];
    assert NativeRules(raws[..2]) == [Rule("shell", "*", Deny), Rule("shell", "ls", Allow)];
    var layers := [Some(DENIED_AGAIN)];
    assert layers[..0] == [];
    assert LayerRules(layers) == DocRules(Some(DENIED_AGAIN));
  }

  /** The test is stricter than the evaluator: under this layer every command is denied and the policy is refused. */
  lemma RefusedThoughDenied(command: string)
    ensures
      var rules := OrderedRules([Some(DENIED_AGAIN)], None);
      Evaluate(rules, command) == Some(Deny) && ShadowedFrom(rules, 0) && !Shielded(rules)
  {
    DeniedAgainRules();
    hide OrderedRules;
    DeniedAgain(command);
  }

  lemma DeniedAgain(command: string)
    ensures
      var rules := BASELINE + [Rule("shell", "*", Deny), Rule("shell", "ls", Allow), Rule("shell", "ls", Deny)];
      Evaluate(rules, command) == Some(Deny) && ShadowedFrom(rules, 0) && !Shielded(rules)
  {
    var r0, r1, r2, r3 := BASELINE[0], Rule("shell", "*", Deny), Rule("shell", "ls", Allow), Rule("shell", "ls", Deny);
    var rules := [r0, r1, r2, r3];
    assert rules[..3] == [r0, r1, r2] && [r0, r1, r2][..2] == [r0, r1];
    assert [r0, r1][..1] == [r0] && [r0][..0] == [];
    assert Evaluate([r0], command) == Some(Allow);
    assert Evaluate([r0, r1], command) == Some(Deny);
    assert WildcardDeny(rules[1]) && Permissive(rules[2]);
    assert BASELINE + [r1, r2, r3] == rules;
  }

  /** An agent's V1 value: an entry for `?*`, then one that denies everything. */
  const BROKEN_PATTERN := Doc(Entries([("?*", Some("deny")), ("*", Some("deny"))]), None)

  lemma BrokenPatternRules()
    ensures OrderedRules([], Some(BROKEN_PATTERN)) == BASELINE + [Rule("shell", "?*", Deny), Rule("shell", "*", Deny)]
  {
    var entries := BROKEN_PATTERN.bash.entries;
    assert entries[..1][..0] == [];
    assert EntryRules(entries[..1]) == [Rule("shell", "?*", Deny)];
    assert EntryRules(entries) == [Rule("shell", "?*", Deny), Rule("shell", "*", Deny)];
  }

  /** The probes may throw although the agent's policy denies everything: `?*` is no regular expression. */
  lemma ShieldedMayThrow()
    ensures
      var rules := OrderedRules([], Some(BROKEN_PATTERN));
      Shielded(rules) && !Compiles(rules)
  {
    BrokenPatternRules();
    var rules := BASELINE + [Rule("shell", "?*", Deny), Rule("shell", "*", Deny)];
    assert WildcardDeny(rules[2]);
    var p := "?*";
    assert p[..1] == "?" && p[..1][..0] == "" && p[1] == '*' && p[..1][0] == '?';
    assert Compile("").value.pieces == [];
    assert Compile(p[..1]).None? && Compile(p).None?;
    assert Shellish(rules[1]) && WildcardMatches(rules[1].resource, "").None?;
  }

  /** The gate itself on the two policies: the one refused for a live rule, the other thrown out by a probe. */
  method GateOnBoth() returns (refused: Verdict, thrown: Verdict)
    ensures refused.Verdict? && refused.unsafe && refused.reason != NoWildcardDeny
    ensures forall command :: Evaluate(refused.rules, command) == Some(Deny)
    ensures thrown == Thrown
  {
    forall command ensures Evaluate(OrderedRules([Some(DENIED_AGAIN)], None), command) == Some(Deny) {
      RefusedThoughDenied(command);
    }
    RefusedThoughDenied("");
    ShieldedMayThrow();
    hide OrderedRules, Shielded, Compiles, Evaluate, ShadowedFrom;
    refused := ComputeEffectivePermissionPolicy([Some(DENIED_AGAIN)], None, true);
    thrown := ComputeEffectivePermissionPolicy([], Some(BROKEN_PATTERN), true);
  }

  // ----- Whose word is the last -----

  /** Some shell rule of the list covers the command. */
  predicate Covers(rules: seq<Rule>, command: string) {
    exists i :: 0 <= i < |rules| && Shellish(rules[i]) && WildcardMatches(rules[i].resource, command) == Some(true)
  }

  lemma CompilesSplit(before: seq<Rule>, rules: seq<Rule>)
    requires Compiles(before + rules)
    ensures Compiles(before) && Compiles(rules)
  {
    var all := before + rules;
    forall i | 0 <= i < |before| && Shellish(before[i]) ensures WildcardMatches(before[i].resource, "").Some? {
      assert all[i] == before[i];
    }
    forall i | 0 <= i < |rules| && Shellish(rules[i]) ensures WildcardMatches(rules[i].resource, "").Some? {
      assert all[|before| + i] == rules[i];
    }
  }

  /** Rules that cover a command leave nothing to those before them, and the others leave everything. */
  lemma {:induction false} LaterRulesWin(before: seq<Rule>, rules: seq<Rule>, command: string)
    requires Compiles(before + rules)
    ensures Evaluate(before + rules, command) == Evaluate(if Covers(rules, command) then rules else before, command)
    decreases |rules|
  {
    if rules == [] {
      assert before + rules == before;
    } else {
      var front, last := rules[..|rules| - 1], rules[|rules| - 1];
      assert rules == front + [last] && before + rules == (before + front) + [last];
      CompilesSplit(before + front, [last]);
      hide Compiles, WildcardMatches, Covers;
      LaterRulesWin(before, front, command);
      OneMoreRule(before + front, last, command);
      OneMoreRule(front, last, command);
      LastCovers(front, last, command);
      LastCompiles(before + front, last, command);
      assert (before + front)[|before|..] == front;
    }
  }

  /** A rule for other tools changes nothing, and one for the shell or for all tools decides about what it matches. */
  lemma OneMoreRule(rules: seq<Rule>, last: Rule, command: string)
    ensures Evaluate(rules + [last], command) ==
              if Evaluate(rules, command).None? || (last.action != "*" && last.action != "shell") then
                Evaluate(rules, command)
              else match WildcardMatches(last.resource, command)
                case None => None
                case Some(hit) => if hit then Some(last.effect) else Evaluate(rules, command)
  {
    assert (rules + [last])[..|rules|] == rules;
  }

  lemma LastCompiles(rules: seq<Rule>, last: Rule, command: string)
    requires Compiles(rules + [last])
    ensures Shellish(last) ==> WildcardMatches(last.resource, command).Some?
    ensures forall n :: 0 <= n <= |rules| ==> Evaluate(rules[n..], command).Some? && Evaluate(rules, command).Some?
  {
    assert (rules + [last])[|rules|] == last;
    CompilesForAll(last.resource, command, "");
    CompilesSplit(rules, [last]);
    EvaluateCompiles(rules, command);
    forall n | 0 <= n <= |rules| ensures Evaluate(rules[n..], command).Some? {
      assert rules == rules[..n] + rules[n..];
      CompilesSplit(rules[..n], rules[n..]);
      EvaluateCompiles(rules[n..], command);
    }
  }

  lemma LastCovers(front: seq<Rule>, last: Rule, command: string)
    ensures Covers(front + [last], command) <==>
              Covers(front, command) || (Shellish(last) && WildcardMatches(last.resource, command) == Some(true))
  {
    var rules := front + [last];
    if Covers(front, command) {
      var i :| 0 <= i < |front| && Shellish(front[i]) && WildcardMatches(front[i].resource, command) == Some(true);
      assert rules[i] == front[i];
    }
    if Shellish(last) && WildcardMatches(last.resource, command) == Some(true) { assert rules[|front|] == last; }
  }

  /**
   Who decides about a command: the agent's V1 value, else the agent's list, else the
   last layer that covers it, its list before its V1 value, else the baseline.
   */
  lemma AgentHasTheLastWord(layers: seq<Option<Doc>>, agent: Doc, command: string)
    requires Compiles(OrderedRules(layers, Some(agent)))
    ensures
      Evaluate(OrderedRules(layers, Some(agent)), command) ==
        if Covers(Translated(agent.bash), command) then Evaluate(Translated(agent.bash), command)
        else if Covers(Permissions(agent), command) then Evaluate(Permissions(agent), command)
        else Evaluate(OrderedRules(layers, None), command)
  {
    var below := BASELINE + LayerRules(layers);
    assert OrderedRules(layers, Some(agent)) == below + Permissions(agent) + Translated(agent.bash);
    assert OrderedRules(layers, None) == below;
    hide Compiles, Evaluate, Covers, LayerRules, Permissions, Translated, OrderedRules;
    CompilesSplit(below + Permissions(agent), Translated(agent.bash));
    LaterRulesWin(below + Permissions(agent), Translated(agent.bash), command);
    LaterRulesWin(below, Permissions(agent), command);
  }

  lemma LastLayerDecides(layers: seq<Option<Doc>>, last: Doc, command: string)
    requires Compiles(OrderedRules(layers + [Some(last)], None))
    ensures
      Evaluate(OrderedRules(layers + [Some(last)], None), command) ==
        if Covers(Permissions(last), command) then Evaluate(Permissions(last), command)
        else if Covers(Translated(last.bash), command) then Evaluate(Translated(last.bash), command)
        else Evaluate(OrderedRules(layers, None), command)
  {
    var all, below := layers + [Some(last)], BASELINE + LayerRules(layers);
    assert all[..|all| - 1] == layers && all[|all| - 1] == Some(last);
    assert OrderedRules(all, None) == below + Translated(last.bash) + Permissions(last);
    assert OrderedRules(layers, None) == below;
    hide Compiles, Evaluate, Covers, LayerRules, Permissions, Translated, OrderedRules;
    CompilesSplit(below + Translated(last.bash), Permissions(last));
    LaterRulesWin(below + Translated(last.bash), Permissions(last), command);
    LaterRulesWin(below, Translated(last.bash), command);
  }

  /** A missing layer says nothing, and where nobody says anything every command is allowed. */
  lemma BaselineAllows(layers: seq<Option<Doc>>, command: string)
    requires forall d :: d in layers ==> d.None?
    ensures Evaluate(OrderedRules(layers, None), command) == Some(Allow)
  {
    NoLayers(layers);
    assert BASELINE + [] + [] == BASELINE && BASELINE[..0] == [];
  }

  lemma {:induction false} NoLayers(layers: seq<Option<Doc>>)
    requires forall d :: d in layers ==> d.None?
    ensures LayerRules(layers) == []
  {
    if layers != [] {
      assert layers[|layers| - 1] in layers;
      NoLayers(layers[..|layers| - 1]);
    }
  }

  /** An agent's value for one command line, however the layers are set, is what holds for that command. */
  lemma AgentEntryDecides(layers: seq<Option<Doc>>, agent: Doc, resource: string, effect: string)
    requires agent.bash == Entries([(resource, Some(effect))]) && EffectOf(effect).Some? && '*' !in resource
    requires Compiles(OrderedRules(layers, Some(agent)))
    ensures Evaluate(OrderedRules(layers, Some(agent)), resource) == EffectOf(effect)
  {
    AgentHasTheLastWord(layers, agent, resource);
    hide OrderedRules, LayerRules, Compiles;
    var entries := agent.bash.entries;
    assert entries[..0] == [] && EntryRules(entries[..0]) == [];
    assert EntryRules(entries) == EntryRules(entries[..0]) + EntryRule(entries[0]);
    var rules := Translated(agent.bash);
    assert rules == [Rule("shell", resource, EffectOf(effect).value)];
    assert Shellish(rules[0]) && WildcardMatches(rules[0].resource, resource) == Some(true);
    assert rules[..0] == [];
  }
}

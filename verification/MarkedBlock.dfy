/**
 Planning the managed block of one file: a byte-level splice between two
 markers. Planning again after writing the plan changes nothing exactly when the
 replacement is one bare block.
 */
module MarkedBlock {
  import opened Basics
  import opened Wrappers

  /** The markers, one byte a character: `<!-- triss:start -->` and `<!-- triss:end -->`. */
  const START: Bytes :=
    [60, 33, 45, 45, 32, 116, 114, 105, 115, 115, 58, 115, 116, 97, 114, 116, 32, 45, 45, 62]
  const END: Bytes :=
    [60, 33, 45, 45, 32, 116, 114, 105, 115, 115, 58, 101, 110, 100, 32, 45, 45, 62]

  const LF: Byte := 10

  // ----- Searching -----

  predicate Occurs(s: Bytes, m: Bytes, p: int) {
    0 <= p && p + |m| <= |s| && forall k :: 0 <= k < |m| ==> s[p + k] == m[k]
  }

  /** buffer.indexOf(needle, from); None stands for -1. */
  function IndexOf(s: Bytes, m: Bytes, from: nat): (r: Option<nat>)
    ensures r.Some? ==> from <= r.value && r.value + |m| <= |s|
    decreases |s| - from
  {
    if from + |m| > |s| then None
    else if Occurs(s, m, from) then Some(from)
    else IndexOf(s, m, from + 1)
  }

  /** indexOf finds the first occurrence. */
  lemma {:induction false} IndexOfFirst(s: Bytes, m: Bytes, from: nat)
    ensures IndexOf(s, m, from).Some? ==> Occurs(s, m, IndexOf(s, m, from).value)
    ensures forall p :: from <= p && Occurs(s, m, p) ==> IndexOf(s, m, from).Some? && IndexOf(s, m, from).value <= p
    decreases |s| - from
  {
    if from + |m| <= |s| && !Occurs(s, m, from) { IndexOfFirst(s, m, from + 1); }
  }

  function CountFrom(s: Bytes, m: Bytes, from: nat): nat
    requires |m| > 0
    decreases |s| - from
  {
    match IndexOf(s, m, from)
    case None => 0
    case Some(at) => 1 + CountFrom(s, m, at + |m|)
  }

  method MarkerCount(s: Bytes, m: Bytes) returns (count: nat)
    requires |m| > 0
    ensures count == CountFrom(s, m, 0)
  {
    count := 0;
    var from := 0;
    while true
      invariant count + CountFrom(s, m, from) == CountFrom(s, m, 0)
      decreases |s| - from
    {
      var at := IndexOf(s, m, from);
      if at.None? { return; }
      count := count + 1;
      from := at.value + |m|;
    }
  }

  /** `<` opens the marker and nothing else in it; `>` closes it; it has no line feed. */
  predicate Delimited(m: Bytes) {
    && |m| > 1 && m[0] == 60 && m[|m| - 1] == 62
    && (forall k :: 0 < k < |m| ==> m[k] != 60)
    && (forall k :: 0 <= k < |m| - 1 ==> m[k] != 62)
    && LF !in m
  }

  /** p is the one place where m occurs in s. */
  ghost predicate Unique(s: Bytes, m: Bytes, p: int) {
    Occurs(s, m, p) && forall q :: Occurs(s, m, q) ==> q == p
  }

  ghost predicate Absent(s: Bytes, m: Bytes) { forall q :: !Occurs(s, m, q) }

  lemma OccursAt(s: Bytes, m: Bytes, p: int, k: int)
    requires Occurs(s, m, p) && 0 <= k < |m|
    ensures s[p + k] == m[k]
  {
  }

  lemma OccurrencesApart(s: Bytes, m: Bytes, p: int, q: int)
    requires Delimited(m) && Occurs(s, m, p) && Occurs(s, m, q) && p < q
    ensures p + |m| <= q
  {
    if q < p + |m| {
      OccursAt(s, m, q, 0);
      OccursAt(s, m, p, q - p);
    }
  }

  /** The scan counts zero or one exactly when there is no, or exactly one, occurrence. */
  lemma CountMeaning(s: Bytes, m: Bytes)
    requires Delimited(m)
    ensures CountFrom(s, m, 0) == 0 <==> Absent(s, m)
    ensures CountFrom(s, m, 0) == 1 <==> IndexOf(s, m, 0).Some? && Unique(s, m, IndexOf(s, m, 0).value)
  {
    var at := IndexOf(s, m, 0);
    IndexOfFirst(s, m, 0);
    if at.Some? {
      IndexOfFirst(s, m, at.value + |m|);
      var next := IndexOf(s, m, at.value + |m|);
      if next.None? {
        forall q | Occurs(s, m, q) ensures q == at.value {
          if q > at.value { OccurrencesApart(s, m, at.value, q); }
        }
      } else {
        assert Occurs(s, m, next.value) && next.value != at.value;
      }
    }
  }

  // ----- Planning -----

  /** Length of the white space character, in UTF-8, that ends s; 0 when s ends with none. */
  function SpaceTail(s: Bytes): (n: nat)
    ensures n <= |s| && forall k :: |s| - n <= k < |s| ==> s[k] != 62
  {
    var n := |s|;
    if n >= 1 && (9 <= s[n - 1] <= 13 || s[n - 1] == 32) then 1
    else if n >= 2 && s[n - 2] == 0xC2 && s[n - 1] == 0xA0 then 2
    else if n >= 3 && ThreeByteSpace(s[n - 3], s[n - 2], s[n - 1]) then 3
    else 0
  }

  /** U+1680, U+2000..U+200A, U+2028, U+2029, U+202F, U+205F, U+3000 and U+FEFF. */
  predicate ThreeByteSpace(a: Byte, b: Byte, c: Byte) {
    || (a == 0xE1 && b == 0x9A && c == 0x80)
    || (a == 0xE2 && b == 0x80 && (0x80 <= c <= 0x8A || c == 0xA8 || c == 0xA9 || c == 0xAF))
    || (a == 0xE2 && b == 0x81 && c == 0x9F)
    || (a == 0xE3 && b == 0x80 && c == 0x80)
    || (a == 0xEF && b == 0xBB && c == 0xBF)
  }

  function TrimEnd(s: Bytes): (t: Bytes)
    ensures t <= s
    decreases |s|
  {
    if SpaceTail(s) == 0 then s else TrimEnd(s[..|s| - SpaceTail(s)])
  }

  datatype Action = Create | Append | Update | Unchanged

  datatype Plan = Plan(original: Option<Bytes>, replacement: Bytes, changed: bool, action: Action)

  datatype PlanError = BadReplacement | Disappeared | BadMarkerCount | EndBeforeStart

  predicate Single(s: Bytes) { CountFrom(s, START, 0) == 1 && CountFrom(s, END, 0) == 1 }

  /** Exactly one start marker and one end marker, in this order. */
  predicate OnePair(s: Bytes) { Single(s) && IndexOf(s, END, 0).value >= IndexOf(s, START, 0).value }

  /** The line break between existing text and an appended block. */
  function Separator(source: Bytes): Bytes {
    if |source| > 0 && source[|source| - 1] == LF then [LF] else if source == [] then [] else [LF, LF]
  }

  function Finish(target: bool, source: Bytes, output: Bytes, action: Action): Plan {
    Plan(if target then Some(source) else None, output, output != source,
         if output == source then Unchanged else action)
  }

  function Source(present: bool, existing: Option<Bytes>): Bytes {
    if present && existing.Some? then existing.value else []
  }

  function PlanFromSnapshot(present: bool, existing: Option<Bytes>, replacement: Bytes): Result<Plan, PlanError> {
    if !OnePair(replacement) then Err(BadReplacement)
    else if !present && existing.Some? then Err(Disappeared)
    else
      var source := Source(present, existing);
      var starts, ends := CountFrom(source, START, 0), CountFrom(source, END, 0);
      if starts == 0 && ends == 0 then
        if !present then Ok(Finish(false, source, replacement, Create))
        else Ok(Finish(true, source, source + Separator(source) + replacement, Append))
      else if starts != 1 || ends != 1 then Err(BadMarkerCount)
      else
        var start, end := IndexOf(source, START, 0).value, IndexOf(source, END, 0).value;
        if end < start then Err(EndBeforeStart)
        else Ok(Finish(true, source, source[..start] + TrimEnd(replacement) + source[end + |END|..], Update))
  }

  /** Nothing before the start marker, and only white space after the end marker. */
  predicate Bare(r: Bytes) { Frames(TrimEnd(r), START, END) }

  /** b opens with st and, apart from it, closes with en. */
  predicate Frames(b: Bytes, st: Bytes, en: Bytes) {
    |b| >= |st| + |en| && Occurs(b, st, 0) && Occurs(b, en, |b| - |en|)
  }

  // ----- Splicing never makes or breaks a marker -----

  lemma MarkersAreDelimited()
    ensures Delimited(START) && Delimited(END)
  {
  }

  /** An occurrence in a + b lies in a or in b when the seam is the edge of a marker or a line feed. */
  lemma NoStraddle(a: Bytes, b: Bytes, m: Bytes, p: int)
    requires Delimited(m)
    requires
      || (|b| > 0 && (b[0] == 60 || b[0] == LF))
      || (|a| > 0 && (a[|a| - 1] == 62 || a[|a| - 1] == LF))
      || a == [] || b == []
    ensures Occurs(a + b, m, p) <==> Occurs(a, m, p) || Occurs(b, m, p - |a|)
  {
    var s := a + b;
    if p < |a| < p + |m| && Occurs(s, m, p) {
      OccursAt(s, m, p, |a| - p);
      OccursAt(s, m, p, |a| - 1 - p);
    }
  }

  lemma SpliceOccurrences(before: Bytes, b: Bytes, after: Bytes, m: Bytes, p: int)
    requires Delimited(m) && |b| > 0 && b[0] == 60 && b[|b| - 1] == 62
    ensures Occurs(before + b + after, m, p) <==>
              Occurs(before, m, p) || Occurs(b, m, p - |before|) || Occurs(after, m, p - |before| - |b|)
  {
    NoStraddle(before, b, m, p);
    NoStraddle(before + b, after, m, p);
  }

  // ----- Planning twice -----

  lemma {:induction false} TrimKeeps(s: Bytes, k: nat)
    requires 0 < k <= |s| && s[k - 1] == 62
    ensures k <= |TrimEnd(s)|
    decreases |s|
  {
    var n := SpaceTail(s);
    if n > 0 { TrimKeeps(s[..|s| - n], k); }
  }

  function BlockStart(r: Bytes): (p: nat)
    requires CountFrom(r, START, 0) == 1
  {
    IndexOf(r, START, 0).value
  }

  function BlockEnd(r: Bytes): (p: nat)
    requires CountFrom(r, END, 0) == 1
  {
    IndexOf(r, END, 0).value + |END|
  }

  lemma MarkersApart(s: Bytes, p: int, q: int)
    requires Occurs(s, START, p) && Occurs(s, END, q) && p <= q
    ensures p + |START| <= q
  {
    if q < p + |START| {
      OccursAt(s, START, p, q - p);
      OccursAt(s, END, q, 0);
      OccursAt(s, START, p, 11);
      OccursAt(s, END, q, 11);
    }
  }

  lemma FramesOccur(pre: Bytes, b: Bytes, post: Bytes, st: Bytes, en: Bytes)
    requires Frames(b, st, en)
    ensures Occurs(pre + b + post, st, |pre|) && Occurs(pre + b + post, en, |pre| + |b| - |en|)
  {
  }

  /** Cutting white space after the end marker leaves the text between the markers as it is. */
  lemma TrimmedFrames(r: Bytes, t: Bytes, st: Bytes, en: Bytes, s: int, e: int)
    requires t <= r && Unique(r, st, s) && Unique(r, en, e - |en|) && s + |st| <= e - |en| && e <= |t|
    ensures Frames(r[s..e], st, en)
    ensures Frames(t, st, en) <==> t == r[s..e]
    ensures Frames(t, st, en) ==> s == 0 && e == |t|
  {
    var b := r[s..e];
    if Frames(t, st, en) {
      assert r == [] + t + r[|t|..];
      FramesOccur([], t, r[|t|..], st, en);
    }
  }

  lemma PairOf(r: Bytes)
    requires OnePair(r)
    ensures Unique(r, START, BlockStart(r)) && Unique(r, END, BlockEnd(r) - |END|)
    ensures BlockStart(r) + |START| <= BlockEnd(r) - |END|
    ensures BlockEnd(r) <= |TrimEnd(r)|
  {
    MarkersAreDelimited();
    CountMeaning(r, START);
    CountMeaning(r, END);
    MarkersApart(r, BlockStart(r), BlockEnd(r) - |END|);
    TrimKeepsMarker(r, END, BlockEnd(r) - |END|);
  }

  lemma TrimKeepsMarker(r: Bytes, m: Bytes, p: int)
    requires Occurs(r, m, p) && Delimited(m)
    ensures p + |m| <= |TrimEnd(r)|
  {
    TrimKeeps(r, p + |m|);
  }

  /** The block of a good replacement survives trimming; the replacement is bare when nothing else does. */
  lemma BlockOf(r: Bytes)
    requires OnePair(r)
    ensures BlockStart(r) + |START| + |END| <= BlockEnd(r) <= |TrimEnd(r)| <= |r|
    ensures Frames(r[BlockStart(r)..BlockEnd(r)], START, END)
    ensures Bare(r) <==> TrimEnd(r) == r[BlockStart(r)..BlockEnd(r)]
    ensures Bare(r) ==> BlockStart(r) == 0 && BlockEnd(r) == |TrimEnd(r)|
  {
    PairOf(r);
    hide Unique, Occurs, Frames, TrimEnd, OnePair, Single, CountFrom, IndexOf;
    TrimmedFrames(r, TrimEnd(r), START, END, BlockStart(r), BlockEnd(r));
  }

  lemma SameSplice(pre: Bytes, b: Bytes, t: Bytes, post: Bytes)
    ensures pre + t + post == pre + b + post <==> t == b
  {
    if pre + t + post == pre + b + post {
      assert |t| == |b|;
      assert t == (pre + t + post)[|pre|..|pre| + |t|];
      assert b == (pre + b + post)[|pre|..|pre| + |b|];
    }
  }

  /** Planning over a text that holds one pair of markers puts the trimmed replacement between the same neighbours. */
  lemma PlanOverPair(pre: Bytes, b: Bytes, post: Bytes, r: Bytes)
    requires OnePair(r) && Frames(b, START, END)
    ensures
      var out := pre + b + post;
      var again := PlanFromSnapshot(true, Some(out), r);
      if Single(out) then again == Ok(Finish(true, out, pre + TrimEnd(r) + post, Update)) else again.Err?
  {
    var out := pre + b + post;
    MarkersAreDelimited();
    CountMeaning(out, START);
    CountMeaning(out, END);
    FramesOccur(pre, b, post, START, END);
    if Single(out) {
      assert out[..|pre|] == pre && out[|pre| + |b|..] == post;
    }
  }

  /** Replanning a text that holds the block once: the block gives way to the whole trimmed replacement. */
  lemma PlanAgain(pre: Bytes, post: Bytes, r: Bytes)
    requires OnePair(r)
    ensures
      var out := pre + r[BlockStart(r)..BlockEnd(r)] + post;
      && (Idle(PlanFromSnapshot(true, Some(out), r), out) <==> Bare(r) && Single(out))
      && (!Bare(r) ==> GrowsOrFails(PlanFromSnapshot(true, Some(out), r), out))
  {
    BlockOf(r);
    LongerUnlessBare(r);
    var b := r[BlockStart(r)..BlockEnd(r)];
    PlanOverPair(pre, b, post, r);
    SameSplice(pre, b, TrimEnd(r), post);
    hide Bare, Frames, OnePair, TrimEnd, PlanFromSnapshot, Single, BlockStart, BlockEnd;
  }

  /** Whatever a good replacement has around its block makes it longer than the block, trimmed or not. */
  lemma LongerUnlessBare(r: Bytes)
    requires OnePair(r)
    ensures BlockStart(r) <= BlockEnd(r) && (!Bare(r) ==> |TrimEnd(r)| > BlockEnd(r) - BlockStart(r))
  {
    BlockOf(r);
    var t := TrimEnd(r);
    hide Bare, Frames, OnePair, Single, TrimEnd;
    assert t == r[..|t|];
    assert BlockStart(r) == 0 && BlockEnd(r) == |t| ==> t == r[BlockStart(r)..BlockEnd(r)];
  }

  predicate GrowsOrFails(p: Result<Plan, PlanError>, text: Bytes) {
    p.Ok? ==> |p.value.replacement| > |text|
  }

  /** A plan that leaves the text as it is. */
  predicate Idle(p: Result<Plan, PlanError>, text: Bytes) { p == Ok(Plan(Some(text), text, false, Unchanged)) }

  // ----- The pair of markers in the output -----

  lemma SliceOccurs(s: Bytes, m: Bytes, lo: int, hi: int, p: int)
    requires 0 <= lo <= hi <= |s|
    ensures Occurs(s[lo..hi], m, p) <==> 0 <= p && p + |m| <= hi - lo && Occurs(s, m, lo + p)
  {
    if 0 <= p && p + |m| <= hi - lo {
      var inner, outer := s[lo..hi][p..p + |m|], s[lo + p..lo + p + |m|];
      assert forall k :: 0 <= k < |m| ==> inner[k] == outer[k];
      assert inner == outer;
    }
  }

  lemma SliceAbsent(s: Bytes, m: Bytes, at: int, lo: int, hi: int)
    requires Unique(s, m, at) && 0 <= lo <= hi <= |s| && (at < lo || hi < at + |m|)
    ensures Absent(s[lo..hi], m)
  {
    forall p ensures !Occurs(s[lo..hi], m, p) { SliceOccurs(s, m, lo, hi, p); }
  }

  lemma SliceUnique(s: Bytes, m: Bytes, at: int, lo: int, hi: int)
    requires Unique(s, m, at) && 0 <= lo <= at && at + |m| <= hi <= |s|
    ensures Unique(s[lo..hi], m, at - lo)
  {
    SliceOccurs(s, m, lo, hi, at - lo);
    forall p | Occurs(s[lo..hi], m, p) ensures p == at - lo { SliceOccurs(s, m, lo, hi, p); }
  }

  /** The seams are edges of markers, so the splice neither makes nor hides a marker. */
  lemma UniqueSplice(pre: Bytes, b: Bytes, post: Bytes, m: Bytes, k: int)
    requires Delimited(m) && |b| > 0 && b[0] == 60 && b[|b| - 1] == 62
    requires Unique(b, m, k) && Absent(pre, m) && Absent(post, m)
    ensures Unique(pre + b + post, m, |pre| + k)
  {
    var s := pre + b + post;
    SpliceOccurrences(pre, b, post, m, |pre| + k);
    forall p ensures Occurs(s, m, p) ==> p == |pre| + k {
      SpliceOccurrences(pre, b, post, m, p);
    }
  }

  /** Line breaks after a text without markers add none. */
  lemma SeparatedAbsent(source: Bytes, m: Bytes)
    requires Delimited(m) && |m| > 2 && Absent(source, m)
    ensures Absent(source + Separator(source), m)
  {
    forall p ensures !Occurs(source + Separator(source), m, p) {
      NoStraddle(source, Separator(source), m, p);
    }
  }

  /** What a plan keeps before and after the text it writes. */
  function Kept(present: bool, existing: Option<Bytes>): (pair: (Bytes, Bytes)) {
    var source := Source(present, existing);
    if Single(source) then (source[..BlockStart(source)], source[BlockEnd(source)..])
    else (if present then source + Separator(source) else [], [])
  }

  /** The text a plan writes: trimmed in place of an old block, whole otherwise. */
  function Written(present: bool, existing: Option<Bytes>, r: Bytes): (w: Bytes)
    ensures TrimEnd(r) <= w <= r
  {
    if Single(Source(present, existing)) then TrimEnd(r) else r
  }

  lemma OutputShape(present: bool, existing: Option<Bytes>, r: Bytes)
    requires PlanFromSnapshot(present, existing, r).Ok?
    ensures
      var (before, after) := Kept(present, existing);
      PlanFromSnapshot(present, existing, r).value.replacement == before + Written(present, existing, r) + after
  {
  }

  ghost predicate MarkerFree(s: Bytes) { Absent(s, START) && Absent(s, END) }

  lemma SourceCases(present: bool, existing: Option<Bytes>, r: Bytes)
    requires PlanFromSnapshot(present, existing, r).Ok?
    ensures OnePair(r)
    ensures
      var source := Source(present, existing);
      if Single(source) then OnePair(source) else MarkerFree(source)
  {
    MarkersAreDelimited();
    CountMeaning(Source(present, existing), START);
    CountMeaning(Source(present, existing), END);
  }

  lemma CutAbsent(s: Bytes, m: Bytes, at: int, start: int, end: int)
    requires Unique(s, m, at) && |m| > 0 && 0 <= start <= at < end <= |s|
    ensures Absent(s[..start], m) && Absent(s[end..], m)
  {
    SliceAbsent(s, m, at, 0, start);
    SliceAbsent(s, m, at, end, |s|);
    assert s[0..start] == s[..start] && s[end..|s|] == s[end..];
  }

  /** The kept text holds no marker: the one pair a source may hold is what the plan cuts out. */
  lemma KeptAbsent(present: bool, existing: Option<Bytes>, r: Bytes)
    requires PlanFromSnapshot(present, existing, r).Ok?
    ensures MarkerFree(Kept(present, existing).0) && MarkerFree(Kept(present, existing).1)
  {
    var source := Source(present, existing);
    SourceCases(present, existing, r);
    if Single(source) {
      PairOf(source);
      CutAbsent(source, START, BlockStart(source), BlockStart(source), BlockEnd(source));
      CutAbsent(source, END, BlockEnd(source) - |END|, BlockStart(source), BlockEnd(source));
    } else {
      MarkersAreDelimited();
      SeparatedAbsent(source, START);
      SeparatedAbsent(source, END);
    }
  }

  /** What is left of the written text after the block is white space, kept only at the end of the file. */
  lemma RestAbsent(r: Bytes, t: Bytes, w: Bytes, after: Bytes, m: Bytes, at: int)
    requires t <= w && Unique(r, m, at) && at < |t| && |m| > 0 && Absent(after, m)
    requires w == t || (w == r && after == [])
    ensures Absent(w[|t|..] + after, m)
  {
    if w == t {
      assert w[|t|..] + after == after;
    } else {
      CutAbsent(r, m, at, 0, |t|);
      assert w[|t|..] + after == r[|t|..];
    }
  }

  lemma FirstAndLast(b: Bytes, st: Bytes, en: Bytes)
    requires Frames(b, st, en) && Delimited(st) && Delimited(en)
    ensures |b| > 0 && b[0] == 60 && b[|b| - 1] == 62
  {
    assert b[0] == b[..|st|][0];
    assert b[|b| - 1] == b[|b| - |en|..][|en| - 1];
  }

  lemma CountOne(s: Bytes, m: Bytes, at: int)
    requires Delimited(m) && Unique(s, m, at)
    ensures CountFrom(s, m, 0) == 1 && IndexOf(s, m, 0) == Some(at)
  {
    IndexOfFirst(s, m, 0);
    CountMeaning(s, m);
  }

  /** Writing a bare block between texts without markers leaves its own marker the only one. */
  lemma UniqueInOutput(before: Bytes, r: Bytes, t: Bytes, w: Bytes, after: Bytes, m: Bytes, at: int)
    requires Delimited(m) && t <= w && t <= r && (w == t || (w == r && after == []))
    requires |t| > 0 && t[0] == 60 && t[|t| - 1] == 62
    requires Unique(r, m, at) && at + |m| <= |t| && Absent(before, m) && Absent(after, m)
    ensures Unique(before + w + after, m, |before| + at)
  {
    var rest := w[|t|..] + after;
    RestAbsent(r, t, w, after, m, at);
    SliceUnique(r, m, at, 0, |t|);
    assert r[0..|t|] == t;
    UniqueSplice(before, t, rest, m, at);
    assert before + w + after == before + t + rest;
  }

  lemma BareMarkers(r: Bytes)
    requires OnePair(r) && Bare(r)
    ensures Unique(r, START, 0) && Unique(r, END, |TrimEnd(r)| - |END|) && |END| <= |TrimEnd(r)|
  {
    PairOf(r);
    BlockOf(r);
  }

  lemma PairWritten(before: Bytes, r: Bytes, t: Bytes, w: Bytes, after: Bytes, st: Bytes, en: Bytes)
    requires Delimited(st) && Delimited(en) && Frames(t, st, en) && Unique(r, st, 0) && Unique(r, en, |t| - |en|)
    requires t <= w && t <= r && (w == t || (w == r && after == []))
    requires Absent(before, st) && Absent(after, st) && Absent(before, en) && Absent(after, en)
    ensures Unique(before + w + after, st, |before|)
    ensures Unique(before + w + after, en, |before| + |t| - |en|)
  {
    FirstAndLast(t, st, en);
    UniqueInOutput(before, r, t, w, after, st, 0);
    UniqueInOutput(before, r, t, w, after, en, |t| - |en|);
  }

  lemma PairCounted(out: Bytes, start: int, last: int)
    requires Unique(out, START, start) && Unique(out, END, last) && start <= last
    ensures OnePair(out) && BlockStart(out) == start && BlockEnd(out) == last + |END|
  {
    MarkersAreDelimited();
    CountOne(out, START, start);
    CountOne(out, END, last);
  }

  lemma MarkersBetween(before: Bytes, r: Bytes, t: Bytes, w: Bytes, after: Bytes)
    requires Frames(t, START, END) && Unique(r, START, 0) && Unique(r, END, |t| - |END|) && |END| <= |t|
    requires Delimited(START) && Delimited(END) && MarkerFree(before) && MarkerFree(after)
    requires t <= w && t <= r && (w == t || (w == r && after == []))
    ensures OnePair(before + w + after)
    ensures BlockStart(before + w + after) == |before| && BlockEnd(before + w + after) == |before| + |t|
  {
    hide Unique, Occurs, Frames, OnePair, Single, CountFrom, IndexOf, Absent, Delimited;
    PairWritten(before, r, t, w, after, START, END);
    PairCounted(before + w + after, |before|, |before| + |t| - |END|);
  }

  /** Between texts without markers, the markers of a bare replacement are the only ones. */
  lemma BareBetween(before: Bytes, r: Bytes, w: Bytes, after: Bytes)
    requires OnePair(r) && Bare(r) && MarkerFree(before) && MarkerFree(after)
    requires w == TrimEnd(r) || (w == r && after == [])
    ensures
      var out := before + w + after;
      OnePair(out) && BlockStart(out) == |before| && BlockEnd(out) == |before| + |TrimEnd(r)|
  {
    BareMarkers(r);
    MarkersAreDelimited();
    hide Unique, Occurs, Frames, TrimEnd, OnePair, Single, CountFrom, IndexOf, Absent, Delimited, BlockStart, BlockEnd;
    MarkersBetween(before, r, TrimEnd(r), w, after);
  }

  lemma Slices(out: Bytes, before: Bytes, t: Bytes, w: Bytes, after: Bytes, start: int, end: int)
    requires t <= w && out == before + w + after && start == |before| && end == |before| + |t|
    ensures out[..start] == before && out[start..end] == t && out[end..] == w[|t|..] + after
  {
  }

  /** The output in three parts: the kept text, the trimmed replacement between the markers, the kept text. */
  lemma PartsOfOutput(present: bool, existing: Option<Bytes>, r: Bytes)
    requires PlanFromSnapshot(present, existing, r).Ok? && Bare(r)
    ensures
      var (before, after) := Kept(present, existing);
      var out := PlanFromSnapshot(present, existing, r).value.replacement;
      && OnePair(out)
      && out[..BlockStart(out)] == before
      && out[BlockStart(out)..BlockEnd(out)] == TrimEnd(r)
      && out[BlockEnd(out)..] == Written(present, existing, r)[|TrimEnd(r)|..] + after
  {
    var (before, after) := Kept(present, existing);
    OutputShape(present, existing, r);
    SourceCases(present, existing, r);
    KeptAbsent(present, existing, r);
    BareBetween(before, r, Written(present, existing, r), after);
    var out := before + Written(present, existing, r) + after;
    Slices(out, before, TrimEnd(r), Written(present, existing, r), after, BlockStart(out), BlockEnd(out));
  }

  /**
   A bare replacement leaves exactly one ordered pair of markers, with the
   trimmed replacement between its ends, and every byte around an old block, or
   every byte of a text without one, stays in place.
   */
  lemma UserBytesSurvive(present: bool, existing: Option<Bytes>, r: Bytes)
    requires PlanFromSnapshot(present, existing, r).Ok? && Bare(r)
    ensures
      var source := Source(present, existing);
      var out := PlanFromSnapshot(present, existing, r).value.replacement;
      && OnePair(out)
      && out[BlockStart(out)..BlockEnd(out)] == TrimEnd(r)
      && (if Single(source) then
            && out[..BlockStart(out)] == source[..BlockStart(source)]
            && out[BlockEnd(out)..] == source[BlockEnd(source)..]
          else
            && out[..BlockStart(out)] == (if present then source + Separator(source) else [])
            && out[BlockEnd(out)..] == r[|TrimEnd(r)|..])
  {
    PartsOfOutput(present, existing, r);
  }

  lemma Regroup(a: Bytes, r: Bytes, bs: nat, be: nat, w: Bytes, z: Bytes)
    requires bs <= be <= |w| && w <= r
    ensures (a + r[..bs]) + r[bs..be] + (w[be..] + z) == a + w + z
  {
    assert w == r[..bs] + r[bs..be] + w[be..];
  }

  /**
   Planning a second time, over the bytes the first plan wrote, succeeds and
   changes nothing exactly when the replacement is one block and trailing white
   space; over any other good replacement it fails or makes the file longer.
   */
  lemma PlanningTwice(present: bool, existing: Option<Bytes>, r: Bytes)
    requires PlanFromSnapshot(present, existing, r).Ok?
    ensures
      var out := PlanFromSnapshot(present, existing, r).value.replacement;
      && (Idle(PlanFromSnapshot(true, Some(out), r), out) <==> Bare(r))
      && (!Bare(r) ==> GrowsOrFails(PlanFromSnapshot(true, Some(out), r), out))
  {
    var (before, after) := Kept(present, existing);
    var w := Written(present, existing, r);
    OutputShape(present, existing, r);
    SourceCases(present, existing, r);
    BlockOf(r);
    Regroup(before, r, BlockStart(r), BlockEnd(r), w, after);
    PlanAgain(before + r[..BlockStart(r)], w[BlockEnd(r)..] + after, r);
    if Bare(r) { UserBytesSurvive(present, existing, r); }
  }

  /** Over the file that a good replacement created, the second plan adds what is around the block and never fails. */
  lemma CreatedTwice(r: Bytes)
    requires OnePair(r)
    ensures PlanFromSnapshot(false, None, r) == Ok(Finish(false, [], r, Create))
    ensures
      var again := PlanFromSnapshot(true, Some(r), r);
      && again.Ok? && again.value.replacement == r[..BlockStart(r)] + TrimEnd(r) + r[BlockEnd(r)..]
      && |again.value.replacement| - |r| == |TrimEnd(r)| - (BlockEnd(r) - BlockStart(r))
  {
    MarkersAreDelimited();
    CountMeaning([], START);
    CountMeaning([], END);
    PairOf(r);
  }

  lemma EmptyBlockMarkers()
    ensures Unique(START + END, START, 0) && Unique(START + END, END, |START|)
  {
    MarkersAreDelimited();
    forall p ensures Occurs(START + END, START, p) <==> p == 0 {
      NoStraddle(START, END, START, p);
    }
    forall p ensures Occurs(START + END, END, p) <==> p == |START| {
      NoStraddle(START, END, END, p);
      if Occurs(START, END, p) {
        OccursAt(START, END, p, 0);
        OccursAt(START, END, p, 11);
      }
    }
  }

  /** A good replacement that is not bare, and the file that is longer after the second plan. */
  lemma NotBareGrows()
    ensures
      var r := [120] + START + END;
      var again := PlanFromSnapshot(true, Some(r), r);
      && OnePair(r) && !Bare(r) && PlanFromSnapshot(false, None, r).Ok?
      && again.Ok? && |again.value.replacement| == |r| + 1
  {
    var r := [120] + START + END;
    MarkersAreDelimited();
    EmptyBlockMarkers();
    assert r == [120] + (START + END) + [];
    UniqueSplice([120], START + END, [], START, 0);
    UniqueSplice([120], START + END, [], END, |START|);
    PairCounted(r, 1, 1 + |START|);
    BlockOf(r);
    CreatedTwice(r);
  }

  // ----- When a plan is made, and when it is a change -----

  /** Planning succeeds exactly for a good replacement and a text with one pair of markers or none. */
  lemma PlansExactly(present: bool, existing: Option<Bytes>, r: Bytes)
    ensures
      var plan, source := PlanFromSnapshot(present, existing, r), Source(present, existing);
      && (plan == Err(BadReplacement) <==> !OnePair(r))
      && (plan == Err(Disappeared) <==> OnePair(r) && !present && existing.Some?)
      && (plan.Ok? <==> OnePair(r) && (present || existing.None?) && (MarkerFree(source) || OnePair(source)))
      && (plan == Err(EndBeforeStart) <==>
            OnePair(r) && (present || existing.None?) && Single(source) && !OnePair(source))
  {
    var source := Source(present, existing);
    MarkersAreDelimited();
    CountMeaning(source, START);
    CountMeaning(source, END);
  }

  /** A plan is a change exactly when it writes other bytes than there were; an absent file is always a change. */
  lemma ChangedExactly(present: bool, existing: Option<Bytes>, r: Bytes)
    requires PlanFromSnapshot(present, existing, r).Ok?
    ensures
      var plan, source := PlanFromSnapshot(present, existing, r).value, Source(present, existing);
      && plan.original == (if present then Some(source) else None)
      && (plan.changed <==> !present || plan.replacement != source)
      && (plan.action == Unchanged <==> !plan.changed)
      && (plan.action == Create <==> !present)
      && (!present ==> plan.replacement == r)
      && (plan.action == Append ==> MarkerFree(source)) && (plan.action == Update ==> OnePair(source))
  {
    SourceCases(present, existing, r);
    BlockOf(r);
    if !present {
      MarkersAreDelimited();
      CountMeaning([], START);
      CountMeaning([], END);
    }
  }

  /** A text without markers keeps every byte, then a blank line unless it was empty, then the whole replacement. */
  lemma AppendedExactly(existing: Bytes, r: Bytes)
    requires OnePair(r) && MarkerFree(existing)
    ensures
      var plan := PlanFromSnapshot(true, Some(existing), r);
      && plan.Ok? && plan.value.changed && plan.value.action == Append
      && plan.value.replacement == existing + Separator(existing) + r
    ensures existing == [] ==> Separator(existing) == []
    ensures existing != [] ==>
              var before := existing + Separator(existing);
              before[|before| - 2..] == [LF, LF] && 1 <= |Separator(existing)| <= 2
  {
    MarkersAreDelimited();
    CountMeaning(existing, START);
    CountMeaning(existing, END);
    BlockOf(r);
  }

  // ----- Trimming bytes is trimming text -----

  /** White space and line ends of ECMAScript, sections 12.2 and 12.3 of ECMA-262. */
  predicate Space(c: char) {
    var n := c as int;
    || 0x9 <= n <= 0xD || n == 0x20 || n == 0xA0 || n == 0x1680 || 0x2000 <= n <= 0x200A
    || n == 0x2028 || n == 0x2029 || n == 0x202F || n == 0x205F || n == 0x3000 || n == 0xFEFF
  }

  function TrimText(s: string): string {
    if s != "" && Space(s[|s| - 1]) then TrimText(s[..|s| - 1]) else s
  }

  lemma LastBytes(front: Bytes, last: Bytes)
    ensures var s := front + last;
            && (|last| >= 1 ==> s[|s| - 1] == last[|last| - 1])
            && (|last| >= 2 ==> s[|s| - 2] == last[|last| - 2])
            && (|last| >= 3 ==> s[|s| - 3] == last[|last| - 3])
            && s[..|s| - |last|] == front
  {
  }

  /** The bytes at the end of a text are a white space exactly when its last character is one. */
  lemma SpaceTailIs(front: Bytes, c: char)
    ensures SpaceTail(front + Utf8(c)) == if Space(c) then |Utf8(c)| else 0
  {
    LastBytes(front, Utf8(c));
  }

  /** trimEnd on the decoded text, encoded again. */
  lemma {:induction false} TrimsText(s: string)
    ensures TrimEnd(Encoded(s)) == Encoded(TrimText(s))
  {
    if s != "" {
      var front, c := s[..|s| - 1], s[|s| - 1];
      assert s == front + [c];
      EncodedLast(front, c);
      SpaceTailIs(Encoded(front), c);
      LastBytes(Encoded(front), Utf8(c));
      if Space(c) { TrimsText(front); }
    }
  }
}

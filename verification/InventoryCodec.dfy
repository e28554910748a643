/**
 The inventory of one engine: which rows are valid, and the canonical document
 that holds at most four of them in order.
 */
module InventoryCodec {
  import opened Basics
  import opened Wrappers

  datatype SessionState = Reserved | Idle | Running | Deleting

  datatype Isolation = Isolated | NonIsolated

  datatype DeletePhase = StoreTombstoned | StoreRemoved | WorktreeRemoved | BranchRemoved | CoderStateRemoved

  datatype Row = Row(
    engine: string,
    slug: string,
    instanceId: string,
    isolation: Isolation,
    lockSlot: int,
    state: SessionState,
    runId: Option<string>,
    sandboxId: Option<string>,
    pid: Option<int>,
    processStartId: Option<string>,
    bootId: Option<string>,
    fingerprint: string,
    reservedBytes: int,
    deletingBasename: Option<string>,
    deletePhase: Option<DeletePhase>,
    createdAt: string,
    updatedAt: string)

  const RESERVED_BYTES := 133169152
  const MAX_ENTRIES := 4
  const MAX_BYTES := 65536
  const SCHEMA_VERSION := 2

  // ----- Rows -----

  predicate Hex(s: string, n: nat) { |s| == n && forall c :: c in s ==> Digit(c) || 'a' <= c <= 'f' }

  predicate SandboxId(s: string) { |s| == 36 && s[..4] == "sbx_" && Hex(s[4..], 32) }

  /** YYYY-MM-DDTHH:MM:SS.mmmZ */
  predicate Timestamp(s: string) {
    && |s| == 24 && s[4] == '-' && s[7] == '-' && s[10] == 'T'
    && s[13] == ':' && s[16] == ':' && s[19] == '.' && s[23] == 'Z'
    && forall i :: 0 <= i < 23 && i !in {4, 7, 10, 13, 16, 19} ==> Digit(s[i])
  }

  function DeletingBasename(engine: string, slug: string, runId: string): string {
    ".deleting-" + engine + "-" + slug + "-" + runId
  }

  /** The owner fields that each state asks for. */
  predicate OwnerFits(r: Row) {
    match r.state
    case Idle =>
      && r.runId.None? && r.sandboxId.None? && r.pid.None? && r.processStartId.None? && r.bootId.None?
      && r.deletingBasename.None? && r.deletePhase.None?
    case Deleting =>
      && r.runId.Some? && r.runId.value != "" && r.sandboxId.Some? && r.pid.Some?
      && r.processStartId.Some? && r.bootId.Some? && r.deletePhase.Some?
      && r.deletingBasename == Some(DeletingBasename(r.engine, r.slug, r.runId.value))
    case _ =>
      && r.runId.Some? && r.runId.value != "" && r.sandboxId.Some? && r.pid.Some?
      && r.processStartId.Some? && r.bootId.Some? && r.deletingBasename.None? && r.deletePhase.None?
  }

  predicate ValidEntry(r: Row) {
    && 0 < |r.engine| <= 64 && 0 < |r.slug| <= 64 && Hex(r.instanceId, 32) && 0 <= r.lockSlot <= 3
    && r.reservedBytes == RESERVED_BYTES && Hex(r.fingerprint, 64) && Timestamp(r.createdAt) && Timestamp(r.updatedAt)
    && (r.sandboxId.Some? ==> SandboxId(r.sandboxId.value))
    && (r.pid.Some? ==> r.pid.value > 0)
    && OwnerFits(r)
  }

  // ----- Order -----

  /** a < b on strings, character by character. */
  predicate Before(a: string, b: string) {
    b != [] && (a == [] || a[0] < b[0] || (a[0] == b[0] && Before(a[1..], b[1..])))
  }

  lemma {:induction false} BeforeIsTotal(a: string, b: string)
    ensures Before(a, b) ==> a != b && !Before(b, a)
    ensures a == b || Before(a, b) || Before(b, a)
  {
    if a != [] && b != [] && a[0] == b[0] {
      BeforeIsTotal(a[1..], b[1..]);
      assert a == [a[0]] + a[1..] && b == [b[0]] + b[1..];
    }
  }

  lemma {:induction false} BeforeIsTransitive(a: string, b: string, c: string)
    requires Before(a, b) && Before(b, c)
    ensures Before(a, c)
  {
    if a != [] && a[0] == b[0] && b[0] == c[0] { BeforeIsTransitive(a[1..], b[1..], c[1..]); }
  }

  predicate SameKey(a: Row, b: Row) { a.engine == b.engine && a.slug == b.slug }

  /** The comparator of the sort: engine, then slug. */
  predicate Less(a: Row, b: Row) {
    if a.engine == b.engine then Before(a.slug, b.slug) else Before(a.engine, b.engine)
  }

  lemma LessIsOrder(a: Row, b: Row, c: Row)
    ensures Less(a, b) ==> !Less(b, a) && !SameKey(a, b)
    ensures SameKey(a, b) || Less(a, b) || Less(b, a)
    ensures Less(a, b) && Less(b, c) ==> Less(a, c)
    ensures SameKey(a, b) ==> (Less(a, c) <==> Less(b, c)) && (Less(c, a) <==> Less(c, b))
  {
    BeforeIsTotal(a.slug, b.slug);
    BeforeIsTotal(a.engine, b.engine);
    BeforeIsTotal(b.engine, c.engine);
    if a.engine == b.engine && b.engine == c.engine && Before(a.slug, b.slug) && Before(b.slug, c.slug) {
      BeforeIsTransitive(a.slug, b.slug, c.slug);
    }
    if Before(a.engine, b.engine) && Before(b.engine, c.engine) {
      BeforeIsTransitive(a.engine, b.engine, c.engine);
      BeforeIsTotal(a.engine, c.engine);
    }
  }

  function Insert(r: Row, rows: seq<Row>): seq<Row> {
    if rows == [] || Less(r, rows[0]) then [r] + rows else [rows[0]] + Insert(r, rows[1..])
  }

  /** The rows sorted with the comparator; rows with one key keep their order. */
  function Sorted(rows: seq<Row>): seq<Row> {
    if rows == [] then [] else Insert(rows[|rows| - 1], Sorted(rows[..|rows| - 1]))
  }

  ghost predicate Ordered(rows: seq<Row>) { forall i, j :: 0 <= i < j < |rows| ==> !Less(rows[j], rows[i]) }

  ghost predicate Ascending(rows: seq<Row>) { forall i, j :: 0 <= i < j < |rows| ==> Less(rows[i], rows[j]) }

  lemma {:induction false} InsertOrdered(r: Row, rows: seq<Row>)
    requires Ordered(rows)
    ensures Ordered(Insert(r, rows)) && multiset(Insert(r, rows)) == multiset(rows) + multiset{r}
  {
    if rows == [] {
    } else if Less(r, rows[0]) {
      InsertFront(r, rows);
    } else {
      assert rows == [rows[0]] + rows[1..];
      hide Less;
      InsertOrdered(r, rows[1..]);
      InsertLater(r, rows, Insert(r, rows[1..]));
    }
  }

  lemma InsertFront(r: Row, rows: seq<Row>)
    requires Ordered(rows) && rows != [] && Less(r, rows[0])
    ensures Ordered([r] + rows)
  {
    forall j | 0 <= j < |rows| ensures !Less(rows[j], r) {
      LessIsOrder(rows[j], r, rows[0]);
      LessIsOrder(rows[0], rows[j], r);
      LessIsOrder(rows[j], rows[0], r);
    }
  }

  lemma InsertLater(r: Row, rows: seq<Row>, tail: seq<Row>)
    requires Ordered(rows) && rows != [] && !Less(r, rows[0])
    requires Ordered(tail) && multiset(tail) == multiset(rows[1..]) + multiset{r}
    ensures Ordered([rows[0]] + tail)
  {
    hide Less;
    forall j | 0 <= j < |tail| ensures !Less(tail[j], rows[0]) {
      assert tail[j] in multiset(tail);
      if tail[j] != r {
        var k :| 0 <= k < |rows[1..]| && rows[1..][k] == tail[j];
        assert rows[k + 1] == tail[j];
      }
    }
  }

  lemma {:induction false} SortedMeans(rows: seq<Row>)
    ensures Ordered(Sorted(rows)) && multiset(Sorted(rows)) == multiset(rows)
  {
    if rows != [] {
      SortedMeans(rows[..|rows| - 1]);
      InsertOrdered(rows[|rows| - 1], Sorted(rows[..|rows| - 1]));
      assert rows == rows[..|rows| - 1] + [rows[|rows| - 1]];
    }
  }

  // ----- The document -----

  datatype Document = Document(schemaVersion: int, entries: seq<Row>, updatedAt: string)

  /** A file's text: what JSON.parse makes of it, if anything, and its length in bytes. */
  datatype Text = Text(parsed: Option<Document>, bytes: nat, endsWithLineFeed: bool)

  datatype EncodeError = TooManyEntries | InvalidEntry | Duplicate | TooLarge

  predicate AdjacentDuplicate(rows: seq<Row>) { exists i :: 0 < i < |rows| && SameKey(rows[i - 1], rows[i]) }

  /** jsonBytes: the length of the document's text, line feed included. */
  function Encode(entries: seq<Row>, updatedAt: string, jsonBytes: Document -> nat): Result<Text, EncodeError> {
    if |entries| > MAX_ENTRIES then Err(TooManyEntries)
    else if exists i :: 0 <= i < |entries| && !ValidEntry(entries[i]) then Err(InvalidEntry)
    else
      var doc := Document(SCHEMA_VERSION, Sorted(entries), updatedAt);
      if AdjacentDuplicate(doc.entries) then Err(Duplicate)
      else if jsonBytes(doc) > MAX_BYTES then Err(TooLarge)
      else Ok(Text(Some(doc), jsonBytes(doc), true))
  }

  const NUL: string := ['\0']

  function Key(r: Row): string { r.engine + NUL + r.slug }

  /** The decoder's order: adjacent keys rise. */
  predicate KeysRise(rows: seq<Row>) { forall i :: 0 < i < |rows| ==> Before(Key(rows[i - 1]), Key(rows[i])) }

  function Decode(text: Text): Option<Document> {
    if text.bytes > MAX_BYTES || !text.endsWithLineFeed || text.parsed.None? then None
    else
      var doc := text.parsed.value;
      if doc.schemaVersion != SCHEMA_VERSION || |doc.entries| > MAX_ENTRIES || !Timestamp(doc.updatedAt) then None
      else if exists i :: 0 <= i < |doc.entries| && !ValidEntry(doc.entries[i]) then None
      else if !KeysRise(doc.entries) then None
      else Some(doc)
  }

  lemma {:induction false} KeyOrderFrom(e: string, s: string, f: string, t: string)
    requires '\0' !in e && '\0' !in f
    ensures Before(e + NUL + s, f + NUL + t) <==> if e == f then Before(s, t) else Before(e, f)
  {
    var a, b := e + NUL + s, f + NUL + t;
    if e == [] {
      assert a[0] == '\0' && a[1..] == s;
      if f == [] { assert b[1..] == t; } else { assert b[0] == f[0]; }
    } else if f == [] {
      assert b[0] == '\0' && a[0] == e[0];
    } else {
      assert a[0] == e[0] && a[1..] == e[1..] + NUL + s;
      assert b[0] == f[0] && b[1..] == f[1..] + NUL + t;
      assert e == [e[0]] + e[1..] && f == [f[0]] + f[1..];
      KeyOrderFrom(e[1..], s, f[1..], t);
    }
  }

  ghost predicate NulFree(rows: seq<Row>) { forall r :: r in rows ==> '\0' !in r.engine }

  /** With no NUL in an engine name, the decoder's key order is the encoder's order. */
  lemma KeyOrder(a: Row, b: Row)
    requires '\0' !in a.engine && '\0' !in b.engine
    ensures Before(Key(a), Key(b)) <==> Less(a, b)
  {
    KeyOrderFrom(a.engine, a.slug, b.engine, b.slug);
  }

  /** With a NUL in an engine name the two orders may differ. */
  lemma NulBreaksOrder(a: Row, b: Row)
    requires a.engine == "e" && a.slug == "s" && b.engine == "e" + NUL + "r" && b.slug == "s"
    ensures Less(a, b) && Before(Key(b), Key(a)) && !Before(Key(a), Key(b))
  {
    assert a.engine[0] == b.engine[0] && a.engine[1..] == [] && b.engine[1..] != [];
    var k, l := Key(a), Key(b);
    assert k == ['e', '\0', 's'] && l == ['e', '\0', 'r', '\0', 's'];
    assert k[1..][1..] == ['s'] && l[1..][1..] == ['r', '\0', 's'];
    BeforeIsTotal(k, l);
  }

  ghost predicate HasDuplicate(rows: seq<Row>) { exists i, j :: 0 <= i < j < |rows| && SameKey(rows[i], rows[j]) }

  /** In sorted rows every pair with one key shows up as neighbours. */
  lemma DuplicatesAreAdjacent(rows: seq<Row>)
    requires Ordered(rows)
    ensures AdjacentDuplicate(rows) <==> HasDuplicate(rows)
    ensures !AdjacentDuplicate(rows) ==> Ascending(rows)
  {
    forall i, j | 0 <= i < j < |rows| && SameKey(rows[i], rows[j]) ensures AdjacentDuplicate(rows) {
      LessIsOrder(rows[j - 1], rows[j], rows[i]);
      LessIsOrder(rows[i], rows[j - 1], rows[i]);
      LessIsOrder(rows[i], rows[i + 1], rows[j]);
      assert !Less(rows[i + 1], rows[i]);
      LessIsOrder(rows[i + 1], rows[i], rows[j]);
      LessIsOrder(rows[i], rows[j], rows[i + 1]);
      assert SameKey(rows[i], rows[i + 1]);
    }
    forall i, j | 0 <= i < j < |rows| && !AdjacentDuplicate(rows) ensures Less(rows[i], rows[j]) {
      LessIsOrder(rows[i], rows[j], rows[i]);
    }
  }

  lemma {:induction false} TwoPlaces(rows: seq<Row>, r: Row)
    requires multiset(rows)[r] >= 2
    ensures exists i, j :: 0 <= i < j < |rows| && rows[i] == r && rows[j] == r
  {
    assert rows == [rows[0]] + rows[1..];
    if rows[0] == r {
      assert r in multiset(rows[1..]);
      var j :| 0 <= j < |rows[1..]| && rows[1..][j] == r;
      assert rows[0] == r && rows[j + 1] == r;
    } else {
      TwoPlaces(rows[1..], r);
      var i, j :| 0 <= i < j < |rows[1..]| && rows[1..][i] == r && rows[1..][j] == r;
      assert rows[i + 1] == r && rows[j + 1] == r;
    }
  }

  /** Whether two rows share a key depends on the rows, not on their order. */
  lemma KeyCounts(a: seq<Row>, b: seq<Row>, i: nat, j: nat)
    requires multiset(a) == multiset(b) && i < j < |a| && SameKey(a[i], a[j])
    ensures HasDuplicate(b)
  {
    if a[i] == a[j] {
      assert a == a[..j] + a[j..] && a[i] in a[..j] && a[j] in a[j..];
      TwoPlaces(b, a[i]);
      var k, l :| 0 <= k < l < |b| && b[k] == a[i] && b[l] == a[i];
      assert SameKey(b[k], b[l]);
    } else {
      assert a[i] in multiset(b) && a[j] in multiset(b);
      var k :| 0 <= k < |b| && b[k] == a[i];
      var l :| 0 <= l < |b| && b[l] == a[j];
      if k < l { assert SameKey(b[k], b[l]); } else { assert SameKey(b[l], b[k]); }
    }
  }

  lemma SortingBringsDuplicatesTogether(entries: seq<Row>)
    ensures AdjacentDuplicate(Sorted(entries)) <==> HasDuplicate(entries)
  {
    var sorted := Sorted(entries);
    SortedMeans(entries);
    DuplicatesAreAdjacent(sorted);
    if HasDuplicate(entries) {
      var i, j :| 0 <= i < j < |entries| && SameKey(entries[i], entries[j]);
      KeyCounts(entries, sorted, i, j);
    }
    if HasDuplicate(sorted) {
      var i, j :| 0 <= i < j < |sorted| && SameKey(sorted[i], sorted[j]);
      KeyCounts(sorted, entries, i, j);
    }
  }

  /** Duplicates are refused wherever they stand in the list. */
  lemma EncodeRefusesDuplicates(entries: seq<Row>, updatedAt: string, jsonBytes: Document -> nat)
    requires |entries| <= MAX_ENTRIES && forall i :: 0 <= i < |entries| ==> ValidEntry(entries[i])
    ensures Encode(entries, updatedAt, jsonBytes) == Err(Duplicate) <==> HasDuplicate(entries)
  {
    SortingBringsDuplicatesTogether(entries);
  }

  /** Encoding keeps the rows and puts them in ascending order. */
  lemma EncodedRows(entries: seq<Row>, updatedAt: string, jsonBytes: Document -> nat)
    requires Encode(entries, updatedAt, jsonBytes).Ok?
    ensures Ascending(Sorted(entries)) && multiset(Sorted(entries)) == multiset(entries)
    ensures |Sorted(entries)| <= MAX_ENTRIES
    ensures forall i :: 0 <= i < |Sorted(entries)| ==> ValidEntry(Sorted(entries)[i])
  {
    var sorted := Sorted(entries);
    SortedMeans(entries);
    DuplicatesAreAdjacent(sorted);
    assert |sorted| == |multiset(sorted)|;
    forall i | 0 <= i < |sorted| ensures ValidEntry(sorted[i]) {
      assert sorted[i] in multiset(entries);
    }
  }

  /**
   Decoding an encoded inventory gives the rows back, sorted, exactly when the time
   stamp is one and the keys rise.
   */
  lemma DecodeEncode(entries: seq<Row>, updatedAt: string, jsonBytes: Document -> nat)
    requires Encode(entries, updatedAt, jsonBytes).Ok?
    ensures Decode(Encode(entries, updatedAt, jsonBytes).value) ==
              if Timestamp(updatedAt) && KeysRise(Sorted(entries))
              then Some(Document(SCHEMA_VERSION, Sorted(entries), updatedAt)) else None
    ensures NulFree(entries) ==> KeysRise(Sorted(entries))
  {
    var sorted := Sorted(entries);
    EncodedRows(entries, updatedAt, jsonBytes);
    if NulFree(entries) {
      forall i | 0 < i < |sorted| ensures Before(Key(sorted[i - 1]), Key(sorted[i])) {
        assert sorted[i - 1] in multiset(entries) && sorted[i] in multiset(entries);
        KeyOrder(sorted[i - 1], sorted[i]);
      }
    }
  }

  function Repeat(c: char, n: nat): (s: string)
    ensures |s| == n && forall i :: 0 <= i < n ==> s[i] == c
  {
    seq(n, _ => c)
  }

  /** An idle row with these two names. */
  function SampleRow(engine: string, slug: string): Row {
    Row(engine, slug, Repeat('0', 32), Isolated, 0, Idle, None, None, None, None, None, Repeat('0', 64),
        RESERVED_BYTES, None, None, "2024-01-01T00:00:00.000Z", "2024-01-01T00:00:00.000Z")
  }

  lemma SampleRowIsValid(engine: string, slug: string)
    requires 0 < |engine| <= 64 && 0 < |slug| <= 64
    ensures ValidEntry(SampleRow(engine, slug)) && Timestamp("2024-01-01T00:00:00.000Z")
  {
  }

  /** Two valid rows whose engine names make the two orders differ are written, and then refused when read. */
  lemma EncodedButUnreadable(a: Row, b: Row, updatedAt: string, jsonBytes: Document -> nat)
    requires ValidEntry(a) && ValidEntry(b)
    requires a.engine == "e" && a.slug == "s" && b.engine == "e" + NUL + "r" && b.slug == "s"
    requires jsonBytes(Document(SCHEMA_VERSION, [a, b], updatedAt)) <= MAX_BYTES
    ensures var doc := Document(SCHEMA_VERSION, [a, b], updatedAt);
            && Encode([a, b], updatedAt, jsonBytes) == Ok(Text(Some(doc), jsonBytes(doc), true))
            && Decode(Text(Some(doc), jsonBytes(doc), true)) == None
  {
    NulBreaksOrder(a, b);
    SortedAscending([a, b]);
    assert !KeysRise([a, b]) by { assert !Before(Key([a, b][0]), Key([a, b][1])); }
    hide ValidEntry, Key;
    assert !AdjacentDuplicate([a, b]);
    DecodeEncode([a, b], updatedAt, jsonBytes);
  }

  /** Two idle rows with such names. */
  function UnreadableDocument(): Document {
    Document(SCHEMA_VERSION, [SampleRow("e", "s"), SampleRow("e" + NUL + "r", "s")], "2024-01-01T00:00:00.000Z")
  }

  /** There are such rows: the time stamp is one and no other check refuses them. */
  lemma NulLosesInventory(jsonBytes: Document -> nat)
    requires jsonBytes(UnreadableDocument()) <= MAX_BYTES
    ensures var doc := UnreadableDocument();
            && Timestamp(doc.updatedAt)
            && Encode(doc.entries, doc.updatedAt, jsonBytes) == Ok(Text(Some(doc), jsonBytes(doc), true))
            && Decode(Text(Some(doc), jsonBytes(doc), true)) == None
  {
    var doc := UnreadableDocument();
    SampleRowIsValid("e", "s");
    SampleRowIsValid("e" + NUL + "r", "s");
    hide ValidEntry, Timestamp;
    EncodedButUnreadable(doc.entries[0], doc.entries[1], doc.updatedAt, jsonBytes);
  }

  lemma {:induction false} SortedAscending(rows: seq<Row>)
    requires Ascending(rows)
    ensures Sorted(rows) == rows
  {
    if rows != [] {
      SortedAscending(rows[..|rows| - 1]);
      InsertLast(rows[|rows| - 1], rows[..|rows| - 1]);
      assert rows == rows[..|rows| - 1] + [rows[|rows| - 1]];
    }
  }

  lemma {:induction false} InsertLast(r: Row, rows: seq<Row>)
    requires forall i :: 0 <= i < |rows| ==> Less(rows[i], r)
    ensures Insert(r, rows) == rows + [r]
  {
    if rows != [] {
      LessIsOrder(rows[0], r, r);
      InsertLast(r, rows[1..]);
      assert rows == [rows[0]] + rows[1..];
    }
  }

  lemma {:induction false} KeysRiseFar(rows: seq<Row>, i: nat, j: nat)
    requires KeysRise(rows) && i < j < |rows|
    ensures Before(Key(rows[i]), Key(rows[j]))
    decreases j - i
  {
    if i + 1 < j {
      KeysRiseFar(rows, i, j - 1);
      BeforeIsTransitive(Key(rows[i]), Key(rows[j - 1]), Key(rows[j]));
    }
  }

  /** A decoded document is canonical: encoding it again gives the text it came from. */
  lemma EncodeDecode(text: Text, jsonBytes: Document -> nat)
    requires Decode(text).Some? && text.bytes == jsonBytes(text.parsed.value) && NulFree(text.parsed.value.entries)
    ensures Encode(Decode(text).value.entries, Decode(text).value.updatedAt, jsonBytes) == Ok(text)
  {
    var rows := text.parsed.value.entries;
    forall i, j | 0 <= i < j < |rows| ensures Less(rows[i], rows[j]) {
      KeysRiseFar(rows, i, j);
      KeyOrder(rows[i], rows[j]);
    }
    SortedAscending(rows);
    forall i | 0 < i < |rows| ensures !SameKey(rows[i - 1], rows[i]) {
      LessIsOrder(rows[i - 1], rows[i], rows[i]);
    }
  }

  /** A list is encoded exactly when it is short, valid, free of duplicate keys and small enough. */
  lemma EncodesExactly(entries: seq<Row>, updatedAt: string, jsonBytes: Document -> nat)
    ensures Encode(entries, updatedAt, jsonBytes).Ok? <==>
              && |entries| <= 4 && (forall r :: r in entries ==> ValidEntry(r)) && !HasDuplicate(entries)
              && jsonBytes(Document(2, Sorted(entries), updatedAt)) <= 65536
  {
    SortingBringsDuplicatesTogether(entries);
    hide Sorted, ValidEntry, HasDuplicate, AdjacentDuplicate;
  }

  /** With no NUL in an engine name, a text is read exactly when it is small and holds valid rows in strict order. */
  lemma DecodesExactly(text: Text)
    requires text.parsed.Some? ==> NulFree(text.parsed.value.entries)
    ensures Decode(text).Some? <==>
              && text.bytes <= 65536 && text.endsWithLineFeed && text.parsed.Some?
              && var doc := text.parsed.value;
              && doc.schemaVersion == 2 && |doc.entries| <= 4 && Timestamp(doc.updatedAt)
              && (forall r :: r in doc.entries ==> ValidEntry(r)) && Ascending(doc.entries)
    ensures Decode(text).Some? ==> Decode(text) == text.parsed
  {
    if text.parsed.Some? {
      var rows := text.parsed.value.entries;
      if KeysRise(rows) {
        forall i, j | 0 <= i < j < |rows| ensures Less(rows[i], rows[j]) {
          KeysRiseFar(rows, i, j);
          KeyOrder(rows[i], rows[j]);
        }
      }
      if Ascending(rows) {
        forall i | 0 < i < |rows| ensures Before(Key(rows[i - 1]), Key(rows[i])) {
          KeyOrder(rows[i - 1], rows[i]);
        }
      }
    }
    hide ValidEntry, Less, Before, Key, Timestamp;
  }

  /**
   A row that is read back names its owner in full exactly while somebody has it: an
   idle row has none, a deleting one names its own tombstone, and the slot is one of four.
   */
  lemma ReadRowsAreOwned(text: Text, r: Row)
    requires Decode(text).Some? && r in Decode(text).value.entries
    ensures r.state != Idle <==> r.runId.Some?
    ensures r.state != Idle <==> r.sandboxId.Some? && r.pid.Some? && r.processStartId.Some? && r.bootId.Some?
    ensures r.pid.Some? ==> r.pid.value > 0
    ensures r.state == Deleting <==> r.deletingBasename.Some?
    ensures r.state == Deleting ==>
              r.deletingBasename.value == ".deleting-" + r.engine + "-" + r.slug + "-" + r.runId.value
    ensures 0 <= r.lockSlot <= 3 && |r.instanceId| == 32 && |r.fingerprint| == 64
  {
    var rows := Decode(text).value.entries;
    var i :| 0 <= i < |rows| && rows[i] == r;
    assert ValidEntry(rows[i]);
  }
}

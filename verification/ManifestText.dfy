/** The manifest's text, and that the bytes counted for it are the bytes it has. */
module ManifestText {
  import opened ArtifactTree
  import opened Backup
  import opened Basics
  import opened Strings

  /** JSON.stringify of one character inside quotes. */
  function JsonChar(c: char): string {
    if c == '"' then "\\\""
    else if c == '\\' then "\\\\"
    else if c == '\n' then "\\n"
    else if c == '\r' then "\\r"
    else if c == '\t' then "\\t"
    else if c == '\U{8}' then "\\b"
    else if c == '\U{c}' then "\\f"
    else if c as int < 0x20 then "\\u00" + [HEX[c as int / 16], HEX[c as int % 16]]
    else [c]
  }

  function JsonText(s: string): string { if s == "" then "" else JsonChar(s[0]) + JsonText(s[1..]) }

  // The pieces between the fields.
  const BEFORE_PATH := "{\"path\":\""
  const BEFORE_HASH := "\",\"sha256\":\""
  const BEFORE_SIZE := "\",\"size\":"
  const BEFORE_ID := "{\"schema_version\":1,\"project_id\":\""
  const BEFORE_TIME := "\",\"created_at\":\""
  const BEFORE_ROOT := "\",\"source_root\":\""
  const BEFORE_ENTRIES := "\",\"entries\":["
  const AFTER_ENTRIES := "],\"sha256\":\""
  const AFTER_HASH := "\"}\n"

  /** The hashes are given as their texts. */
  function ItemText(e: Item, sha: Digest -> string): string {
    BEFORE_PATH + JsonText(e.path) + BEFORE_HASH + sha(e.digest) + BEFORE_SIZE + DecimalText(e.size) + "}"
  }

  function ItemTexts(entries: seq<Item>, sha: Digest -> string): seq<string> {
    seq(|entries|, i requires 0 <= i < |entries| => ItemText(entries[i], sha))
  }

  function ManifestText(m: Manifest, sha: Digest -> string, entriesSha: string): string {
    BEFORE_ID + JsonText(m.projectId) + BEFORE_TIME + JsonText(m.createdAt) + BEFORE_ROOT + JsonText(m.sourceRoot) +
    BEFORE_ENTRIES + Join(ItemTexts(m.entries, sha), ',') + AFTER_ENTRIES + entriesSha + AFTER_HASH
  }

  // ----- Bytes -----

  predicate Ascii(s: string) { forall i :: 0 <= i < |s| ==> s[i] as int < 0x80 }

  ghost predicate HashText(s: string) { |s| == 64 && Ascii(s) }

  lemma {:induction false} AsciiBytes(s: string)
    requires Ascii(s)
    ensures Utf8Bytes(s) == |s|
  {
    if s != "" { AsciiBytes(s[1..]); }
  }

  lemma {:induction false} BytesConcat(a: string, b: string)
    ensures Utf8Bytes(a + b) == Utf8Bytes(a) + Utf8Bytes(b)
  {
    if a == "" {
      assert a + b == b;
    } else {
      assert (a + b)[1..] == a[1..] + b;
      BytesConcat(a[1..], b);
    }
  }

  lemma {:induction false} JsonBytesIsText(s: string)
    ensures JsonBytes(s) == Utf8Bytes(JsonText(s))
  {
    if s != "" {
      JsonBytesIsText(s[1..]);
      BytesConcat(JsonChar(s[0]), JsonText(s[1..]));
      CharBytes(s[0]);
    }
  }

  lemma EscapeBytes(c: char)
    ensures JsonChar(c) != [c] ==> Utf8Bytes(JsonChar(c)) == if c as int < 0x20 && |JsonChar(c)| > 2 then 6 else 2
    ensures |JsonChar(c)| > 2 ==> c as int < 0x20 && |JsonChar(c)| == 6
  {
    hide Utf8Bytes;
    if JsonChar(c) != [c] { AsciiBytes(JsonChar(c)); }
  }

  lemma CharBytes(c: char)
    ensures JsonBytes([c]) == Utf8Bytes(JsonChar(c))
    ensures forall rest :: JsonBytes([c] + rest) == JsonBytes([c]) + JsonBytes(rest)
  {
    forall rest: string ensures JsonBytes([c] + rest) == JsonBytes([c]) + JsonBytes(rest) {
      assert ([c] + rest)[1..] == rest && [c][1..] == "";
    }
    EscapeBytes(c);
  }

  lemma {:induction false} DecimalLengthIsText(n: nat)
    ensures DecimalLength(n) == |DecimalText(n)| && Ascii(DecimalText(n))
  {
    if n >= 10 { DecimalLengthIsText(n / 10); }
  }

  lemma ItemPieces()
    ensures Utf8Bytes(BEFORE_PATH) + Utf8Bytes(BEFORE_HASH) + Utf8Bytes(BEFORE_SIZE) + Utf8Bytes("}") == 31
  {
    hide Utf8Bytes;
    AsciiBytes(BEFORE_PATH);
    AsciiBytes(BEFORE_HASH);
    AsciiBytes(BEFORE_SIZE);
    AsciiBytes("}");
  }

  lemma FirstPieces()
    ensures Utf8Bytes(BEFORE_ID) + Utf8Bytes(BEFORE_TIME) + Utf8Bytes(BEFORE_ROOT) == 67
  {
    hide Utf8Bytes;
    AsciiBytes(BEFORE_ID);
    AsciiBytes(BEFORE_TIME);
    AsciiBytes(BEFORE_ROOT);
  }

  lemma LastPieces()
    ensures Utf8Bytes(BEFORE_ENTRIES) + Utf8Bytes(AFTER_ENTRIES) + Utf8Bytes(AFTER_HASH) == 28
  {
    hide Utf8Bytes;
    AsciiBytes(BEFORE_ENTRIES);
    AsciiBytes(AFTER_ENTRIES);
    AsciiBytes(AFTER_HASH);
  }

  lemma ItemBytesIsText(e: Item, sha: Digest -> string)
    requires HashText(sha(e.digest))
    ensures ItemBytes(e) == Utf8Bytes(ItemText(e, sha))
  {
    var path, hash, size := JsonText(e.path), sha(e.digest), DecimalText(e.size);
    AsciiBytes(hash);
    hide Utf8Bytes, JsonText, DecimalText, DecimalLength, JsonBytes, Ascii;
    hide BEFORE_PATH, BEFORE_HASH, BEFORE_SIZE;
    DecimalLengthIsText(e.size);
    AsciiBytes(size);
    ItemPieces();
    JsonBytesIsText(e.path);
    BytesConcat(BEFORE_PATH + path + BEFORE_HASH + hash + BEFORE_SIZE + size, "}");
    BytesConcat(BEFORE_PATH + path + BEFORE_HASH + hash + BEFORE_SIZE, size);
    BytesConcat(BEFORE_PATH + path + BEFORE_HASH + hash, BEFORE_SIZE);
    BytesConcat(BEFORE_PATH + path + BEFORE_HASH, hash);
    BytesConcat(BEFORE_PATH + path, BEFORE_HASH);
    BytesConcat(BEFORE_PATH, path);
  }

  lemma {:induction false} JoinLast(front: seq<string>, last: string)
    ensures Utf8Bytes(Join(front + [last], ',')) ==
              Utf8Bytes(Join(front, ',')) + Utf8Bytes(last) + if front == [] then 0 else 1
  {
    if front == [] {
      assert front + [last] == [last];
    } else {
      assert (front + [last])[1..] == front[1..] + [last];
      JoinLast(front[1..], last);
      BytesConcat(front[0] + [','], Join(front[1..] + [last], ','));
      BytesConcat(front[0], [',']);
      if |front| > 1 { BytesConcat(front[0] + [','], Join(front[1..], ',')); }
    }
  }

  lemma {:induction false} ItemsBytesIsText(entries: seq<Item>, sha: Digest -> string)
    requires forall d :: HashText(sha(d))
    ensures Utf8Bytes(Join(ItemTexts(entries, sha), ',')) ==
              ItemsBytes(entries) + if entries == [] then 0 else |entries| - 1
  {
    if entries != [] {
      var front, last := entries[..|entries| - 1], entries[|entries| - 1];
      ItemsBytesIsText(front, sha);
      ItemBytesIsText(last, sha);
      hide ItemText, ItemBytes, Utf8Bytes, Join;
      assert ItemTexts(entries, sha) == ItemTexts(front, sha) + [ItemText(last, sha)];
      JoinLast(ItemTexts(front, sha), ItemText(last, sha));
    }
  }

  /** The bytes counted against the cap are those of the manifest's text. */
  lemma ManifestBytesIsText(m: Manifest, sha: Digest -> string, entriesSha: string)
    requires (forall d :: HashText(sha(d))) && HashText(entriesSha)
    ensures ManifestBytes(m) == Utf8Bytes(ManifestText(m, sha, entriesSha))
  {
    hide Utf8Bytes, JsonText, JsonBytes, ItemsBytes, ItemTexts, Join, Ascii;
    hide BEFORE_ID, BEFORE_TIME, BEFORE_ROOT, BEFORE_ENTRIES, AFTER_ENTRIES, AFTER_HASH;
    var items := Join(ItemTexts(m.entries, sha), ',');
    AsciiBytes(entriesSha);
    FirstPieces();
    LastPieces();
    ItemsBytesIsText(m.entries, sha);
    JsonBytesIsText(m.projectId);
    JsonBytesIsText(m.createdAt);
    JsonBytesIsText(m.sourceRoot);
    var head := BEFORE_ID + JsonText(m.projectId) + BEFORE_TIME + JsonText(m.createdAt);
    var front := head + BEFORE_ROOT + JsonText(m.sourceRoot) + BEFORE_ENTRIES;
    BytesConcat(front + items + AFTER_ENTRIES + entriesSha, AFTER_HASH);
    BytesConcat(front + items + AFTER_ENTRIES, entriesSha);
    BytesConcat(front + items, AFTER_ENTRIES);
    BytesConcat(front, items);
    BytesConcat(head + BEFORE_ROOT + JsonText(m.sourceRoot), BEFORE_ENTRIES);
    BytesConcat(head + BEFORE_ROOT, JsonText(m.sourceRoot));
    BytesConcat(head, BEFORE_ROOT);
    BytesConcat(BEFORE_ID + JsonText(m.projectId) + BEFORE_TIME, JsonText(m.createdAt));
    BytesConcat(BEFORE_ID + JsonText(m.projectId), BEFORE_TIME);
    BytesConcat(BEFORE_ID, JsonText(m.projectId));
  }
}

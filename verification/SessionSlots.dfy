/**
 Lock slots of a project: the rows live in one inventory an engine, the four
 slots belong to the whole project.
 */
module SessionSlots {
  import opened Wrappers
  import opened InventoryCodec

  datatype Inventory = Inventory(engine: string, entries: seq<Row>)

  /** A row with the engine in whose inventory it stands. */
  datatype Placed = Placed(home: string, row: Row)

  function Placement(inventory: Inventory): seq<Placed> {
    seq(|inventory.entries|, i requires 0 <= i < |inventory.entries| => Placed(inventory.engine, inventory.entries[i]))
  }

  /** The rows of all inventories, one after the other. */
  function Flatten(inventories: seq<Inventory>): seq<Placed> {
    if inventories == [] then []
    else Flatten(inventories[..|inventories| - 1]) + Placement(inventories[|inventories| - 1])
  }

  predicate Live(r: Row) { r.state in {Reserved, Running, Deleting} }

  // ----- The invariant -----

  /** All rows of a slug, in whatever engine, have one slot. */
  predicate OneSlotPerSlug(rows: seq<Placed>) {
    forall a, b :: a in rows && b in rows && a.row.slug == b.row.slug ==> a.row.lockSlot == b.row.lockSlot
  }

  /** Live rows on one slot belong to one slug. */
  predicate LiveApart(rows: seq<Placed>) {
    forall a, b :: a in rows && b in rows && Live(a.row) && Live(b.row) && a.row.lockSlot == b.row.lockSlot ==>
                     a.row.slug == b.row.slug
  }

  predicate Invariant(rows: seq<Placed>) { OneSlotPerSlug(rows) && LiveApart(rows) }

  predicate SlotsInRange(rows: seq<Placed>) { forall p :: p in rows ==> 0 <= p.row.lockSlot <= 3 }

  function SlotsOf(rows: seq<Placed>, slug: string): set<int> {
    set p | p in rows && p.row.slug == slug :: p.row.lockSlot
  }

  function LiveSlugsAt(rows: seq<Placed>, slot: int): set<string> {
    set p | p in rows && Live(p.row) && p.row.lockSlot == slot :: p.row.slug
  }

  function LiveSlots(rows: seq<Placed>): set<int> { set p | p in rows && Live(p.row) :: p.row.lockSlot }

  function LiveSlugs(rows: seq<Placed>): set<string> { set p | p in rows && Live(p.row) :: p.row.slug }

  function LiveRows(rows: seq<Placed>): seq<Placed> {
    if rows == [] then []
    else LiveRows(rows[..|rows| - 1]) + if Live(rows[|rows| - 1].row) then [rows[|rows| - 1]] else []
  }

  lemma InvariantShrinks(fewer: seq<Placed>, rows: seq<Placed>)
    requires Invariant(rows) && forall p :: p in fewer ==> p in rows
    ensures Invariant(fewer)
  {
  }

  // ----- Pigeonhole -----

  lemma OneOrTwo<T>(s: set<T>, x: T)
    requires x in s
    ensures |s| > 1 <==> exists y :: y in s && y != x
  {
    assert s == {x} + (s - {x});
    if |s| > 1 {
      assert |s - {x}| > 0;
      var y :| y in s - {x};
    }
  }

  lemma LiveStep(front: seq<Placed>, last: Placed)
    ensures LiveSlugs(front + [last]) == LiveSlugs(front) + if Live(last.row) then {last.row.slug} else {}
    ensures LiveSlots(front + [last]) == LiveSlots(front) + if Live(last.row) then {last.row.lockSlot} else {}
  {
    assert forall p :: p in front + [last] <==> p in front || p == last;
  }

  lemma LiveTogether(front: seq<Placed>, last: Placed)
    requires Invariant(front + [last]) && Live(last.row)
    ensures last.row.slug in LiveSlugs(front) <==> last.row.lockSlot in LiveSlots(front)
  {
    assert last in front + [last];
    forall p | p in front && Live(p.row) ensures p.row.slug == last.row.slug <==> p.row.lockSlot == last.row.lockSlot {
      assert p in front + [last];
    }
  }

  /** Under the invariant, slot and slug of the live rows determine each other. */
  lemma {:induction false} LiveCounts(rows: seq<Placed>)
    requires Invariant(rows)
    ensures |LiveSlugs(rows)| == |LiveSlots(rows)|
  {
    if rows == [] {
      assert LiveSlugs(rows) == {} && LiveSlots(rows) == {};
    } else {
      var front, last := rows[..|rows| - 1], rows[|rows| - 1];
      assert rows == front + [last];
      InvariantShrinks(front, rows);
      LiveCounts(front);
      LiveCountsStep(front, last);
    }
  }

  lemma LiveCountsStep(front: seq<Placed>, last: Placed)
    requires Invariant(front + [last]) && |LiveSlugs(front)| == |LiveSlots(front)|
    ensures |LiveSlugs(front + [last])| == |LiveSlots(front + [last])|
  {
    LiveStep(front, last);
    if Live(last.row) {
      LiveTogether(front, last);
      hide LiveSlugs, LiveSlots, Invariant;
      GrowTogether(LiveSlugs(front), last.row.slug, LiveSlots(front), last.row.lockSlot);
    }
  }

  lemma GrowTogether<A, B>(s: set<A>, x: A, t: set<B>, y: B)
    requires |s| == |t| && (x in s <==> y in t)
    ensures |s + {x}| == |t + {y}|
  {
    if x in s {
      assert s + {x} == s && t + {y} == t;
    } else {
      assert |s + {x}| == |s| + 1 && |t + {y}| == |t| + 1;
    }
  }

  const SLOTS := {0, 1, 2, 3}

  lemma SlotsFull(s: set<int>)
    requires s <= SLOTS
    ensures |s| <= 4 && (|s| == 4 <==> s == SLOTS)
  {
    assert |SLOTS| == 4;
    assert SLOTS == s + (SLOTS - s);
    assert |s| + |SLOTS - s| == 4;
    if |s| == 4 { assert |SLOTS - s| == 0; }
  }

  /** At most four slugs are live in a project; four are live exactly when no slot is free. */
  lemma AtMostFourLive(rows: seq<Placed>)
    requires Invariant(rows) && SlotsInRange(rows)
    ensures |LiveSlugs(rows)| <= 4 && (|LiveSlugs(rows)| == 4 <==> LiveSlots(rows) == SLOTS)
  {
    LiveCounts(rows);
    SlotsFull(LiveSlots(rows));
  }

  // ----- Choosing a slot -----

  datatype Resolution = Resolution(slot: int, retake: bool)

  datatype SlotError = SlugRequired | SlotInvalid | Capacity | BadCandidate | CandidateConflict

  function FirstOf(rows: seq<Placed>, slug: string): (r: Option<Placed>)
    ensures r.Some? ==> r.value in rows && r.value.row.slug == slug
    ensures r.None? ==> forall p :: p in rows ==> p.row.slug != slug
  {
    if rows == [] then None
    else if rows[0].row.slug == slug then Some(rows[0])
    else FirstOf(rows[1..], slug)
  }

  function FirstFree(taken: set<int>): (r: Option<int>)
    ensures r.None? <==> SLOTS <= taken
    ensures r.Some? ==> r.value in SLOTS - taken && forall v :: 0 <= v < r.value ==> v in taken
  {
    if 0 !in taken then Some(0)
    else if 1 !in taken then Some(1)
    else if 2 !in taken then Some(2)
    else if 3 !in taken then Some(3)
    else None
  }

  predicate ConflictingLive(rows: seq<Placed>, slug: string, slot: int) {
    exists p :: p in rows && Live(p.row) && p.row.slug != slug && p.row.lockSlot == slot
  }

  function Resolve(rows: seq<Placed>, slug: string, candidate: Option<int>): Result<Resolution, SlotError> {
    if slug == "" then Err(SlugRequired)
    else if !Invariant(rows) then Err(SlotInvalid)
    else
      var sameSlug := FirstOf(rows, slug);
      var slot := if sameSlug.Some? then Some(sameSlug.value.row.lockSlot) else FirstFree(LiveSlots(rows));
      if slot.None? then Err(Capacity)
      else if candidate.None? then Ok(Resolution(slot.value, false))
      else if candidate.value !in SLOTS then Err(BadCandidate)
      else if candidate.value != slot.value then Ok(Resolution(slot.value, true))
      else if sameSlug.Some? && ConflictingLive(rows, slug, slot.value) then Err(CandidateConflict)
      else Ok(Resolution(slot.value, false))
  }

  /** A new slug is refused for capacity exactly when four distinct slugs are live. */
  lemma CapacityExactly(rows: seq<Placed>, slug: string, candidate: Option<int>)
    requires Invariant(rows) && SlotsInRange(rows) && slug != ""
    ensures Resolve(rows, slug, candidate) == Err(Capacity) <==> SlotsOf(rows, slug) == {} && |LiveSlugs(rows)| == 4
  {
    AtMostFourLive(rows);
    if FirstOf(rows, slug).Some? { assert FirstOf(rows, slug).value.row.lockSlot in SlotsOf(rows, slug); }
  }

  /** The slug has no other slot, and no other live slug has this one. */
  predicate SlotFits(rows: seq<Placed>, slug: string, slot: int) {
    && (forall p :: p in rows && p.row.slug == slug ==> p.row.lockSlot == slot)
    && !ConflictingLive(rows, slug, slot)
  }

  predicate Confirmed(rows: seq<Placed>, slug: string, slot: int) {
    Resolve(rows, slug, Some(slot)) == Ok(Resolution(slot, false))
  }

  /** A candidate is confirmed exactly when it fits and, for a new slug, every lower slot is taken. */
  lemma ConfirmedExactly(rows: seq<Placed>, slug: string, slot: int)
    ensures Confirmed(rows, slug, slot) <==>
              && slug != "" && Invariant(rows) && slot in SLOTS && SlotFits(rows, slug, slot)
              && (SlotsOf(rows, slug) == {} ==> forall v :: 0 <= v < slot ==> v in LiveSlots(rows))
  {
    var first := FirstOf(rows, slug);
    if first.Some? {
      assert first.value.row.lockSlot in SlotsOf(rows, slug);
    } else {
      assert SlotsOf(rows, slug) == {};
      assert ConflictingLive(rows, slug, slot) <==> slot in LiveSlots(rows);
    }
  }

  /** The slots a slug may be told to use: its own, or the lowest one that nobody live has. */
  predicate Assigned(rows: seq<Placed>, slug: string, slot: int) {
    if SlotsOf(rows, slug) != {} then slot in SlotsOf(rows, slug)
    else slot in SLOTS && slot !in LiveSlots(rows) && forall v :: 0 <= v < slot ==> v in LiveSlots(rows)
  }

  /** Every answer of the resolver with a candidate, by its exact cause. */
  lemma ResolvesExactly(rows: seq<Placed>, slug: string, candidate: int)
    requires SlotsInRange(rows)
    ensures
      var r := Resolve(rows, slug, Some(candidate));
      && (r == Err(SlugRequired) <==> slug == "")
      && (r == Err(SlotInvalid) <==> slug != "" && !Invariant(rows))
      && (r == Err(Capacity) <==>
            slug != "" && Invariant(rows) && SlotsOf(rows, slug) == {} && |LiveSlugs(rows)| == 4)
      && (slug != "" && Invariant(rows) && r != Err(Capacity) ==>
            && (r == Err(BadCandidate) <==> candidate !in SLOTS)
            && (r.Ok? && r.value.retake <==> candidate in SLOTS && !Assigned(rows, slug, candidate))
            && (r.Ok? && r.value.retake ==> Assigned(rows, slug, r.value.slot))
            && (r == Err(CandidateConflict) <==>
                  candidate in SLOTS && candidate in SlotsOf(rows, slug) && ConflictingLive(rows, slug, candidate)))
  {
    var first := FirstOf(rows, slug);
    if slug != "" && Invariant(rows) { CapacityExactly(rows, slug, Some(candidate)); }
    if first.Some? {
      assert first.value.row.lockSlot in SlotsOf(rows, slug);
    } else {
      assert SlotsOf(rows, slug) == {};
    }
    hide LiveSlugs;
  }

  /** A slot that the first resolution gave is confirmed on the same rows unless another live slug holds it. */
  lemma SelectedIsConfirmed(rows: seq<Placed>, slug: string)
    requires SlotsInRange(rows) && Resolve(rows, slug, None).Ok?
    ensures
      var slot := Resolve(rows, slug, None).value.slot;
      && (Confirmed(rows, slug, slot) <==> !ConflictingLive(rows, slug, slot))
      && (!Confirmed(rows, slug, slot) ==> Resolve(rows, slug, Some(slot)) == Err(CandidateConflict))
      && forall c :: c in SLOTS && c != slot ==> Resolve(rows, slug, Some(c)) == Ok(Resolution(slot, true))
  {
    ConfirmedExactly(rows, slug, Resolve(rows, slug, None).value.slot);
  }

  // ----- What one changed row does to the invariant -----

  /** Rows that gain one live row keep the invariant exactly when its slot fits among them. */
  lemma LiveRowFits(rows: seq<Placed>, changed: seq<Placed>, row: Placed)
    requires Invariant(rows) && row in changed && Live(row.row)
    requires forall p :: p in changed ==> p in rows || p == row
    ensures Invariant(changed) <==> SlotFits(changed, row.row.slug, row.row.lockSlot)
  {
  }

  /** A row that fits among the old rows fits among the changed ones. */
  lemma FitsStill(rows: seq<Placed>, changed: seq<Placed>, row: Placed)
    requires forall p :: p in changed ==> p in rows || p == row
    requires SlotFits(rows, row.row.slug, row.row.lockSlot)
    ensures SlotFits(changed, row.row.slug, row.row.lockSlot)
  {
  }

  /** A row that goes idle, keeping its slot, keeps the invariant. */
  lemma IdleRowFits(rows: seq<Placed>, changed: seq<Placed>, row: Placed)
    requires Invariant(rows) && !Live(row.row)
    requires forall p :: p in rows && p.row.slug == row.row.slug ==> p.row.lockSlot == row.row.lockSlot
    requires forall p :: p in changed ==> p in rows || p == row
    ensures Invariant(changed)
  {
  }

  // ----- The projection -----

  datatype Reason = InconsistentSlots(slug: string) | SharedSlot(slot: int, slugs: set<string>)

  datatype Projection = Projection(
    rows: seq<Placed>,
    reasons: seq<Reason>,
    liveRows: seq<Placed>,
    liveSlots: set<int>,
    slugSlots: map<string, set<int>>)

  method RowsFromInventories(inventories: seq<Inventory>) returns (rows: seq<Placed>)
    ensures rows == Flatten(inventories)
  {
    rows := [];
    for i := 0 to |inventories|
      invariant rows == Flatten(inventories[..i])
    {
      assert inventories[..i + 1][..i] == inventories[..i];
      rows := rows + Placement(inventories[i]);
    }
    assert inventories[..|inventories|] == inventories;
  }

  /** m maps each slug of the rows to its slots; order lists the slugs once each. */
  ghost predicate GroupsSlugs(m: map<string, set<int>>, order: seq<string>, rows: seq<Placed>) {
    && (forall g :: g in m <==> g in order)
    && (forall g :: g in m ==> m[g] == SlotsOf(rows, g))
    && (forall p :: p in rows ==> p.row.slug in m)
  }

  method GroupBySlug(rows: seq<Placed>) returns (slugSlots: map<string, set<int>>, order: seq<string>)
    ensures GroupsSlugs(slugSlots, order, rows)
  {
    slugSlots, order := map[], [];
    for i := 0 to |rows|
      invariant GroupsSlugs(slugSlots, order, rows[..i])
    {
      var row := rows[i].row;
      assert forall p :: p in rows[..i + 1] <==> p in rows[..i] || p == rows[i];
      var slots := if row.slug in slugSlots then slugSlots[row.slug] else {};
      if row.slug !in slugSlots { order := order + [row.slug]; }
      slugSlots := slugSlots[row.slug := slots + {row.lockSlot}];
    }
    assert rows[..|rows|] == rows;
  }

  ghost predicate GroupsLive(m: map<int, set<string>>, order: seq<int>, rows: seq<Placed>) {
    && (forall g :: g in m <==> g in order)
    && (forall g :: g in m ==> m[g] == LiveSlugsAt(rows, g))
    && (forall p :: p in rows && Live(p.row) ==> p.row.lockSlot in m)
    && m.Keys == LiveSlots(rows)
  }

  method GroupLive(rows: seq<Placed>) returns (liveBySlot: map<int, set<string>>, order: seq<int>)
    ensures GroupsLive(liveBySlot, order, rows)
  {
    liveBySlot, order := map[], [];
    for i := 0 to |rows|
      invariant GroupsLive(liveBySlot, order, rows[..i])
    {
      var row := rows[i].row;
      assert forall p :: p in rows[..i + 1] <==> p in rows[..i] || p == rows[i];
      if Live(row) {
        var slugs := if row.lockSlot in liveBySlot then liveBySlot[row.lockSlot] else {};
        if row.lockSlot !in liveBySlot { order := order + [row.lockSlot]; }
        liveBySlot := liveBySlot[row.lockSlot := slugs + {row.slug}];
      }
    }
    assert rows[..|rows|] == rows;
  }

  /** More than one slot of a slug, or more than one live slug of a slot, is what breaks the invariant. */
  lemma GroupsDecide(rows: seq<Placed>)
    ensures OneSlotPerSlug(rows) <==> forall g :: |SlotsOf(rows, g)| <= 1
    ensures LiveApart(rows) <==> forall t :: |LiveSlugsAt(rows, t)| <= 1
  {
    forall a, b | a in rows && b in rows && a.row.slug == b.row.slug && |SlotsOf(rows, a.row.slug)| <= 1
      ensures a.row.lockSlot == b.row.lockSlot
    {
      OneOrTwo(SlotsOf(rows, a.row.slug), a.row.lockSlot);
      assert b.row.lockSlot in SlotsOf(rows, a.row.slug);
    }
    forall g | OneSlotPerSlug(rows) ensures |SlotsOf(rows, g)| <= 1 {
      if slot :| slot in SlotsOf(rows, g) { OneOrTwo(SlotsOf(rows, g), slot); }
    }
    forall a, b | a in rows && b in rows && Live(a.row) && Live(b.row) && a.row.lockSlot == b.row.lockSlot &&
                  |LiveSlugsAt(rows, a.row.lockSlot)| <= 1
      ensures a.row.slug == b.row.slug
    {
      OneOrTwo(LiveSlugsAt(rows, a.row.lockSlot), a.row.slug);
      assert b.row.slug in LiveSlugsAt(rows, a.row.lockSlot);
    }
    forall t | LiveApart(rows) ensures |LiveSlugsAt(rows, t)| <= 1 {
      if slug :| slug in LiveSlugsAt(rows, t) { OneOrTwo(LiveSlugsAt(rows, t), slug); }
    }
  }

  method InconsistentReasons(slugSlots: map<string, set<int>>, order: seq<string>, ghost rows: seq<Placed>)
    returns (reasons: seq<Reason>)
    requires GroupsSlugs(slugSlots, order, rows)
    ensures forall r :: r in reasons <==> r.InconsistentSlots? && |SlotsOf(rows, r.slug)| > 1
  {
    reasons := [];
    for i := 0 to |order|
      invariant forall r :: r in reasons <==>
                r.InconsistentSlots? && r.slug in order[..i] && |SlotsOf(rows, r.slug)| > 1
    {
      assert order[i] in slugSlots;
      if |slugSlots[order[i]]| > 1 { reasons := reasons + [InconsistentSlots(order[i])]; }
    }
    forall g | |SlotsOf(rows, g)| > 1 ensures g in order {
      var slot :| slot in SlotsOf(rows, g);
    }
  }

  method SharedReasons(liveBySlot: map<int, set<string>>, order: seq<int>, ghost rows: seq<Placed>)
    returns (reasons: seq<Reason>)
    requires GroupsLive(liveBySlot, order, rows)
    ensures forall r :: r in reasons <==> r.SharedSlot? && r.slugs == LiveSlugsAt(rows, r.slot) && |r.slugs| > 1
  {
    reasons := [];
    for i := 0 to |order|
      invariant forall r :: r in reasons <==>
                              && r.SharedSlot? && r.slot in order[..i]
                              && r.slugs == LiveSlugsAt(rows, r.slot) && |r.slugs| > 1
    {
      var slot := order[i];
      assert slot in order;
      if |liveBySlot[slot]| > 1 { reasons := reasons + [SharedSlot(slot, liveBySlot[slot])]; }
    }
    forall t | |LiveSlugsAt(rows, t)| > 1 ensures t in order {
      var slug :| slug in LiveSlugsAt(rows, t);
    }
  }

  method FilterLive(rows: seq<Placed>) returns (live: seq<Placed>)
    ensures live == LiveRows(rows)
  {
    live := [];
    for i := 0 to |rows|
      invariant live == LiveRows(rows[..i])
    {
      assert rows[..i + 1][..i] == rows[..i];
      if Live(rows[i].row) { live := live + [rows[i]]; }
    }
    assert rows[..|rows|] == rows;
  }

  /** The reasons name exactly the violations; none is named exactly when the invariant holds. */
  method ProjectCoderSessionSlots(inventories: seq<Inventory>) returns (p: Projection)
    ensures p.rows == Flatten(inventories) && p.liveRows == LiveRows(p.rows) && p.liveSlots == LiveSlots(p.rows)
    ensures forall g :: InconsistentSlots(g) in p.reasons <==> |SlotsOf(p.rows, g)| > 1
    ensures forall t, slugs :: SharedSlot(t, slugs) in p.reasons <==> slugs == LiveSlugsAt(p.rows, t) && |slugs| > 1
    ensures p.reasons == [] <==> Invariant(p.rows)
    ensures forall g :: g in p.slugSlots ==> p.slugSlots[g] == SlotsOf(p.rows, g)
    ensures forall r :: r in p.rows ==> r.row.slug in p.slugSlots
  {
    var rows := RowsFromInventories(inventories);
    var slugSlots, slugs := GroupBySlug(rows);
    var liveBySlot, slots := GroupLive(rows);
    var inconsistent := InconsistentReasons(slugSlots, slugs, rows);
    var shared := SharedReasons(liveBySlot, slots, rows);
    var live := FilterLive(rows);
    p := Projection(rows, inconsistent + shared, live, liveBySlot.Keys, slugSlots);
    hide SlotsOf, LiveSlugsAt, LiveSlots, Invariant, LiveRows, Flatten;
    ReasonsDecide(rows, inconsistent, shared);
  }

  /** The two lists of reasons together. */
  lemma ReasonsDecide(rows: seq<Placed>, inconsistent: seq<Reason>, shared: seq<Reason>)
    requires forall r :: r in inconsistent <==> r.InconsistentSlots? && |SlotsOf(rows, r.slug)| > 1
    requires forall r :: r in shared <==> r.SharedSlot? && r.slugs == LiveSlugsAt(rows, r.slot) && |r.slugs| > 1
    ensures forall g :: InconsistentSlots(g) in inconsistent + shared <==> |SlotsOf(rows, g)| > 1
    ensures forall t, slugs ::
              SharedSlot(t, slugs) in inconsistent + shared <==> slugs == LiveSlugsAt(rows, t) && |slugs| > 1
    ensures inconsistent + shared == [] <==> Invariant(rows)
  {
    GroupsDecide(rows);
    hide SlotsOf, LiveSlugsAt, OneSlotPerSlug, LiveApart;
    forall r ensures r in inconsistent + shared <==> r in inconsistent || r in shared {
    }
    if inconsistent != [] { assert inconsistent[0] in inconsistent; }
    if shared != [] { assert shared[0] in shared; }
    if !Invariant(rows) { ViolationIsNamed(rows, inconsistent + shared); }
  }

  lemma ViolationIsNamed(rows: seq<Placed>, reasons: seq<Reason>)
    requires !Invariant(rows)
    requires forall g :: |SlotsOf(rows, g)| > 1 ==> InconsistentSlots(g) in reasons
    requires forall t :: |LiveSlugsAt(rows, t)| > 1 ==> SharedSlot(t, LiveSlugsAt(rows, t)) in reasons
    ensures reasons != []
  {
    GroupsDecide(rows);
  }

  // ----- Resolving and cleaning over the projection -----

  lemma {:induction false} LiveRowsMeans(rows: seq<Placed>)
    ensures forall p :: p in LiveRows(rows) <==> p in rows && Live(p.row)
  {
    if rows != [] {
      var front, last := rows[..|rows| - 1], rows[|rows| - 1];
      LiveRowsMeans(front);
      assert forall p :: p in rows <==> p in front || p == last;
    }
  }

  method FindSlug(rows: seq<Placed>, slug: string) returns (found: Option<Placed>)
    ensures found == FirstOf(rows, slug)
  {
    found := None;
    for i := 0 to |rows|
      invariant found.None? && FirstOf(rows, slug) == FirstOf(rows[i..], slug)
    {
      assert rows[i..][1..] == rows[i + 1..];
      if rows[i].row.slug == slug { return Some(rows[i]); }
    }
  }

  method FindConflict(liveRows: seq<Placed>, slug: string, slot: int) returns (found: bool)
    ensures found <==> exists p :: p in liveRows && p.row.slug != slug && p.row.lockSlot == slot
  {
    found := false;
    for i := 0 to |liveRows|
      invariant !found && forall j :: 0 <= j < i ==> liveRows[j].row.slug == slug || liveRows[j].row.lockSlot != slot
    {
      if liveRows[i].row.slug != slug && liveRows[i].row.lockSlot == slot { return true; }
    }
  }

  method ResolveProjectCoderSessionSlot(inventories: seq<Inventory>, slug: string, candidate: Option<int>)
    returns (r: Result<Resolution, SlotError>)
    ensures r == Resolve(Flatten(inventories), slug, candidate)
  {
    if slug == "" { return Err(SlugRequired); }
    var projection := ProjectCoderSessionSlots(inventories);
    if projection.reasons != [] { return Err(SlotInvalid); }
    var sameSlug := FindSlug(projection.rows, slug);
    var slot := if sameSlug.Some? then Some(sameSlug.value.row.lockSlot) else FirstFree(projection.liveSlots);
    if slot.None? { return Err(Capacity); }
    if candidate.None? { return Ok(Resolution(slot.value, false)); }
    if candidate.value !in SLOTS { return Err(BadCandidate); }
    if candidate.value != slot.value { return Ok(Resolution(slot.value, true)); }
    LiveRowsMeans(projection.rows);
    if sameSlug.Some? {
      var conflict := FindConflict(projection.liveRows, slug, slot.value);
      if conflict { return Err(CandidateConflict); }
    }
    r := Ok(Resolution(slot.value, false));
  }

  datatype CleanupReason = Violated(reason: Reason) | Conflicts(target: Placed, live: Placed)

  ghost predicate CleanupConflict(rows: seq<Placed>, engine: string, slug: string, target: Placed, live: Placed) {
    && target in rows && target.home == engine && target.row.slug == slug
    && live in rows && Live(live.row) && live.row.slug != slug && live.row.lockSlot == target.row.lockSlot
  }

  method ConflictsOf(target: Placed, slug: string, liveRows: seq<Placed>) returns (reasons: seq<CleanupReason>)
    ensures forall r :: r in reasons <==>
                          && r.Conflicts? && r.target == target && r.live in liveRows
                          && r.live.row.slug != slug && r.live.row.lockSlot == target.row.lockSlot
  {
    reasons := [];
    for j := 0 to |liveRows|
      invariant forall r :: r in reasons <==>
                              && r.Conflicts? && r.target == target && r.live in liveRows[..j]
                              && r.live.row.slug != slug && r.live.row.lockSlot == target.row.lockSlot
    {
      var live := liveRows[j];
      if live.row.slug != slug && live.row.lockSlot == target.row.lockSlot {
        reasons := reasons + [Conflicts(target, live)];
      }
    }
    assert liveRows[..|liveRows|] == liveRows;
  }

  ghost predicate NamesConflicts(reasons: seq<CleanupReason>, rows: seq<Placed>, engine: string, slug: string, n: nat)
    requires n <= |rows|
  {
    forall r :: r in reasons <==>
        r.Conflicts? && r.target in rows[..n] && CleanupConflict(rows, engine, slug, r.target, r.live)
  }

  method CleanupConflicts(rows: seq<Placed>, liveRows: seq<Placed>, engine: string, slug: string)
    returns (reasons: seq<CleanupReason>)
    requires forall p :: p in liveRows <==> p in rows && Live(p.row)
    ensures NamesConflicts(reasons, rows, engine, slug, |rows|)
  {
    reasons := [];
    for i := 0 to |rows|
      invariant NamesConflicts(reasons, rows, engine, slug, i)
    {
      assert forall p :: p in rows[..i + 1] <==> p in rows[..i] || p == rows[i];
      assert rows[i] in rows;
      if rows[i].home == engine && rows[i].row.slug == slug {
        var more := ConflictsOf(rows[i], slug, liveRows);
        reasons := reasons + more;
      }
    }
  }

  /** Names every live row of another slug on the slot of the row to clean, besides the violations of the project. */
  method ValidateCleanupSlot(inventories: seq<Inventory>, engine: string, slug: string)
    returns (reasons: seq<CleanupReason>)
    ensures forall t, l :: Conflicts(t, l) in reasons <==> CleanupConflict(Flatten(inventories), engine, slug, t, l)
    ensures reasons == [] <==>
              && Invariant(Flatten(inventories))
              && forall t, l :: !CleanupConflict(Flatten(inventories), engine, slug, t, l)
  {
    var projection := ProjectCoderSessionSlots(inventories);
    var rows := projection.rows;
    LiveRowsMeans(rows);
    var violations := seq(|projection.reasons|,
        i requires 0 <= i < |projection.reasons| => Violated(projection.reasons[i]));
    var conflicts := CleanupConflicts(rows, projection.liveRows, engine, slug);
    reasons := violations + conflicts;
    if conflicts != [] { assert conflicts[0] in conflicts; }
  }
}

// The last-seen bank of one account: a folded, sorted index over raw slots, the
// generation and dirty flag a saver reads, and the open/close edge of the bank.
module BankMemory {
  import opened Options

  const MAX_COUNT := 0x7fff_ffff
  const MAX_HINT_ROWS := 1024
  const GENERATIONS := 0x1_0000_0000_0000_0000

  type i32 = x: int | -MAX_COUNT - 1 <= x <= MAX_COUNT
  type u64 = x: int | 0 <= x < GENERATIONS

  datatype Row = Row(id: i32, count: i32)

  datatype Origin = Unknown | Hint | Session

  datatype ObservedAt = ObservedAt(unixSecs: u64, tick: u64, bankSession: u64)

  datatype HintRowsError = TooManyRows | NonPositiveCount | Unsorted | DuplicateId

  datatype FrameEvent = Unchanged | Opened | Observed | Closed

  /** One frame: `generation` is the packet generation of the loaded bank. */
  datatype Snapshot = Snapshot(loaded: bool, generation: Option<u64>, bank: seq<Row>, tick: u64, session: u64)

  datatype Memory = Memory(
    rows: seq<Row>, observedAt: Option<ObservedAt>, origin: Origin,
    generation: u64, live: Option<u64>, dirty: bool)

  // ---------------------------------------------------------------------
  // Folding slots by id
  // ---------------------------------------------------------------------

  function Clamped(n: int): (r: i32)
    ensures r == n || (n > 0x7fff_ffff && r == 0x7fff_ffff) || (n < -0x8000_0000 && r == -0x8000_0000)
  {
    if n > MAX_COUNT then MAX_COUNT else if n < -MAX_COUNT - 1 then -MAX_COUNT - 1 else n
  }

  /** `saturating_add`. */
  function SaturatingAdd(a: i32, b: i32): i32 {
    Clamped(a + b)
  }

  function Total(slots: seq<Row>, id: i32): nat {
    if slots == [] then 0
    else (if slots[0].id == id && slots[0].count > 0 then slots[0].count else 0) + Total(slots[1..], id)
  }

  predicate Positive(rows: seq<Row>) {
    forall k :: 0 <= k < |rows| ==> rows[k].count > 0
  }

  predicate Increasing(rows: seq<Row>) {
    forall i, j :: 0 <= i < j < |rows| ==> rows[i].id < rows[j].id
  }

  predicate IncreasingTo(rows: seq<Row>, n: nat) {
    n <= |rows| && forall i, j :: 0 <= i < j < n ==> rows[i].id < rows[j].id
  }

  /** Row `k` is the first that does not go up, and it repeats the id before it. */
  predicate Repeats(rows: seq<Row>, k: nat) {
    0 < k < |rows| && IncreasingTo(rows, k) && rows[k - 1].id == rows[k].id
  }

  predicate ById(rows: seq<Row>) {
    forall i, j :: 0 <= i < j < |rows| ==> rows[i].id <= rows[j].id
  }

  /** A folded index: strictly increasing ids, positive counts. */
  predicate Index(rows: seq<Row>) {
    Increasing(rows) && Positive(rows)
  }

  /** The count an index holds for an id. */
  function Held(rows: seq<Row>, id: i32): i32 {
    if rows == [] then 0 else if rows[0].id == id then rows[0].count else Held(rows[1..], id)
  }

  function Positives(slots: seq<Row>): seq<Row> {
    if slots == [] then []
    else (if slots[0].count > 0 then [slots[0]] else []) + Positives(slots[1..])
  }

  /** `dedup_by` with a saturating sum, the kept rows so far on the left. */
  function Deduped(kept: seq<Row>, rest: seq<Row>): seq<Row>
    decreases |rest|
  {
    if rest == [] then kept else Deduped(Merged(kept, rest[0]), rest[1..])
  }

  function Merged(kept: seq<Row>, next: Row): seq<Row> {
    var n := |kept|;
    if kept != [] && kept[n - 1].id == next.id then
      kept[..n - 1] + [Row(next.id, SaturatingAdd(kept[n - 1].count, next.count))]
    else
      kept + [next]
  }

  lemma {:induction false} TotalAppend(a: seq<Row>, b: seq<Row>, id: i32)
    ensures Total(a + b, id) == Total(a, id) + Total(b, id)
  {
    if a == [] {
      assert a + b == b;
    } else {
      assert (a + b)[1..] == a[1..] + b;
      TotalAppend(a[1..], b, id);
    }
  }

  lemma {:induction false} TotalPositives(slots: seq<Row>, id: i32)
    ensures Total(Positives(slots), id) == Total(slots, id)
    ensures Positive(Positives(slots))
  {
    if slots != [] {
      TotalPositives(slots[1..], id);
      TotalAppend(if slots[0].count > 0 then [slots[0]] else [], Positives(slots[1..]), id);
    }
  }

  /** Totals do not depend on the order of the slots. */
  lemma {:induction false} TotalPermuted(a: seq<Row>, b: seq<Row>, id: i32)
    requires multiset(a) == multiset(b)
    ensures Total(a, id) == Total(b, id)
    decreases |a|
  {
    if a == [] {
      assert |multiset(a)| == |multiset(b)|;
    } else {
      assert a[0] in multiset(b);
      var i :| 0 <= i < |b| && b[i] == a[0];
      var rest := b[..i] + b[i + 1..];
      MultisetWithout(a, b, i);
      TotalPermuted(a[1..], rest, id);
      TotalAppend(b[..i], b[i + 1..], id);
      TotalAppend(b[..i], [b[i]] + b[i + 1..], id);
      assert b == b[..i] + ([b[i]] + b[i + 1..]);
      assert ([b[i]] + b[i + 1..])[1..] == b[i + 1..];
    }
  }

  lemma MultisetWithout(a: seq<Row>, b: seq<Row>, i: nat)
    requires a != [] && multiset(a) == multiset(b) && i < |b| && b[i] == a[0]
    ensures multiset(a[1..]) == multiset(b[..i] + b[i + 1..])
  {
    assert a == [a[0]] + a[1..];
    assert b == b[..i] + [b[i]] + b[i + 1..];
    assert multiset(a) == multiset(a[1..]) + multiset{a[0]};
    assert multiset(b) == multiset(b[..i] + b[i + 1..]) + multiset{a[0]};
    assert multiset(a[1..]) == multiset(a) - multiset{a[0]};
    assert multiset(b[..i] + b[i + 1..]) == multiset(b) - multiset{a[0]};
  }

  lemma {:induction false} HeldAppend(rows: seq<Row>, last: Row, id: i32)
    requires Increasing(rows + [last])
    ensures Held(rows + [last], id) == if id == last.id then last.count else Held(rows, id)
  {
    if rows != [] {
      assert (rows + [last])[0].id < (rows + [last])[|rows|].id;
      assert (rows + [last])[1..] == rows[1..] + [last];
      HeldAppend(rows[1..], last, id);
    }
  }

  lemma {:induction false} HeldBeyond(rows: seq<Row>, id: i32)
    requires forall k :: 0 <= k < |rows| ==> rows[k].id < id
    ensures Held(rows, id) == 0
  {
    if rows != [] { HeldBeyond(rows[1..], id); }
  }

  lemma {:induction false} TotalBeyond(rest: seq<Row>, id: i32)
    requires forall k :: 0 <= k < |rest| ==> rest[k].id > id
    ensures Total(rest, id) == 0
  {
    if rest != [] { TotalBeyond(rest[1..], id); }
  }

  lemma MergedIndex(kept: seq<Row>, next: Row)
    requires Index(kept) && next.count > 0 && (kept != [] ==> kept[|kept| - 1].id <= next.id)
    ensures Index(Merged(kept, next)) && Merged(kept, next)[|Merged(kept, next)| - 1].id == next.id
  {
  }

  lemma MergedHeld(kept: seq<Row>, next: Row, id: i32)
    requires Index(kept) && next.count > 0 && (kept != [] ==> kept[|kept| - 1].id <= next.id)
    ensures Held(Merged(kept, next), id) == Clamped(Held(kept, id) + if id == next.id then next.count else 0)
  {
    hide Held, Positive, Increasing;
    MergedIndex(kept, next);
    HeldNatural(kept, id);
    var n := |kept|;
    if kept != [] && kept[n - 1].id == next.id {
      var init, last := kept[..n - 1], Row(next.id, SaturatingAdd(kept[n - 1].count, next.count));
      assert kept == init + [kept[n - 1]] && Merged(kept, next) == init + [last];
      HeldAppend(init, kept[n - 1], id);
      HeldAppend(init, last, id);
    } else {
      assert Merged(kept, next) == kept + [next];
      HeldAppend(kept, next, id);
      LastIsLess(kept, next);
      HeldBeyond(kept, next.id);
    }
  }

  lemma LastIsLess(kept: seq<Row>, next: Row)
    requires Increasing(kept + [next])
    ensures forall k :: 0 <= k < |kept| ==> kept[k].id < next.id
  {
    var all := kept + [next];
    forall k | 0 <= k < |kept| ensures kept[k].id < next.id {
      assert all[k].id < all[|kept|].id;
    }
  }

  /** Folding sorted rows gives an index that holds every id's clamped total. */
  lemma {:induction false} DedupedHeld(kept: seq<Row>, rest: seq<Row>, id: i32)
    requires Index(kept) && Positive(rest) && ById(rest)
    requires kept != [] && rest != [] ==> kept[|kept| - 1].id <= rest[0].id
    ensures Index(Deduped(kept, rest))
    ensures Held(Deduped(kept, rest), id) == Clamped(Held(kept, id) + Total(rest, id))
    decreases |rest|
  {
    hide Merged, Held, Index;
    HeldNatural(kept, id);
    if rest != [] {
      MergedIndex(kept, rest[0]);
      MergedHeld(kept, rest[0], id);
      DedupedHeld(Merged(kept, rest[0]), rest[1..], id);
      HeldNatural(kept, id);
    }
  }

  lemma {:induction false} HeldNatural(rows: seq<Row>, id: i32)
    requires Index(rows)
    ensures Held(rows, id) >= 0
  {
    if rows != [] { HeldNatural(rows[1..], id); }
  }

  lemma Agree(a: seq<Row>, b: seq<Row>, id: i32)
    requires forall x: i32 :: Held(a, x) == Held(b, x)
    ensures Held(a, id) == Held(b, id)
  {
  }

  /** An index is determined by what it holds. */
  lemma {:induction false} SameHeldSameIndex(a: seq<Row>, b: seq<Row>)
    requires Index(a) && Index(b) && forall id: i32 :: Held(a, id) == Held(b, id)
    ensures a == b
  {
    var id := if a != [] then a[0].id else if b != [] then b[0].id else 0;
    Agree(a, b, id);
    if a != [] && b != [] {
      assert Held(a, a[0].id) == Held(b, a[0].id);
      assert Held(a, b[0].id) == Held(b, b[0].id);
      if a[0].id < b[0].id { HeldBelow(b, a[0].id); }
      if b[0].id < a[0].id { HeldBelow(a, b[0].id); }
      assert a[0] == b[0];
      forall id: i32 ensures Held(a[1..], id) == Held(b[1..], id) {
        assert Held(a, id) == Held(b, id);
        if id == a[0].id { HeldBelow(a[1..], id); HeldBelow(b[1..], id); }
      }
      SameHeldSameIndex(a[1..], b[1..]);
    }
  }

  lemma {:induction false} HeldBelow(rows: seq<Row>, id: i32)
    requires forall k :: 0 <= k < |rows| ==> id < rows[k].id
    ensures Held(rows, id) == 0
  {
    if rows != [] { HeldBelow(rows[1..], id); }
  }

  /** The index of a slot table: what it holds, whatever order a sort leaves equal ids in. */
  ghost predicate Folds(rows: seq<Row>, slots: seq<Row>) {
    Index(rows) && forall id: i32 :: Held(rows, id) == Clamped(Total(slots, id))
  }

  lemma SortedFolds(sorted: seq<Row>, slots: seq<Row>)
    requires multiset(sorted) == multiset(Positives(slots)) && ById(sorted) && Positive(sorted)
    ensures Folds(Deduped([], sorted), slots)
  {
    hide Total, Positives, Deduped, Held;
    DedupedHeld([], sorted, 0);
    forall id: i32 ensures Held(Deduped([], sorted), id) == Clamped(Total(slots, id)) {
      SortedHeld(sorted, slots, id);
    }
  }

  lemma SortedHeld(sorted: seq<Row>, slots: seq<Row>, id: i32)
    requires multiset(sorted) == multiset(Positives(slots)) && ById(sorted) && Positive(sorted)
    ensures Held(Deduped([], sorted), id) == Clamped(Total(slots, id))
  {
    hide Total, Positives, Deduped;
    DedupedHeld([], sorted, id);
    TotalPermuted(sorted, Positives(slots), id);
    TotalPositives(slots, id);
  }

  /** Two sorts of the same table fold to the same rows. */
  lemma FoldIgnoresTies(a: seq<Row>, b: seq<Row>, slots: seq<Row>)
    requires multiset(a) == multiset(Positives(slots)) && ById(a) && Positive(a)
    requires multiset(b) == multiset(Positives(slots)) && ById(b) && Positive(b)
    ensures Deduped([], a) == Deduped([], b)
  {
    hide Positives, Deduped, Index;
    SortedFolds(a, slots);
    SortedFolds(b, slots);
    SameHeldSameIndex(Deduped([], a), Deduped([], b));
  }

  // ---------------------------------------------------------------------
  // Hint rows
  // ---------------------------------------------------------------------

  predicate GoodHint(rows: seq<Row>) {
    |rows| <= MAX_HINT_ROWS && Index(rows)
  }

  /** `check_hint_rows`: accepts exactly a good hint, and names the first rule broken. */
  method CheckHintRows(rows: seq<Row>) returns (error: Option<HintRowsError>)
    ensures error.None? <==> GoodHint(rows)
    ensures error == Some(TooManyRows) <==> |rows| > MAX_HINT_ROWS
    ensures error == Some(NonPositiveCount) <==> |rows| <= MAX_HINT_ROWS && !Positive(rows)
    ensures error == Some(DuplicateId) <==>
      (|rows| <= MAX_HINT_ROWS && Positive(rows) && exists k :: Repeats(rows, k))
  {
    if |rows| > MAX_HINT_ROWS {
      return Some(TooManyRows);
    }
    for i := 0 to |rows|
      invariant forall k :: 0 <= k < i ==> rows[k].count > 0
    {
      if rows[i].count <= 0 {
        return Some(NonPositiveCount);
      }
    }
    var i := 0;
    while i + 1 < |rows|
      invariant rows != [] ==> IncreasingTo(rows, i + 1)
    {
      if rows[i].id == rows[i + 1].id {
        assert Repeats(rows, i + 1);
        return Some(DuplicateId);
      }
      if rows[i].id > rows[i + 1].id {
        FallsFirst(rows, i);
        return Some(Unsorted);
      }
      i := i + 1;
    }
    return None;
  }

  lemma FallsFirst(rows: seq<Row>, i: nat)
    requires IncreasingTo(rows, i + 1) && i + 1 < |rows| && rows[i].id > rows[i + 1].id
    ensures !exists k :: Repeats(rows, k)
  {
    forall k | 0 < k < |rows| && IncreasingTo(rows, k) ensures rows[k - 1].id != rows[k].id {
      assert k <= i + 1;
    }
  }

  // ---------------------------------------------------------------------
  // The memory as a value
  // ---------------------------------------------------------------------

  const FRESH := Memory([], None, Unknown, 0, None, false)

  predicate Known(m: Memory) {
    m.origin != Unknown
  }

  function Next(generation: u64): u64 {
    (generation + 1) % GENERATIONS
  }

  /** `m` is `before` after observing `slots` at `at`. */
  ghost predicate IsObserved(before: Memory, slots: seq<Row>, at: ObservedAt, m: Memory) {
    && Folds(m.rows, slots)
    && m == before.(rows := m.rows, origin := Session, observedAt := Some(at),
                    generation := Next(before.generation), dirty := true)
  }

  function Loaded(m: Memory, rows: seq<Row>, unixSecs: u64): Memory {
    Memory(rows, Some(ObservedAt(unixSecs, 0, 0)), Hint, Next(m.generation), None, false)
  }

  function Relogged(m: Memory): Memory {
    var closed := m.(live := None);
    if Known(m) then closed.(origin := Hint, generation := Next(m.generation)) else closed
  }

  function Saved(m: Memory, generation: u64): Memory {
    if m.generation == generation then m.(dirty := false) else m
  }

  /** A loaded bank always carries its packet generation. */
  predicate Wellformed(s: Snapshot) {
    s.loaded ==> s.generation.Some?
  }

  function EventOf(m: Memory, s: Snapshot): FrameEvent {
    if s.loaded then
      if m.live == s.generation then Unchanged else if m.live.None? then Opened else Observed
    else if m.live.Some? then Closed
    else Unchanged
  }

  /** `after` is `m` after one frame. */
  ghost predicate IsTracked(m: Memory, s: Snapshot, unixSecs: u64, after: Memory) {
    match EventOf(m, s)
    case Unchanged => after == m
    case Closed => after == m.(live := None)
    case _ =>
      IsObserved(m, s.bank, ObservedAt(unixSecs, s.tick, s.session), after.(live := m.live))
      && after.live == s.generation
  }

  class Bank {
    var rows: seq<Row>
    var observedAt: Option<ObservedAt>
    var origin: Origin
    var generation: u64
    var live: Option<u64>
    var dirty: bool

    ghost function State(): Memory
      reads this
    {
      Memory(rows, observedAt, origin, generation, live, dirty)
    }

    ghost predicate Valid()
      reads this
    {
      Index(rows)
    }

    constructor ()
      ensures Valid() && State() == FRESH
    {
      rows, observedAt, origin, generation, live, dirty := [], None, Unknown, 0, None, false;
    }

    /** The stock of an id: nothing while unknown, zero for an id the bank does not hold. */
    method Count(id: i32) returns (count: Option<i32>)
      requires Valid()
      ensures count == if origin == Unknown then None else Some(Held(rows, id))
    {
      if origin == Unknown {
        return None;
      }
      var found := BinarySearch(rows, id);
      match found {
        case Some(index) => HeldAt(rows, index); count := Some(rows[index].count);
        case None => HeldNowhere(rows, id); count := Some(0);
      }
    }

    method Observe(slots: seq<Row>, at: ObservedAt)
      requires Valid()
      modifies this
      ensures Valid() && IsObserved(old(State()), slots, at, State())
      ensures forall id: i32 :: Held(rows, id) == Clamped(Total(slots, id))
      ensures origin == Session && observedAt == Some(at) && dirty && live == old(live)
      ensures generation == (old(generation) + 1) % 0x1_0000_0000_0000_0000
    {
      rows := FoldSorted(Positives(slots), slots);
      origin := Session;
      observedAt := Some(at);
      generation := Next(generation);
      dirty := true;
    }

    method LoadHint(hint: seq<Row>, unixSecs: u64) returns (error: Option<HintRowsError>)
      requires Valid()
      modifies this
      ensures Valid()
      ensures error.None? <==> GoodHint(hint)
      ensures State() == if error.None? then Loaded(old(State()), hint, unixSecs) else old(State())
      ensures error.None? ==>
        && rows == hint && origin == Hint && observedAt == Some(ObservedAt(unixSecs, 0, 0)) && live == None && !dirty
        && generation == (old(generation) + 1) % 0x1_0000_0000_0000_0000
    {
      error := CheckHintRows(hint);
      if error.None? {
        rows, origin, observedAt := hint, Hint, Some(ObservedAt(unixSecs, 0, 0));
        generation := Next(generation);
        live, dirty := None, false;
      }
    }

    method Relog()
      requires Valid()
      modifies this
      ensures Valid() && State() == Relogged(old(State()))
      ensures live == None && rows == old(rows) && dirty == old(dirty) && observedAt == old(observedAt)
      ensures if old(origin) == Unknown then origin == Unknown && generation == old(generation)
              else origin == Hint && generation == (old(generation) + 1) % 0x1_0000_0000_0000_0000
    {
      live := None;
      if origin != Unknown {
        origin := Hint;
        generation := Next(generation);
      }
    }

    method MarkSaved(saved: u64)
      requires Valid()
      modifies this
      ensures Valid() && State() == Saved(old(State()), saved)
      ensures dirty == (old(dirty) && old(generation) != saved)
      ensures rows == old(rows) && observedAt == old(observedAt) && origin == old(origin)
      ensures generation == old(generation) && live == old(live)
    {
      if generation == saved {
        dirty := false;
      }
    }

    /** Whether tracking this frame would change anything at all. */
    method FrameDue(s: Snapshot) returns (due: bool)
      requires Valid() && Wellformed(s)
      ensures due <==> EventOf(State(), s) != Unchanged
      ensures due <==> if s.loaded then live != s.generation else live != None
      ensures forall secs: u64, after :: IsTracked(State(), s, secs, after) ==> (due <==> after != State())
    {
      due := if s.loaded then live != s.generation else live.Some?;
      NextDiffers(generation);
    }

    method Track(s: Snapshot, unixSecs: u64) returns (event: FrameEvent)
      requires Valid() && Wellformed(s)
      modifies this
      ensures Valid() && event == EventOf(old(State()), s) && IsTracked(old(State()), s, unixSecs, State())
      ensures event == Unchanged <==> if s.loaded then old(live) == s.generation else old(live) == None
      ensures event == Opened <==> s.loaded && old(live) == None
      ensures event == Closed <==> !s.loaded && old(live) != None
      ensures event == Unchanged ==> State() == old(State())
      ensures live == if s.loaded then s.generation else None
      ensures event == Opened || event == Observed ==>
        && (forall id: i32 :: Held(rows, id) == Clamped(Total(s.bank, id)))
        && origin == Session && observedAt == Some(ObservedAt(unixSecs, s.tick, s.session)) && dirty
        && generation == (old(generation) + 1) % 0x1_0000_0000_0000_0000
      ensures event == Closed ==> State() == old(State()).(live := None)
    {
      if s.loaded {
        if live == s.generation {
          return Unchanged;
        }
        Observe(s.bank, ObservedAt(unixSecs, s.tick, s.session));
        var first := live.None?;
        live := s.generation;
        return if first then Opened else Observed;
      } else if live.Some? {
        live := None;
        return Closed;
      }
      return Unchanged;
    }
  }

  lemma NextDiffers(generation: u64)
    ensures Next(generation) != generation
  {
  }

  /** Sort by id, then drop duplicates into the row before them. */
  method FoldSorted(positives: seq<Row>, ghost slots: seq<Row>) returns (rows: seq<Row>)
    requires positives == Positives(slots)
    ensures Folds(rows, slots)
  {
    TotalPositives(slots, 0);
    var sorted := SortUnstable(positives);
    rows := [];
    for i := 0 to |sorted|
      invariant Deduped(rows, sorted[i..]) == Deduped([], sorted)
    {
      var n := |rows|;
      assert sorted[i..][1..] == sorted[i + 1..];
      if rows != [] && rows[n - 1].id == sorted[i].id {
        rows := rows[..n - 1] + [Row(sorted[i].id, SaturatingAdd(rows[n - 1].count, sorted[i].count))];
      } else {
        rows := rows + [sorted[i]];
      }
    }
    SortedFolds(sorted, slots);
  }

  /** The library sort: some permutation in id order; callers rely on no more than that. */
  method SortUnstable(rows: seq<Row>) returns (sorted: seq<Row>)
    requires Positive(rows)
    ensures multiset(sorted) == multiset(rows) && ById(sorted) && Positive(sorted)
  {
    sorted := [];
    for i := 0 to |rows|
      invariant multiset(sorted) == multiset(rows[..i]) && ById(sorted) && Positive(sorted)
    {
      var k := InsertPlace(sorted, rows[i].id);
      InsertKeeps(sorted, k, rows[i]);
      assert rows[..i + 1] == rows[..i] + [rows[i]];
      sorted := Inserted(sorted, k, rows[i]);
    }
    assert rows[..|rows|] == rows;
  }

  lemma InsertKeeps(sorted: seq<Row>, k: nat, row: Row)
    requires ById(sorted) && Positive(sorted) && k <= |sorted| && row.count > 0
    requires forall m :: 0 <= m < k ==> sorted[m].id <= row.id
    requires forall m :: k <= m < |sorted| ==> row.id <= sorted[m].id
    ensures ById(Inserted(sorted, k, row)) && Positive(Inserted(sorted, k, row))
    ensures multiset(Inserted(sorted, k, row)) == multiset(sorted) + multiset{row}
  {
    var r := Inserted(sorted, k, row);
    assert sorted == sorted[..k] + sorted[k..];
    forall i, j | 0 <= i < j < |r| ensures r[i].id <= r[j].id {
      InsertedAt(sorted, k, row, i);
      InsertedAt(sorted, k, row, j);
    }
    forall i | 0 <= i < |r| ensures r[i].count > 0 {
      InsertedAt(sorted, k, row, i);
    }
  }

  function Inserted(sorted: seq<Row>, k: nat, row: Row): (r: seq<Row>)
    requires k <= |sorted|
    ensures |r| == |sorted| + 1
  {
    sorted[..k] + [row] + sorted[k..]
  }

  lemma InsertedAt(sorted: seq<Row>, k: nat, row: Row, m: nat)
    requires k <= |sorted| && m <= |sorted|
    ensures Inserted(sorted, k, row)[m] == if m < k then sorted[m] else if m == k then row else sorted[m - 1]
  {
  }

  method InsertPlace(sorted: seq<Row>, id: i32) returns (k: nat)
    requires ById(sorted)
    ensures k <= |sorted|
    ensures (forall m :: 0 <= m < k ==> sorted[m].id <= id) && (forall m :: k <= m < |sorted| ==> id <= sorted[m].id)
  {
    k := 0;
    while k < |sorted| && sorted[k].id <= id
      invariant k <= |sorted|
      invariant forall m :: 0 <= m < k ==> sorted[m].id <= id
    {
      k := k + 1;
    }
  }

  /** The library binary search on strictly increasing ids. */
  method BinarySearch(rows: seq<Row>, id: i32) returns (index: Option<nat>)
    requires Increasing(rows)
    ensures index.Some? ==> index.value < |rows| && rows[index.value].id == id
    ensures index.None? ==> forall k :: 0 <= k < |rows| ==> rows[k].id != id
  {
    var low, high := 0, |rows|;
    while low < high
      invariant 0 <= low <= high <= |rows|
      invariant forall k :: 0 <= k < low ==> rows[k].id < id
      invariant forall k :: high <= k < |rows| ==> id < rows[k].id
    {
      var mid := (low + high) / 2;
      if rows[mid].id == id {
        return Some(mid);
      } else if rows[mid].id < id {
        low := mid + 1;
      } else {
        high := mid;
      }
    }
    return None;
  }

  lemma {:induction false} HeldAt(rows: seq<Row>, k: nat)
    requires Increasing(rows) && k < |rows|
    ensures Held(rows, rows[k].id) == rows[k].count
  {
    if k > 0 {
      assert rows[0].id < rows[k].id;
      HeldAt(rows[1..], k - 1);
    }
  }

  lemma {:induction false} HeldNowhere(rows: seq<Row>, id: i32)
    requires forall k :: 0 <= k < |rows| ==> rows[k].id != id
    ensures Held(rows, id) == 0
  {
    if rows != [] { HeldNowhere(rows[1..], id); }
  }
}

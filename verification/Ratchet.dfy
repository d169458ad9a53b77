// The ratchet itself: counting suppressions per crate, lint and bucket, and
// failing when a count rises above its baseline.
module Ratchet {
  import opened Options
  import opened Orders

  datatype Bucket = NonTest | Test

  datatype Key = Key(crate: string, lint: string, bucket: Bucket)

  datatype Hit = Hit(key: Key, file: string, line: nat)

  type Table = map<string, map<string, map<Bucket, nat>>>

  datatype Failure =
    | NewLint(key: Key, current: nat)
    | Grown(key: Key, current: nat, allowed: nat)
    | At(file: string, line: nat)

  /** How often a key occurs. */
  function Count(hits: seq<Hit>, key: Key): nat {
    if hits == [] then 0
    else Count(hits[..|hits| - 1], key) + if hits[|hits| - 1].key == key then 1 else 0
  }

  /** `baseline.get(crate, {}).get(lint, {}).get(bucket, 0)`. */
  function Allowed(table: Table, key: Key): nat {
    if key.crate in table && key.lint in table[key.crate] && key.bucket in table[key.crate][key.lint]
    then table[key.crate][key.lint][key.bucket]
    else 0
  }

  ghost predicate Holds(hits: seq<Hit>, baseline: Table) {
    forall key :: Count(hits, key) <= Allowed(baseline, key)
  }

  method Summarize(hits: seq<Hit>) returns (counts: Table)
    ensures forall key :: Allowed(counts, key) == Count(hits, key)
    ensures Full(counts)
  {
    counts := map[];
    for i := 0 to |hits|
      invariant forall key :: Allowed(counts, key) == Count(hits[..i], key)
      invariant forall c, l :: c in counts && l in counts[c] ==> counts[c][l].Keys == {NonTest, Test}
    {
      var key := hits[i].key;
      assert hits[..i + 1][..i] == hits[..i];
      ghost var before := counts;
      var lints := if key.crate in counts then counts[key.crate] else map[];
      var buckets := if key.lint in lints then lints[key.lint] else map[NonTest := 0, Test := 0];
      assert key.bucket == NonTest || key.bucket == Test;
      counts := counts[key.crate := lints[key.lint := buckets[key.bucket := buckets[key.bucket] + 1]]];
      forall k ensures Allowed(counts, k) == Allowed(before, k) + if k == key then 1 else 0 {
        if k.crate == key.crate && k.lint == key.lint && k.bucket == key.bucket {
          assert k == key;
        }
      }
    }
    assert hits[..|hits|] == hits;
  }

  /** The failures of one key: a headline, then every place. */
  function KeyFailures(baseline: Table, key: Key, places: seq<Failure>): seq<Failure> {
    var allowed := Allowed(baseline, key);
    if |places| <= allowed then []
    else if allowed == 0 && (key.crate !in baseline || key.lint !in baseline[key.crate]) then
      [NewLint(key, |places|)] + places
    else
      [Grown(key, |places|, allowed)] + places
  }

  function Places(hits: seq<Hit>, key: Key): seq<Failure> {
    if hits == [] then []
    else
      var last := hits[|hits| - 1];
      Places(hits[..|hits| - 1], key) + if last.key == key then [At(last.file, last.line)] else []
  }

  lemma {:induction false} PlacesCount(hits: seq<Hit>, key: Key)
    ensures |Places(hits, key)| == Count(hits, key)
  {
    if hits != [] { PlacesCount(hits[..|hits| - 1], key); }
  }

  method GroupByKey(hits: seq<Hit>) returns (byKey: map<Key, seq<Failure>>)
    ensures forall key :: key in byKey <==> Count(hits, key) > 0
    ensures forall key :: key in byKey ==> byKey[key] == Places(hits, key)
  {
    byKey := map[];
    for i := 0 to |hits|
      invariant forall key :: key in byKey <==> Count(hits[..i], key) > 0
      invariant forall key :: key in byKey ==> byKey[key] == Places(hits[..i], key)
    {
      var hit := hits[i];
      assert hits[..i + 1][..i] == hits[..i];
      PlacesCount(hits[..i], hit.key);
      var places := if hit.key in byKey then byKey[hit.key] else [];
      byKey := byKey[hit.key := places + [At(hit.file, hit.line)]];
    }
    assert hits[..|hits|] == hits;
  }

  /** Keys compare as the tuples do, `non_test` before `test`. */
  predicate KeyLess(a: Key, b: Key) {
    if a.crate != b.crate then TextLess(a.crate, b.crate)
    else if a.lint != b.lint then TextLess(a.lint, b.lint)
    else a.bucket.NonTest? && b.bucket.Test?
  }

  lemma KeyLessTotal(a: Key, b: Key)
    ensures (a == b || KeyLess(a, b) || KeyLess(b, a)) && (KeyLess(a, b) ==> !KeyLess(b, a))
  {
    TextLessTotal(a.crate, b.crate);
    TextLessTotal(a.lint, b.lint);
  }

  lemma KeyLessTransitive(a: Key, b: Key, c: Key)
    requires KeyLess(a, b) && KeyLess(b, c)
    ensures KeyLess(a, c)
  {
    hide TextLess;
    TextLessTotal(a.crate, c.crate);
    TextLessTotal(a.crate, b.crate);
    TextLessTotal(a.lint, c.lint);
    TextLessTotal(a.lint, b.lint);
    if TextLess(a.crate, b.crate) && TextLess(b.crate, c.crate) { TextLessTransitive(a.crate, b.crate, c.crate); }
    if TextLess(a.lint, b.lint) && TextLess(b.lint, c.lint) { TextLessTransitive(a.lint, b.lint, c.lint); }
  }

  lemma KeysRank(keys: set<Key>)
    ensures Ranks(keys, KeyLess)
  {
    hide KeyLess;
    forall a, b ensures (a == b || KeyLess(a, b) || KeyLess(b, a)) && (KeyLess(a, b) ==> !KeyLess(b, a)) {
      KeyLessTotal(a, b);
    }
    forall a, b, c | KeyLess(a, b) && KeyLess(b, c) ensures KeyLess(a, c) {
      KeyLessTransitive(a, b, c);
    }
  }

  ghost function KeysOf(hits: seq<Hit>): set<Key> {
    set hit | hit in hits :: hit.key
  }

  lemma {:induction false} CountedKeys(hits: seq<Hit>, key: Key)
    ensures Count(hits, key) > 0 <==> key in KeysOf(hits)
  {
    if hits != [] {
      var init, last := hits[..|hits| - 1], hits[|hits| - 1];
      assert hits == init + [last];
      CountedKeys(init, key);
      assert KeysOf(hits) == KeysOf(init) + {last.key};
    }
  }

  /** What is said of the keys, in their order. */
  function Report(hits: seq<Hit>, baseline: Table, keys: seq<Key>): seq<Failure> {
    if keys == [] then []
    else
      var last := keys[|keys| - 1];
      Report(hits, baseline, keys[..|keys| - 1]) + KeyFailures(baseline, last, Places(hits, last))
  }

  lemma {:induction false} ReportEmpty(hits: seq<Hit>, baseline: Table, keys: seq<Key>)
    ensures Report(hits, baseline, keys) == []
       <==> forall key :: key in keys ==> Count(hits, key) <= Allowed(baseline, key)
  {
    hide Count, Allowed, Places;
    if keys != [] {
      var init, last := keys[..|keys| - 1], keys[|keys| - 1];
      assert keys == init + [last];
      ReportEmpty(hits, baseline, init);
      PlacesCount(hits, last);
    }
  }

  lemma {:induction false} InReport(hits: seq<Hit>, baseline: Table, keys: seq<Key>, e: Failure)
    ensures e in Report(hits, baseline, keys)
       <==> exists key :: key in keys && e in KeyFailures(baseline, key, Places(hits, key))
  {
    hide Places, KeyFailures;
    if keys != [] {
      var init, last := keys[..|keys| - 1], keys[|keys| - 1];
      assert keys == init + [last];
      InReport(hits, baseline, init, e);
      assert forall key :: key in keys <==> key in init || key == last;
      if e in KeyFailures(baseline, last, Places(hits, last)) { assert last in keys; }
    }
  }

  lemma {:induction false} InPlaces(hits: seq<Hit>, key: Key, e: Failure)
    ensures e in Places(hits, key) <==> exists h :: h in hits && h.key == key && e == At(h.file, h.line)
  {
    if hits != [] {
      var init, last := hits[..|hits| - 1], hits[|hits| - 1];
      assert hits == init + [last];
      InPlaces(init, key, e);
    }
  }

  lemma InKeyFailures(hits: seq<Hit>, baseline: Table, key: Key, e: Failure)
    ensures e in KeyFailures(baseline, key, Places(hits, key)) <==>
      && Count(hits, key) > Allowed(baseline, key)
      && match e
         case At(file, line) => exists h :: h in hits && h.key == key && h.file == file && h.line == line
         case NewLint(k, n) => k == key && n == Count(hits, key) && !Listed(baseline, key)
         case Grown(k, n, a) =>
           k == key && n == Count(hits, key) && a == Allowed(baseline, key) && Listed(baseline, key)
  {
    PlacesCount(hits, key);
    InPlaces(hits, key, e);
    hide Places, Count;
  }

  /** The baseline has an entry for the lint of the crate, in whatever bucket. */
  predicate Listed(baseline: Table, key: Key) {
    key.crate in baseline && key.lint in baseline[key.crate]
  }

  /** What a report names: every place of every key above its baseline, and for each
      such key one headline, which tells a new lint from one that grew. */
  lemma ReportSays(hits: seq<Hit>, baseline: Table, keys: seq<Key>, e: Failure)
    requires forall key :: key in keys <==> key in KeysOf(hits)
    ensures e in Report(hits, baseline, keys) <==>
      match e
      case At(file, line) =>
        exists h :: h in hits && h.file == file && h.line == line && Count(hits, h.key) > Allowed(baseline, h.key)
      case NewLint(key, n) => n == Count(hits, key) > Allowed(baseline, key) && !Listed(baseline, key)
      case Grown(key, n, a) => n == Count(hits, key) > Allowed(baseline, key) == a && Listed(baseline, key)
  {
    InReport(hits, baseline, keys, e);
    forall key { InKeyFailures(hits, baseline, key, e); }
    forall key { CountedKeys(hits, key); }
    hide Report, KeyFailures, Places, Count, Allowed, Listed;
    forall h | h in hits ensures h.key in KeysOf(hits) {
    }
  }

  /** `check`: the keys above their baseline, in order, each with all its places;
      nothing exactly when no count is above its baseline. */
  method Check(hits: seq<Hit>, baseline: Table) returns (failures: seq<Failure>)
    ensures failures == [] <==> Holds(hits, baseline)
    ensures forall keys :: Lists(keys, KeysOf(hits), KeyLess) ==> failures == Report(hits, baseline, keys)
  {
    var byKey := GroupByKey(hits);
    forall key { CountedKeys(hits, key); }
    assert byKey.Keys == KeysOf(hits);
    KeysRank(byKey.Keys);
    var sorted := Sorted(byKey.Keys, KeyLess);
    hide Count, Places, KeyFailures, KeyLess, Ranks, Allowed;
    failures := [];
    for i := 0 to |sorted|
      invariant failures == Report(hits, baseline, sorted[..i])
    {
      assert sorted[..i + 1][..i] == sorted[..i];
      assert sorted[i] in sorted;
      failures := failures + KeyFailures(baseline, sorted[i], byKey[sorted[i]]);
    }
    assert sorted[..|sorted|] == sorted;
    ReportEmpty(hits, baseline, sorted);
    forall keys | Lists(keys, KeysOf(hits), KeyLess) ensures keys == sorted {
      ListsOnce(keys, sorted, KeysOf(hits), KeyLess);
    }
  }

  /** `cmd_check`, as far as its exit code. */
  method CheckCommand(hits: seq<Hit>, baseline: Table, problems: seq<string>) returns (passes: bool)
    ensures passes <==> problems == [] && Holds(hits, baseline)
  {
    var failures := Check(hits, baseline);
    passes := failures == [] && problems == [];
  }

  // ---------------------------------------------------------------------
  // The ratchet only turns one way
  // ---------------------------------------------------------------------

  lemma CountWithout(hits: seq<Hit>, i: nat, key: Key)
    requires i < |hits|
    ensures Count(hits, key) == Count(hits[..i] + hits[i + 1..], key) + if hits[i].key == key then 1 else 0
  {
    var before, last, after := hits[..i], [hits[i]], hits[i + 1..];
    assert hits == before + (last + after);
    CountConcat(before, last + after, key);
    CountConcat(last, after, key);
    CountConcat(before, after, key);
    assert last[..0] == [];
    assert Count(last, key) == if hits[i].key == key then 1 else 0;
  }

  lemma {:induction false} CountMultiset(hits: seq<Hit>, more: seq<Hit>, key: Key)
    requires multiset(hits) <= multiset(more)
    ensures Count(hits, key) <= Count(more, key)
    decreases |hits|
  {
    hide Count;
    if hits == [] {
      CountNothing(key);
    } else {
      var init, last := hits[..|hits| - 1], hits[|hits| - 1];
      var i := InnerPlace(hits, more);
      CountWithout(hits, |hits| - 1, key);
      assert init + hits[|hits|..] == init;
      CountWithout(more, i, key);
      CountMultiset(init, more[..i] + more[i + 1..], key);
    }
  }

  lemma CountNothing(key: Key)
    ensures Count([], key) == 0
  {
  }

  lemma InnerPlace(hits: seq<Hit>, more: seq<Hit>) returns (i: nat)
    requires hits != [] && multiset(hits) <= multiset(more)
    ensures i < |more| && more[i] == hits[|hits| - 1]
    ensures multiset(hits[..|hits| - 1]) <= multiset(more[..i] + more[i + 1..])
  {
    var init, last := hits[..|hits| - 1], hits[|hits| - 1];
    assert last in hits;
    assert last in multiset(more);
    i :| 0 <= i < |more| && more[i] == last;
    var rest := more[..i] + more[i + 1..];
    assert multiset(hits) == multiset(init) + multiset{last} by { assert hits == init + [last]; }
    assert multiset(more) == multiset(rest) + multiset{last} by {
      assert more == more[..i] + [last] + more[i + 1..];
    }
    Cancel(multiset(init), multiset(rest), last);
  }

  lemma Cancel(a: multiset<Hit>, b: multiset<Hit>, x: Hit)
    requires a + multiset{x} <= b + multiset{x}
    ensures a <= b
  {
    forall h ensures a[h] <= b[h] {
      assert (a + multiset{x})[h] <= (b + multiset{x})[h];
    }
  }

  lemma {:induction false} CountConcat(a: seq<Hit>, b: seq<Hit>, key: Key)
    ensures Count(a + b, key) == Count(a, key) + Count(b, key)
    decreases |b|
  {
    if b == [] {
      assert a + b == a;
    } else {
      assert (a + b)[..|a + b| - 1] == a + b[..|b| - 1];
      CountConcat(a, b[..|b| - 1], key);
    }
  }

  /** Removing suppressions never breaks a check that passes. */
  lemma RemovingIsFree(fewer: seq<Hit>, hits: seq<Hit>, baseline: Table)
    requires multiset(fewer) <= multiset(hits) && Holds(hits, baseline)
    ensures Holds(fewer, baseline)
  {
    forall key ensures Count(fewer, key) <= Allowed(baseline, key) {
      CountMultiset(fewer, hits, key);
    }
  }

  // ---------------------------------------------------------------------
  // Writing the baseline
  // ---------------------------------------------------------------------

  predicate Any(buckets: map<Bucket, nat>) {
    exists b :: b in buckets && buckets[b] > 0
  }

  /** What is written: lints with an occurrence, of crates with such a lint. */
  function Pruned(counts: Table): Table {
    map c | c in counts && (exists l :: l in counts[c] && Any(counts[c][l])) ::
      map l | l in counts[c] && Any(counts[c][l]) :: counts[c][l]
  }

  /** Every lint has both buckets. */
  ghost predicate Full(table: Table) {
    forall c, l :: c in table && l in table[c] ==> table[c][l].Keys == {NonTest, Test}
  }

  /** Every lint in full, and no entry that says nothing. */
  ghost predicate Lean(table: Table) {
    && Full(table)
    && (forall c, l :: c in table && l in table[c] ==> Any(table[c][l]))
    && (forall c :: c in table ==> table[c] != map[])
  }

  /** The baseline of the hits. */
  ghost predicate Fresh(hits: seq<Hit>, table: Table) {
    Lean(table) && forall key :: Allowed(table, key) == Count(hits, key)
  }

  /** Pruning loses no count. */
  lemma PrunedAllows(counts: Table, key: Key)
    ensures Allowed(Pruned(counts), key) == Allowed(counts, key)
  {
  }

  /** And leaves no entry that says nothing. */
  lemma PrunedLean(counts: Table)
    requires Full(counts)
    ensures Lean(Pruned(counts))
  {
    var pruned := Pruned(counts);
    hide Any;
    forall c | c in pruned ensures pruned[c] != map[] {
      var l :| l in counts[c] && Any(counts[c][l]);
      assert l in pruned[c];
    }
  }

  /** `cmd_update`: nothing is written while there are problems. */
  method Update(hits: seq<Hit>, problems: seq<string>) returns (written: Option<Table>)
    ensures written.None? <==> problems != []
    ensures written.Some? ==> Fresh(hits, written.value)
  {
    hide Allowed, Count, Full, Lean, Pruned;
    var counts := Summarize(hits);
    if problems != [] { return None; }
    forall key { PrunedAllows(counts, key); }
    PrunedLean(counts);
    return Some(Pruned(counts));
  }

  lemma LeanPair(table: Table, c: string, l: string) returns (u: Bucket)
    requires Lean(table) && c in table && l in table[c]
    ensures Allowed(table, Key(c, l, u)) > 0
  {
    assert Any(table[c][l]);
    u :| u in table[c][l] && table[c][l][u] > 0;
  }

  lemma PairFound(table: Table, key: Key)
    requires Lean(table) && Allowed(table, key) > 0
    ensures key.crate in table && key.lint in table[key.crate]
  {
  }

  lemma SamePair(a: Table, b: Table, c: string, l: string)
    requires Lean(a) && Lean(b)
    requires forall key :: Allowed(a, key) == Allowed(b, key)
    requires c in a && l in a[c]
    ensures c in b && l in b[c]
  {
    hide Allowed, Lean;
    var u := LeanPair(a, c, l);
    PairFound(b, Key(c, l, u));
  }

  lemma SameBuckets(a: Table, b: Table, c: string, l: string)
    requires Full(a) && Full(b)
    requires c in a && l in a[c] && c in b && l in b[c]
    requires forall key :: Allowed(a, key) == Allowed(b, key)
    ensures a[c][l] == b[c][l]
  {
    forall u | u in a[c][l] ensures a[c][l][u] == b[c][l][u] {
      assert Allowed(a, Key(c, l, u)) == Allowed(b, Key(c, l, u));
    }
  }

  lemma SameLints(a: Table, b: Table, c: string)
    requires Lean(a) && Lean(b)
    requires forall key :: Allowed(a, key) == Allowed(b, key)
    requires c in a
    ensures c in b && a[c] == b[c]
  {
    hide Allowed, Any, Full;
    var some :| some in a[c];
    SamePair(a, b, c, some);
    forall l | l in a[c] ensures l in b[c] && a[c][l] == b[c][l] {
      SamePair(a, b, c, l);
      SameBuckets(a, b, c, l);
    }
    forall l | l in b[c] ensures l in a[c] { SamePair(b, a, c, l); }
  }

  /** Whatever order the sources are read in, the same baseline is written. */
  lemma FreshOnce(hits: seq<Hit>, again: seq<Hit>, a: Table, b: Table)
    requires multiset(hits) == multiset(again) && Fresh(hits, a) && Fresh(again, b)
    ensures a == b
  {
    hide Lean, Allowed, Count;
    forall key ensures Allowed(a, key) == Allowed(b, key) {
      CountMultiset(hits, again, key);
      CountMultiset(again, hits, key);
    }
    forall c | c in a ensures c in b && a[c] == b[c] { SameLints(a, b, c); }
    forall c | c in b ensures c in a { SameLints(b, a, c); }
  }

  /** A fresh baseline passes its own sources, and no source with one suppression more. */
  lemma FreshBaselineIsTight(hits: seq<Hit>, baseline: Table, extra: Hit)
    requires Fresh(hits, baseline)
    ensures Holds(hits, baseline) && !Holds(hits + [extra], baseline)
  {
    CountConcat(hits, [extra], extra.key);
    assert [extra][..0] == [];
    assert Count([extra], extra.key) == 1;
  }
}

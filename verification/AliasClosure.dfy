// Public type aliases of denied types: a round over all candidates marks every
// alias whose declared type mentions a marked type, until a round marks nothing.
// The marked set is the least fixpoint, whatever the order; the targets noted
// with an alias are not, and it is shown exactly when they are.
module AliasClosure {
  import opened Options
  import opened Orders

  /** An item of a crate. */
  datatype Id = Id(crate: string, item: string)

  /** A public alias: its path, its item, and the items its declared type mentions. */
  datatype Alias = Alias(path: string, key: Id, mentions: Option<set<Id>>)

  function Mentioned(a: Alias): set<Id> {
    if a.mentions.Some? then a.mentions.value else {}
  }

  predicate Touches(a: Alias, denied: set<Id>) {
    Mentioned(a) * denied != {}
  }

  /** `seed_item_ids["type"]`, `recorded_paths`, and the targets kept in `external_aliases`. */
  datatype State = State(denied: set<Id>, recorded: set<string>, targets: map<string, set<Id>>)

  // ---------------------------------------------------------------------
  // The loops as functions
  // ---------------------------------------------------------------------

  /** One candidate: marked and recorded when it mentions a marked item. Only its
      first recording notes the targets, and none are noted for a path that is a seed. */
  function Visit(st: State, a: Alias, isSeed: string -> bool): State {
    if !Touches(a, st.denied) then st
    else
      State(st.denied + {a.key}, st.recorded + {a.path},
            if a.path in st.recorded || isSeed(a.path) then st.targets
            else st.targets[a.path := Mentioned(a) * st.denied])
  }

  function RoundOf(candidates: seq<Alias>, st: State, isSeed: string -> bool): State {
    if candidates == [] then st
    else
      var n := |candidates| - 1;
      Visit(RoundOf(candidates[..n], st, isSeed), candidates[n], isSeed)
  }

  function Keys(candidates: seq<Alias>): (r: set<Id>)
    ensures |r| <= |candidates|
    ensures forall a :: a in candidates ==> a.key in r
  {
    if candidates == [] then {}
    else
      assert forall a :: a in candidates ==> a == candidates[0] || a in candidates[1..];
      Keys(candidates[1..]) + {candidates[0].key}
  }

  lemma {:induction false} RoundGrows(candidates: seq<Alias>, st: State, isSeed: string -> bool)
    ensures var r := RoundOf(candidates, st, isSeed);
      st.denied <= r.denied && r.denied - st.denied <= Keys(candidates)
  {
    if candidates != [] {
      var n := |candidates| - 1;
      RoundGrows(candidates[..n], st, isSeed);
      KeysPrefix(candidates, n);
    }
  }

  lemma {:induction false} KeysPrefix(candidates: seq<Alias>, n: nat)
    requires n <= |candidates|
    ensures Keys(candidates[..n]) <= Keys(candidates)
  {
    if n > 0 {
      assert candidates[..n][1..] == candidates[1..][..n - 1];
      KeysPrefix(candidates[1..], n - 1);
    }
  }

  /** Rounds until one marks nothing. */
  function Final(candidates: seq<Alias>, st: State, isSeed: string -> bool): State
    decreases Keys(candidates) - st.denied
  {
    var r := RoundOf(candidates, st, isSeed);
    RoundGrows(candidates, st, isSeed);
    if r.denied == st.denied then r
    else
      assert Keys(candidates) - r.denied < Keys(candidates) - st.denied by { NewKey(candidates, st.denied, r.denied); }
      Final(candidates, r, isSeed)
  }

  lemma NewKey(candidates: seq<Alias>, s: set<Id>, t: set<Id>)
    requires s <= t && t - s <= Keys(candidates) && s != t
    ensures Keys(candidates) - t < Keys(candidates) - s
  {
    var x :| x in t && x !in s;
    assert x in t - s;
    assert x in Keys(candidates) - s && x !in Keys(candidates) - t;
  }

  class Collector {
    const isSeed: string -> bool
    var denied: set<Id>
    var recorded: set<string>
    var targets: map<string, set<Id>>

    ghost function Now(): State
      reads this
    {
      State(denied, recorded, targets)
    }

    constructor (seeds: set<Id>, isSeed: string -> bool)
      ensures Now() == State(seeds, {}, map[]) && this.isSeed == isSeed
    {
      this.isSeed := isSeed;
      denied, recorded, targets := seeds, {}, map[];
    }

    /** One round over the candidates; true when it marked a new item. */
    method Round(candidates: seq<Alias>) returns (discovered: bool)
      modifies this
      ensures Now() == RoundOf(candidates, old(Now()), isSeed)
      ensures discovered <==> denied != old(denied)
    {
      discovered := false;
      for i := 0 to |candidates|
        invariant Now() == RoundOf(candidates[..i], old(Now()), isSeed)
        invariant old(denied) <= denied && (discovered <==> denied != old(denied))
      {
        var a := candidates[i];
        assert candidates[..i + 1][..i] == candidates[..i];
        var hit := Mentioned(a) * denied;
        if hit != {} {
          if a.key !in denied {
            denied := denied + {a.key};
            discovered := true;
          }
          if a.path !in recorded {
            if !isSeed(a.path) {
              targets := targets[a.path := hit];
            }
            recorded := recorded + {a.path};
          }
        }
      }
      assert candidates[..|candidates|] == candidates;
    }

    /** The `while` loop of `collect_public_type_aliases`. */
    method Collect(candidates: seq<Alias>) returns (ghost rounds: nat)
      modifies this
      ensures Now() == Final(candidates, old(Now()), isSeed)
      ensures rounds <= |candidates| + 1
    {
      ghost var seeds := denied;
      rounds := 0;
      var discovered := true;
      while discovered
        invariant seeds <= denied && denied - seeds <= Keys(candidates)
        invariant if discovered then Final(candidates, Now(), isSeed) == Final(candidates, old(Now()), isSeed)
                  else Now() == Final(candidates, old(Now()), isSeed)
        invariant rounds <= |denied - seeds| + if discovered then 0 else 1
        decreases Keys(candidates) - denied, discovered
      {
        ghost var before := denied;
        RoundGrows(candidates, Now(), isSeed);
        discovered := Round(candidates);
        rounds := rounds + 1;
        if discovered {
          Grows(seeds, before, denied);
          NewKey(candidates, before, denied);
        }
      }
      Fits(denied - seeds, Keys(candidates));
    }
  }

  lemma Grows(seeds: set<Id>, s: set<Id>, t: set<Id>)
    requires seeds <= s < t
    ensures |t - seeds| > |s - seeds|
  {
    var x :| x in t && x !in s;
    Fits((s - seeds) + {x}, t - seeds);
  }

  lemma {:induction false} Fits(s: set<Id>, t: set<Id>)
    requires s <= t
    ensures |s| <= |t|
    decreases |s|
  {
    if s != {} {
      var x :| x in s;
      Fits(s - {x}, t - {x});
    }
  }

  // ---------------------------------------------------------------------
  // The marked items are the least fixpoint
  // ---------------------------------------------------------------------

  /** The set holds the seeds and every alias that mentions one of its members. */
  ghost predicate Closed(candidates: seq<Alias>, seeds: set<Id>, s: set<Id>) {
    seeds <= s && forall a :: a in candidates && Touches(a, s) ==> a.key in s
  }

  /** Every closed set holds these items. */
  ghost predicate Forced(candidates: seq<Alias>, seeds: set<Id>, s: set<Id>) {
    forall t :: Closed(candidates, seeds, t) ==> s <= t
  }

  ghost predicate Least(candidates: seq<Alias>, seeds: set<Id>, s: set<Id>) {
    Closed(candidates, seeds, s) && Forced(candidates, seeds, s)
  }

  function Without(candidates: seq<Alias>, a: Alias): (r: seq<Alias>)
    ensures forall x :: x in r <==> x in candidates && x != a
  {
    if candidates == [] then []
    else (if candidates[0] == a then [] else [candidates[0]]) + Without(candidates[1..], a)
  }

  lemma TouchesMore(s: set<Id>, t: set<Id>)
    requires s <= t
    ensures forall a :: Touches(a, s) ==> Touches(a, t)
  {
    forall a | Touches(a, s) ensures Touches(a, t) {
      var x :| x in Mentioned(a) * s;
      assert x in Mentioned(a) * t;
    }
  }

  lemma ForcedNext(candidates: seq<Alias>, seeds: set<Id>, s: set<Id>, a: Alias)
    requires a in candidates && Touches(a, s) && Forced(candidates, seeds, s)
    ensures Forced(candidates, seeds, s + {a.key})
  {
    forall t | Closed(candidates, seeds, t) ensures a.key in t {
      TouchesMore(s, t);
    }
  }

  /** A moment at which an alias may be recorded first: it mentions a marked item,
      and nothing is marked but what the seeds force without it. */
  ghost predicate Moment(candidates: seq<Alias>, seeds: set<Id>, a: Alias, d: set<Id>) {
    a in candidates && Touches(a, d) && seeds <= d && Forced(Without(candidates, a), seeds, d)
  }

  /** The noted targets are what some alias of the path mentioned at such a moment. */
  ghost predicate Noted(candidates: seq<Alias>, seeds: set<Id>, path: string, targets: set<Id>) {
    exists a, d :: Moment(candidates, seeds, a, d) && a.path == path && targets == Mentioned(a) * d
  }

  ghost predicate RecordedBy(candidates: seq<Alias>, path: string, denied: set<Id>) {
    exists a :: a in candidates && a.path == path && Touches(a, denied)
  }

  ghost predicate MarksOk(candidates: seq<Alias>, seeds: set<Id>, st: State) {
    && seeds <= st.denied && Forced(candidates, seeds, st.denied)
    && (forall p :: p in st.recorded ==> RecordedBy(candidates, p, st.denied))
    && (forall a :: a in candidates && a.path !in st.recorded ==> Forced(Without(candidates, a), seeds, st.denied))
  }

  ghost predicate TargetsOk(candidates: seq<Alias>, seeds: set<Id>, st: State, isSeed: string -> bool) {
    && (forall p :: p in st.targets <==> p in st.recorded && !isSeed(p))
    && (forall p :: p in st.targets ==> Noted(candidates, seeds, p, st.targets[p]))
  }

  ghost predicate Ok(candidates: seq<Alias>, seeds: set<Id>, st: State, isSeed: string -> bool) {
    MarksOk(candidates, seeds, st) && TargetsOk(candidates, seeds, st, isSeed)
  }

  lemma StartOk(candidates: seq<Alias>, seeds: set<Id>, isSeed: string -> bool)
    ensures Ok(candidates, seeds, State(seeds, {}, map[]), isSeed)
  {
  }

  lemma RecordedMore(candidates: seq<Alias>, s: set<Id>, t: set<Id>)
    requires s <= t
    ensures forall p :: RecordedBy(candidates, p, s) ==> RecordedBy(candidates, p, t)
  {
    TouchesMore(s, t);
    hide Touches;
  }

  lemma VisitMarks(candidates: seq<Alias>, seeds: set<Id>, st: State, a: Alias, isSeed: string -> bool)
    requires MarksOk(candidates, seeds, st) && a in candidates
    ensures MarksOk(candidates, seeds, Visit(st, a, isSeed))
  {
    hide Touches, Forced, Mentioned;
    if Touches(a, st.denied) {
      var next := Visit(st, a, isSeed);
      ForcedNext(candidates, seeds, st.denied, a);
      RecordedMore(candidates, st.denied, next.denied);
      TouchesMore(st.denied, next.denied);
      assert RecordedBy(candidates, a.path, next.denied);
      forall x | x in candidates && x.path !in next.recorded
        ensures Forced(Without(candidates, x), seeds, next.denied)
      {
        ForcedNext(Without(candidates, x), seeds, st.denied, a);
      }
    }
  }

  lemma FirstNoted(candidates: seq<Alias>, seeds: set<Id>, st: State, a: Alias)
    requires MarksOk(candidates, seeds, st) && a in candidates && Touches(a, st.denied) && a.path !in st.recorded
    ensures Noted(candidates, seeds, a.path, Mentioned(a) * st.denied)
  {
    hide Touches, Forced, Mentioned;
    assert Moment(candidates, seeds, a, st.denied);
  }

  lemma VisitTargets(candidates: seq<Alias>, seeds: set<Id>, st: State, a: Alias, isSeed: string -> bool)
    requires MarksOk(candidates, seeds, st) && TargetsOk(candidates, seeds, st, isSeed) && a in candidates
    ensures TargetsOk(candidates, seeds, Visit(st, a, isSeed), isSeed)
  {
    hide Touches, Noted, Mentioned, MarksOk;
    if Touches(a, st.denied) && a.path !in st.recorded { FirstNoted(candidates, seeds, st, a); }
  }

  lemma {:induction false} RoundOk(candidates: seq<Alias>, order: seq<Alias>, seeds: set<Id>, st: State,
                                   isSeed: string -> bool)
    requires Ok(candidates, seeds, st, isSeed) && forall a :: a in order ==> a in candidates
    ensures Ok(candidates, seeds, RoundOf(order, st, isSeed), isSeed)
    decreases |order|
  {
    hide MarksOk, TargetsOk, Visit;
    if order != [] {
      var n := |order| - 1;
      assert order[n] in order;
      RoundOk(candidates, order[..n], seeds, st, isSeed);
      VisitMarks(candidates, seeds, RoundOf(order[..n], st, isSeed), order[n], isSeed);
      VisitTargets(candidates, seeds, RoundOf(order[..n], st, isSeed), order[n], isSeed);
    }
  }

  /** A round that marks nothing has seen every alias that mentions a marked item. */
  lemma {:induction false} RoundSettled(order: seq<Alias>, st: State, isSeed: string -> bool)
    requires RoundOf(order, st, isSeed).denied == st.denied
    ensures forall a :: a in order && Touches(a, st.denied) ==>
      a.key in st.denied && a.path in RoundOf(order, st, isSeed).recorded
    decreases |order|
  {
    if order != [] {
      var n := |order| - 1;
      RoundGrows(order[..n], st, isSeed);
      RoundSettled(order[..n], st, isSeed);
      assert order == order[..n] + [order[n]];
    }
  }

  /** What the loop leaves: the least closed set, the paths of exactly the aliases
      that mention a member, and for those that are no seeds their noted targets. */
  ghost predicate Settled(candidates: seq<Alias>, seeds: set<Id>, st: State, isSeed: string -> bool) {
    && Least(candidates, seeds, st.denied)
    && (forall p :: p in st.recorded <==> RecordedBy(candidates, p, st.denied))
    && (forall p :: p in st.targets <==> p in st.recorded && !isSeed(p))
    && (forall p :: p in st.targets ==> Noted(candidates, seeds, p, st.targets[p]))
  }

  lemma {:induction false} FinalSettled(candidates: seq<Alias>, seeds: set<Id>, st: State, isSeed: string -> bool)
    requires Ok(candidates, seeds, st, isSeed)
    ensures Settled(candidates, seeds, Final(candidates, st, isSeed), isSeed)
    decreases Keys(candidates) - st.denied
  {
    var r := RoundOf(candidates, st, isSeed);
    RoundGrows(candidates, st, isSeed);
    RoundOk(candidates, candidates, seeds, st, isSeed);
    if r.denied == st.denied {
      RoundSettled(candidates, st, isSeed);
    } else {
      NewKey(candidates, st.denied, r.denied);
      FinalSettled(candidates, seeds, r, isSeed);
    }
  }

  /** Every noted target has a path of its own. */
  ghost predicate AllNamed(targets: map<string, set<Id>>, nameOf: Id -> Option<string>) {
    forall p, t :: p in targets && t in targets[p] ==> nameOf(t).Some?
  }

  ghost function NamesOf(targets: set<Id>, nameOf: Id -> Option<string>): set<string>
    requires forall t :: t in targets ==> nameOf(t).Some?
  {
    set t | t in targets :: nameOf(t).value
  }

  /** The sorted paths of one alias's targets; nothing is the `InventoryError`. */
  method TargetNames(targets: set<Id>, nameOf: Id -> Option<string>) returns (names: Option<seq<string>>)
    ensures names.Some? <==> forall t :: t in targets ==> nameOf(t).Some?
    ensures names.Some? ==> Lists(names.value, NamesOf(targets, nameOf), TextLess)
  {
    var found: set<string> := {};
    var rest := targets;
    while rest != {}
      invariant rest <= targets && forall t :: t in targets - rest ==> nameOf(t).Some?
      invariant found == NamesOf(targets - rest, nameOf)
      decreases rest
    {
      var t :| t in rest;
      if nameOf(t).None? { return None; }
      assert targets - (rest - {t}) == (targets - rest) + {t};
      found := found + {nameOf(t).value};
      rest := rest - {t};
    }
    assert targets - rest == targets;
    TextsRank(found);
    var sorted := Sorted(found, TextLess);
    return Some(sorted);
  }

  /** The sorted target paths of every noted alias. */
  method NameTargets(targets: map<string, set<Id>>, nameOf: Id -> Option<string>)
      returns (external: Option<map<string, seq<string>>>)
    ensures external.Some? <==> AllNamed(targets, nameOf)
    ensures external.Some? ==> external.value.Keys == targets.Keys
    ensures external.Some? ==> forall p :: p in external.value ==>
      Lists(external.value[p], NamesOf(targets[p], nameOf), TextLess)
  {
    hide Lists, TextLess, NamesOf;
    var made: map<string, seq<string>> := map[];
    var rest := targets.Keys;
    while rest != {}
      invariant rest <= targets.Keys && made.Keys == targets.Keys - rest
      invariant forall p :: p in made ==>
        (forall t :: t in targets[p] ==> nameOf(t).Some?) && Lists(made[p], NamesOf(targets[p], nameOf), TextLess)
      decreases rest
    {
      var p :| p in rest;
      var names := TargetNames(targets[p], nameOf);
      if names.None? { return None; }
      made := made[p := names.value];
      rest := rest - {p};
    }
    external := Some(made);
  }

  /** `collect_public_type_aliases`, from the seeds. What is noted stays noted, so an
      unnamed target stops the loop exactly when one is noted at its end. */
  method CollectAliases(candidates: seq<Alias>, seeds: set<Id>, isSeed: string -> bool, nameOf: Id -> Option<string>)
      returns (external: Option<map<string, seq<string>>>, st: State, ghost rounds: nat)
    ensures st == Final(candidates, State(seeds, {}, map[]), isSeed)
    ensures Settled(candidates, seeds, st, isSeed) && rounds <= |candidates| + 1
    ensures external.Some? <==> AllNamed(st.targets, nameOf)
    ensures external.Some? ==> external.value.Keys == st.targets.Keys
    ensures external.Some? ==> forall p :: p in external.value ==>
      Lists(external.value[p], NamesOf(st.targets[p], nameOf), TextLess)
  {
    var c := new Collector(seeds, isSeed);
    rounds := c.Collect(candidates);
    st := State(c.denied, c.recorded, c.targets);
    StartOk(candidates, seeds, isSeed);
    FinalSettled(candidates, seeds, State(seeds, {}, map[]), isSeed);
    hide Settled, Final, Lists, TextLess, NamesOf;
    external := NameTargets(st.targets, nameOf);
  }

  /** There is one least set, and it does not depend on the order of the candidates. */
  lemma LeastIsUnique(a: seq<Alias>, b: seq<Alias>, seeds: set<Id>, s: set<Id>, t: set<Id>)
    requires (forall x :: x in a <==> x in b) && Least(a, seeds, s) && Least(b, seeds, t)
    ensures s == t
  {
    assert Closed(b, seeds, s) && Closed(a, seeds, t);
  }

  // ---------------------------------------------------------------------
  // The same set, by chains of aliases
  // ---------------------------------------------------------------------

  ghost predicate Link(candidates: seq<Alias>, source: Id, target: Id) {
    exists a :: a in candidates && a.key == target && Touches(a, {source})
  }

  /** Every item of the chain but the first, which is a seed, is an alias that mentions the one before it. */
  ghost predicate Chain(candidates: seq<Alias>, seeds: set<Id>, chain: seq<Id>) {
    && chain != [] && chain[0] in seeds
    && forall k :: 0 < k < |chain| ==> Link(candidates, chain[k - 1], chain[k])
  }

  lemma {:induction false} ChainInside(candidates: seq<Alias>, seeds: set<Id>, chain: seq<Id>, s: set<Id>)
    requires Chain(candidates, seeds, chain) && Closed(candidates, seeds, s)
    ensures chain[|chain| - 1] in s
    decreases |chain|
  {
    if |chain| > 1 {
      var init := chain[..|chain| - 1];
      assert Chain(candidates, seeds, init);
      ChainInside(candidates, seeds, init, s);
      assert Link(candidates, chain[|chain| - 2], chain[|chain| - 1]);
      TouchesMore({chain[|chain| - 2]}, s);
    }
  }

  ghost predicate Reached(candidates: seq<Alias>, seeds: set<Id>, x: Id) {
    exists chain :: Chain(candidates, seeds, chain) && chain[|chain| - 1] == x
  }

  lemma ReachedNext(candidates: seq<Alias>, seeds: set<Id>, x: Id, a: Alias)
    requires Reached(candidates, seeds, x) && a in candidates && Touches(a, {x})
    ensures Reached(candidates, seeds, a.key)
  {
    var chain :| Chain(candidates, seeds, chain) && chain[|chain| - 1] == x;
    var longer := chain + [a.key];
    assert Link(candidates, x, a.key);
    assert Chain(candidates, seeds, longer);
  }

  /** The least set is exactly what chains of aliases reach from the seeds. */
  lemma LeastIsReached(candidates: seq<Alias>, seeds: set<Id>, s: set<Id>)
    requires Least(candidates, seeds, s)
    ensures forall x :: x in s <==> Reached(candidates, seeds, x)
  {
    forall x | Reached(candidates, seeds, x) ensures x in s {
      var chain :| Chain(candidates, seeds, chain) && chain[|chain| - 1] == x;
      ChainInside(candidates, seeds, chain, s);
    }
    var t := set x | x in s && Reached(candidates, seeds, x);
    forall x | x in seeds ensures Reached(candidates, seeds, x) {
      assert Chain(candidates, seeds, [x]);
    }
    forall a | a in candidates && Touches(a, t) ensures a.key in t {
      var x :| x in Mentioned(a) * t;
      assert x in Mentioned(a) * {x};
      ReachedNext(candidates, seeds, x, a);
      TouchesMore(t, s);
    }
    assert Closed(candidates, seeds, t);
  }

  // ---------------------------------------------------------------------
  // When the noted targets depend on the order
  // ---------------------------------------------------------------------

  /** The same candidates, each once, in some order. */
  ghost predicate Reordered(order: seq<Alias>, candidates: seq<Alias>) {
    Distinct(order) && forall x :: x in order <==> x in candidates
  }

  function Start(seeds: set<Id>): State {
    State(seeds, {}, map[])
  }

  /** The targets noted with a path when the candidates come in the given order. */
  function TargetsIn(order: seq<Alias>, seeds: set<Id>, path: string, isSeed: string -> bool): Option<set<Id>> {
    var targets := Final(order, Start(seeds), isSeed).targets;
    if path in targets then Some(targets[path]) else None
  }

  /** The items marked once these aliases are. */
  function Marked(seeds: set<Id>, aliases: seq<Alias>): set<Id> {
    seeds + set a | a in aliases :: a.key
  }

  /** Each alias mentions an item marked before it, and marks a new one. */
  ghost predicate Derivation(candidates: seq<Alias>, seeds: set<Id>, aliases: seq<Alias>) {
    forall i :: 0 <= i < |aliases| ==>
      && aliases[i] in candidates && Touches(aliases[i], Marked(seeds, aliases[..i]))
      && aliases[i].key !in Marked(seeds, aliases[..i])
  }

  lemma DerivationNext(candidates: seq<Alias>, seeds: set<Id>, aliases: seq<Alias>, a: Alias)
    requires Derivation(candidates, seeds, aliases)
    requires a in candidates && Touches(a, Marked(seeds, aliases)) && a.key !in Marked(seeds, aliases)
    ensures Derivation(candidates, seeds, aliases + [a])
    ensures Marked(seeds, aliases + [a]) == Marked(seeds, aliases) + {a.key}
  {
    hide Touches, Marked;
    var longer := aliases + [a];
    forall i | 0 <= i < |longer|
      ensures longer[i] in candidates && Touches(longer[i], Marked(seeds, longer[..i]))
      ensures longer[i].key !in Marked(seeds, longer[..i])
    {
      assert longer[..i] == aliases[..i];
      if i == |aliases| { assert aliases[..i] == aliases; }
    }
    MarkedNext(seeds, aliases, a);
  }

  lemma MarkedNext(seeds: set<Id>, aliases: seq<Alias>, a: Alias)
    ensures Marked(seeds, aliases + [a]) == Marked(seeds, aliases) + {a.key}
  {
  }

  lemma DerivationPrefix(candidates: seq<Alias>, seeds: set<Id>, aliases: seq<Alias>, n: nat)
    requires Derivation(candidates, seeds, aliases) && n <= |aliases|
    ensures Derivation(candidates, seeds, aliases[..n])
  {
    hide Touches, Marked;
    forall i | 0 <= i < n
      ensures aliases[..n][i] in candidates && Touches(aliases[..n][i], Marked(seeds, aliases[..n][..i]))
      ensures aliases[..n][i].key !in Marked(seeds, aliases[..n][..i])
    {
      assert aliases[..n][..i] == aliases[..i];
    }
  }

  /** The last step of a derivation. */
  lemma DerivationLast(candidates: seq<Alias>, seeds: set<Id>, aliases: seq<Alias>)
    requires Derivation(candidates, seeds, aliases) && aliases != []
    ensures var n := |aliases| - 1; var a, before := aliases[n], aliases[..n];
      && aliases == before + [a] && Derivation(candidates, seeds, before)
      && a in candidates && Touches(a, Marked(seeds, before)) && a.key !in Marked(seeds, before)
      && Marked(seeds, aliases) == Marked(seeds, before) + {a.key}
  {
    var n := |aliases| - 1;
    DerivationPrefix(candidates, seeds, aliases, n);
    MarkedNext(seeds, aliases[..n], aliases[n]);
    assert aliases == aliases[..n] + [aliases[n]];
  }

  lemma {:induction false} DerivationForced(candidates: seq<Alias>, seeds: set<Id>, aliases: seq<Alias>)
    requires Derivation(candidates, seeds, aliases)
    ensures Forced(candidates, seeds, Marked(seeds, aliases))
    decreases |aliases|
  {
    hide *;
    if aliases == [] {
      SeedsForced(candidates, seeds, aliases);
    } else {
      var n := |aliases| - 1;
      DerivationLast(candidates, seeds, aliases);
      DerivationForced(candidates, seeds, aliases[..n]);
      ForcedNext(candidates, seeds, Marked(seeds, aliases[..n]), aliases[n]);
    }
  }

  lemma SeedsForced(candidates: seq<Alias>, seeds: set<Id>, aliases: seq<Alias>)
    requires aliases == []
    ensures Marked(seeds, aliases) == seeds && Forced(candidates, seeds, seeds)
  {
  }

  /** Any derivation goes on until it has marked the least set. */
  lemma {:induction false} Derive(candidates: seq<Alias>, seeds: set<Id>, aliases: seq<Alias>) returns (all: seq<Alias>)
    requires Derivation(candidates, seeds, aliases)
    ensures Derivation(candidates, seeds, all) && Least(candidates, seeds, Marked(seeds, all))
    decreases Keys(candidates) - Marked(seeds, aliases)
  {
    DerivationForced(candidates, seeds, aliases);
    if Closed(candidates, seeds, Marked(seeds, aliases)) {
      all := aliases;
    } else {
      var a :| a in candidates && Touches(a, Marked(seeds, aliases)) && a.key !in Marked(seeds, aliases);
      DerivationNext(candidates, seeds, aliases, a);
      assert a.key in Keys(candidates) - Marked(seeds, aliases);
      all := Derive(candidates, seeds, aliases + [a]);
    }
  }

  ghost predicate PathsOf(st: State, aliases: seq<Alias>) {
    forall p :: p in st.recorded || p in st.targets ==> exists a :: a in aliases && a.path == p
  }

  lemma VisitPaths(st: State, aliases: seq<Alias>, a: Alias, isSeed: string -> bool)
    requires PathsOf(st, aliases)
    ensures PathsOf(Visit(st, a, isSeed), aliases + [a])
  {
    hide Touches, Mentioned;
    var next := Visit(st, a, isSeed);
    forall p | p in next.recorded || p in next.targets ensures exists x :: x in aliases + [a] && x.path == p {
      if p in st.recorded || p in st.targets {
        var x :| x in aliases && x.path == p;
        assert x in aliases + [a];
      } else {
        assert a in aliases + [a] && a.path == p;
      }
    }
  }

  /** A round that starts with a derivation marks exactly its keys, and records only its paths. */
  lemma {:induction false} DerivationRuns(candidates: seq<Alias>, seeds: set<Id>, aliases: seq<Alias>,
                                          isSeed: string -> bool)
    requires Derivation(candidates, seeds, aliases)
    ensures var r := RoundOf(aliases, Start(seeds), isSeed);
      r.denied == Marked(seeds, aliases) && PathsOf(r, aliases)
    decreases |aliases|
  {
    hide Touches, Marked, Derivation, PathsOf, Mentioned;
    if aliases == [] {
      SeedsForced(candidates, seeds, aliases);
      NoPaths(seeds, aliases);
    } else {
      var n := |aliases| - 1;
      DerivationLast(candidates, seeds, aliases);
      DerivationRuns(candidates, seeds, aliases[..n], isSeed);
      VisitPaths(RoundOf(aliases[..n], Start(seeds), isSeed), aliases[..n], aliases[n], isSeed);
    }
  }

  lemma NoPaths(seeds: set<Id>, aliases: seq<Alias>)
    ensures PathsOf(Start(seeds), aliases)
  {
  }

  predicate Covered(st: State) {
    forall p :: p in st.targets ==> p in st.recorded
  }

  /** What is noted stays noted. */
  lemma {:induction false} RoundKeeps(order: seq<Alias>, st: State, isSeed: string -> bool)
    requires Covered(st)
    ensures var r := RoundOf(order, st, isSeed);
      Covered(r) && forall p :: p in st.targets ==> p in r.targets && r.targets[p] == st.targets[p]
    decreases |order|
  {
    hide Touches;
    if order != [] { RoundKeeps(order[..|order| - 1], st, isSeed); }
  }

  lemma {:induction false} FinalKeeps(order: seq<Alias>, st: State, isSeed: string -> bool)
    requires Covered(st)
    ensures var r := Final(order, st, isSeed);
      forall p :: p in RoundOf(order, st, isSeed).targets ==>
        p in r.targets && r.targets[p] == RoundOf(order, st, isSeed).targets[p]
    decreases Keys(order) - st.denied
  {
    hide RoundOf;
    var r := RoundOf(order, st, isSeed);
    RoundKeeps(order, st, isSeed);
    RoundGrows(order, st, isSeed);
    if r.denied != st.denied {
      NewKey(order, st.denied, r.denied);
      FinalKeeps(order, r, isSeed);
      RoundKeeps(order, r, isSeed);
    }
  }

  lemma {:induction false} RoundConcat(a: seq<Alias>, b: seq<Alias>, st: State, isSeed: string -> bool)
    ensures RoundOf(a + b, st, isSeed) == RoundOf(b, RoundOf(a, st, isSeed), isSeed)
    decreases |b|
  {
    if b == [] {
      assert a + b == a;
    } else {
      assert (a + b)[..|a + b| - 1] == a + b[..|b| - 1];
      RoundConcat(a, b[..|b| - 1], st, isSeed);
    }
  }

  /** Behind a derivation the alias is recorded with what it mentions of its keys. */
  lemma TargetsBehind(candidates: seq<Alias>, seeds: set<Id>, aliases: seq<Alias>, a: Alias, rest: seq<Alias>,
                      isSeed: string -> bool)
    requires Derivation(Without(candidates, a), seeds, aliases) && Touches(a, Marked(seeds, aliases)) && !isSeed(a.path)
    requires forall x :: x in candidates && x.path == a.path ==> x == a
    ensures TargetsIn(aliases + [a] + rest, seeds, a.path, isSeed) == Some(Mentioned(a) * Marked(seeds, aliases))
  {
    hide Marked, Touches, Final;
    var order := aliases + [a] + rest;
    var before := RoundOf(aliases, Start(seeds), isSeed);
    DerivationRuns(Without(candidates, a), seeds, aliases, isSeed);
    assert a.path !in before.recorded && a.path !in before.targets;
    RoundKeeps(aliases, Start(seeds), isSeed);
    RoundConcat(aliases, [a], Start(seeds), isSeed);
    OneVisit(a, before, isSeed);
    RoundConcat(aliases + [a], rest, Start(seeds), isSeed);
    RoundKeeps(aliases + [a], Start(seeds), isSeed);
    RoundKeeps(rest, RoundOf(aliases + [a], Start(seeds), isSeed), isSeed);
    FinalKeeps(order, Start(seeds), isSeed);
  }

  lemma OneVisit(a: Alias, st: State, isSeed: string -> bool)
    ensures RoundOf([a], st, isSeed) == Visit(st, a, isSeed)
  {
    assert [a][..0] == [];
    assert RoundOf([a][..0], st, isSeed) == st;
  }

  function Others(candidates: seq<Alias>, first: seq<Alias>): (r: seq<Alias>)
    ensures forall x :: x in r <==> x in candidates && x !in first
    ensures |r| <= |candidates|
  {
    if candidates == [] then []
    else (if candidates[0] in first then [] else [candidates[0]]) + Others(candidates[1..], first)
  }

  lemma {:induction false} OthersDistinct(candidates: seq<Alias>, first: seq<Alias>)
    requires Distinct(candidates)
    ensures Distinct(Others(candidates, first))
  {
    if candidates != [] {
      var tail := candidates[1..];
      assert forall i :: 0 <= i < |tail| ==> tail[i] == candidates[i + 1];
      assert candidates[0] !in tail;
      OthersDistinct(tail, first);
    }
  }

  lemma DerivationDistinct(candidates: seq<Alias>, seeds: set<Id>, aliases: seq<Alias>)
    requires Derivation(candidates, seeds, aliases)
    ensures Distinct(aliases)
  {
    hide Touches;
    forall i, j | 0 <= i < j < |aliases| ensures aliases[i] != aliases[j] {
      assert aliases[i] in aliases[..j];
    }
  }

  /** The candidates with a derivation first, then the alias, then the others. */
  lemma OrderBehind(candidates: seq<Alias>, seeds: set<Id>, aliases: seq<Alias>, a: Alias) returns (rest: seq<Alias>)
    requires Distinct(candidates) && a in candidates && Derivation(Without(candidates, a), seeds, aliases)
    ensures Reordered(aliases + [a] + rest, candidates)
  {
    var first := aliases + [a];
    DerivationDistinct(Without(candidates, a), seeds, aliases);
    forall x | x in aliases ensures x in candidates && x != a {
      var i :| 0 <= i < |aliases| && aliases[i] == x;
    }
    rest := Others(candidates, first);
    OthersDistinct(candidates, first);
    DistinctParts(first, rest);
  }

  lemma DistinctParts(a: seq<Alias>, b: seq<Alias>)
    requires Distinct(a) && Distinct(b) && forall x :: x in a ==> x !in b
    ensures Distinct(a + b)
  {
    forall i, j | 0 <= i < j < |a + b| ensures (a + b)[i] != (a + b)[j] {
      if i < |a| <= j { assert a[i] in a && b[j - |a|] in b; }
    }
  }

  ghost predicate FixedTargets(candidates: seq<Alias>, seeds: set<Id>, path: string, isSeed: string -> bool) {
    forall a, b :: Reordered(a, candidates) && Reordered(b, candidates) ==>
      TargetsIn(a, seeds, path, isSeed) == TargetsIn(b, seeds, path, isSeed)
  }

  lemma ClosedReordered(candidates: seq<Alias>, order: seq<Alias>, seeds: set<Id>, a: Alias, s: set<Id>)
    requires Reordered(order, candidates)
    ensures Closed(order, seeds, s) ==> Closed(Without(candidates, a), seeds, s)
    ensures Closed(Without(candidates, a), seeds, s) ==> Closed(Without(order, a), seeds, s)
  {
    hide Touches;
  }

  lemma NotedBetween(order: seq<Alias>, seeds: set<Id>, a: Alias, all: set<Id>, targets: set<Id>)
    requires Noted(order, seeds, a.path, targets) && Closed(Without(order, a), seeds, all)
    requires forall x :: x in order && x.path == a.path ==> x == a
    ensures targets != {} && Mentioned(a) * seeds <= targets <= Mentioned(a) * all
  {
    var x, d :| Moment(order, seeds, x, d) && x.path == a.path && targets == Mentioned(x) * d;
    hide Closed, Mentioned;
  }

  /** In any order the noted targets lie between what the alias mentions of the
      seeds and of all that is marked without it. */
  lemma TargetsBetween(candidates: seq<Alias>, order: seq<Alias>, seeds: set<Id>, a: Alias, all: set<Id>,
                       isSeed: string -> bool)
    requires Reordered(order, candidates) && a in candidates && !isSeed(a.path)
    requires forall x :: x in candidates && x.path == a.path ==> x == a
    requires Least(Without(candidates, a), seeds, all) && Touches(a, all)
    ensures var t := TargetsIn(order, seeds, a.path, isSeed);
      t.Some? && t.value != {} && Mentioned(a) * seeds <= t.value <= Mentioned(a) * all
  {
    var st := Final(order, Start(seeds), isSeed);
    StartOk(order, seeds, isSeed);
    FinalSettled(order, seeds, Start(seeds), isSeed);
    ClosedReordered(candidates, order, seeds, a, st.denied);
    ClosedReordered(candidates, order, seeds, a, all);
    hide Final, TargetsOk, MarksOk, Closed, Touches, Mentioned, Noted;
    TouchesMore(all, st.denied);
    assert RecordedBy(order, a.path, st.denied);
    NotedBetween(order, seeds, a, all, st.targets[a.path]);
  }

  lemma {:induction false} FirstMoment(seeds: set<Id>, aliases: seq<Alias>, a: Alias) returns (n: nat)
    requires Touches(a, Marked(seeds, aliases))
    ensures n <= |aliases| && Touches(a, Marked(seeds, aliases[..n]))
    ensures n > 0 ==> !Touches(a, Marked(seeds, aliases[..n - 1]))
    decreases |aliases|
  {
    hide Touches, Marked;
    n := |aliases|;
    assert aliases[..n] == aliases;
    if aliases != [] && Touches(a, Marked(seeds, aliases[..n - 1])) {
      n := FirstMoment(seeds, aliases[..n - 1], a);
      assert aliases[..|aliases| - 1][..n] == aliases[..n];
      if n > 0 { assert aliases[..|aliases| - 1][..n - 1] == aliases[..n - 1]; }
    }
  }

  /** At its first moment an alias mentions seeds only, or one marked item. */
  lemma FirstMomentTargets(candidates: seq<Alias>, seeds: set<Id>, aliases: seq<Alias>, a: Alias, n: nat)
    requires Derivation(candidates, seeds, aliases) && n <= |aliases|
    requires n > 0 ==> !Touches(a, Marked(seeds, aliases[..n - 1]))
    ensures var hit := Mentioned(a) * Marked(seeds, aliases[..n]); hit <= seeds || |hit| <= 1
  {
    hide Derivation, Mentioned;
    if n > 0 {
      var before, last := aliases[..n - 1], aliases[n - 1];
      assert aliases[..n] == before + [last];
      MarkedNext(seeds, before, last);
      hide Marked;
      OneMore(Mentioned(a), Marked(seeds, before), last.key);
    }
  }

  lemma OneMore(mentioned: set<Id>, before: set<Id>, key: Id)
    requires mentioned * before == {}
    ensures |mentioned * (before + {key})| <= 1
  {
    assert mentioned * (before + {key}) <= {key};
    Fits(mentioned * (before + {key}), {key});
  }

  lemma FewFixed(some: set<Id>, all: set<Id>, seeds: set<Id>, mentioned: set<Id>)
    requires mentioned * seeds <= some <= all && some != {} && all <= mentioned
    requires all <= seeds || |all| <= 1
    ensures some == all
  {
    if !(all <= some) {
      var x :| x in all && x !in some;
      var y :| y in some;
      Fits({x, y}, all);
    }
  }

  /** The noted targets are the same in every order exactly when all that the
      alias ever mentions of the marked items are seeds, or is one item. */
  lemma TargetsFixedIff(candidates: seq<Alias>, seeds: set<Id>, a: Alias, all: set<Id>, isSeed: string -> bool)
    requires Distinct(candidates) && a in candidates && !isSeed(a.path)
    requires forall x :: x in candidates && x.path == a.path ==> x == a
    requires Least(Without(candidates, a), seeds, all) && Touches(a, all)
    ensures FixedTargets(candidates, seeds, a.path, isSeed)
       <==> Mentioned(a) * all <= seeds || |Mentioned(a) * all| <= 1
  {
    var few := Mentioned(a) * all <= seeds || |Mentioned(a) * all| <= 1;
    if few {
      forall x | Reordered(x, candidates) ensures TargetsIn(x, seeds, a.path, isSeed) == Some(Mentioned(a) * all) {
        TargetsBetween(candidates, x, seeds, a, all, isSeed);
        FewFixed(TargetsIn(x, seeds, a.path, isSeed).value, Mentioned(a) * all, seeds, Mentioned(a));
      }
    } else {
      var early, late, hit := TwoOrders(candidates, seeds, a, all, isSeed);
      assert FixedTargets(candidates, seeds, a.path, isSeed) ==>
        TargetsIn(early, seeds, a.path, isSeed) == TargetsIn(late, seeds, a.path, isSeed);
    }
  }

  /** One order that records the alias as early as can be, and one as late. */
  lemma TwoOrders(candidates: seq<Alias>, seeds: set<Id>, a: Alias, all: set<Id>, isSeed: string -> bool)
      returns (early: seq<Alias>, late: seq<Alias>, hit: set<Id>)
    requires Distinct(candidates) && a in candidates && !isSeed(a.path)
    requires forall x :: x in candidates && x.path == a.path ==> x == a
    requires Least(Without(candidates, a), seeds, all) && Touches(a, all)
    ensures Reordered(early, candidates) && Reordered(late, candidates)
    ensures TargetsIn(early, seeds, a.path, isSeed) == Some(hit) && (hit <= seeds || |hit| <= 1)
    ensures TargetsIn(late, seeds, a.path, isSeed) == Some(Mentioned(a) * all)
  {
    var others := Without(candidates, a);
    assert Derivation(others, seeds, []);
    var full := Derive(others, seeds, []);
    LeastIsUnique(others, others, seeds, Marked(seeds, full), all);
    hide *;
    var n := FirstMoment(seeds, full, a);
    DerivationPrefix(others, seeds, full, n);
    FirstMomentTargets(others, seeds, full, a, n);
    var rest := OrderBehind(candidates, seeds, full[..n], a);
    early, hit := full[..n] + [a] + rest, Mentioned(a) * Marked(seeds, full[..n]);
    TargetsBehind(candidates, seeds, full[..n], a, rest, isSeed);
    rest := OrderBehind(candidates, seeds, full, a);
    late := full + [a] + rest;
    TargetsBehind(candidates, seeds, full, a, rest, isSeed);
  }

  /** An alias of a seed, and one that mentions both: which comes first decides
      whether the second is noted with one target or with two. */
  lemma OrderShows(seed: Id, other: Id, key: Id)
    requires seed != other
    ensures var isSeed := (p: string) => false;
      var one, both := Alias("one", other, Some({seed})), Alias("both", key, Some({seed, other}));
      && TargetsIn([both, one], {seed}, "both", isSeed) == Some({seed})
      && TargetsIn([one, both], {seed}, "both", isSeed) == Some({seed, other})
  {
    var isSeed := (p: string) => false;
    var one, both := Alias("one", other, Some({seed})), Alias("both", key, Some({seed, other}));
    var start := Start({seed});
    assert "one"[0] != "both"[0];
    assert {seed} * {seed} == {seed} && {seed, other} * {seed} == {seed};
    assert {seed, other} * ({seed} + {other}) == {seed, other};
    TwoVisits(both, one, start, isSeed);
    TwoVisits(one, both, start, isSeed);
    FinalKeeps([both, one], start, isSeed);
    FinalKeeps([one, both], start, isSeed);
  }

  lemma TwoVisits(a: Alias, b: Alias, st: State, isSeed: string -> bool)
    ensures RoundOf([a, b], st, isSeed) == Visit(Visit(st, a, isSeed), b, isSeed)
  {
    OneVisit(a, st, isSeed);
    OneVisit(b, Visit(st, a, isSeed), isSeed);
    RoundConcat([a], [b], st, isSeed);
    assert [a] + [b] == [a, b];
  }
}

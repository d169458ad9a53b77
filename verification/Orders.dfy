// Members of a sequence, sorting them, and the order of texts by character.
module Orders {
  /** Texts compare by their first difference, a prefix before the longer one. */
  predicate TextLess(a: string, b: string) {
    b != [] && (a == [] || a[0] < b[0] || (a[0] == b[0] && TextLess(a[1..], b[1..])))
  }

  lemma {:induction false} TextLessTransitive(a: string, b: string, c: string)
    requires TextLess(a, b) && TextLess(b, c)
    ensures TextLess(a, c)
  {
    if a != [] && a[0] == b[0] == c[0] { TextLessTransitive(a[1..], b[1..], c[1..]); }
  }

  lemma {:induction false} TextLessTotal(a: string, b: string)
    ensures (TextLess(a, b) ==> !TextLess(b, a)) && (a == b <==> !TextLess(a, b) && !TextLess(b, a))
  {
    if a != [] && b != [] && a[0] == b[0] {
      TextLessTotal(a[1..], b[1..]);
      assert a == [a[0]] + a[1..] && b == [b[0]] + b[1..];
    }
  }

  function Members<T>(items: seq<T>): set<T> {
    set x | x in items
  }

  lemma MembersNext<T>(items: seq<T>, i: nat)
    requires i < |items|
    ensures Members(items[..i + 1]) == Members(items[..i]) + {items[i]}
  {
    assert items[..i + 1] == items[..i] + [items[i]];
  }

  lemma MembersAll<T>(items: seq<T>)
    ensures Members(items[..|items|]) == Members(items)
  {
    assert items[..|items|] == items;
  }

  lemma MembersMore<T>(items: seq<T>, x: T)
    ensures Members(items + [x]) == Members(items) + {x}
  {
  }

  ghost predicate Distinct<T>(items: seq<T>) {
    forall i, j :: 0 <= i < j < |items| ==> items[i] != items[j]
  }

  /** The relation puts the members of the set in one row. */
  ghost predicate Ranks<T(!new)>(s: set<T>, less: (T, T) -> bool) {
    && (forall a, b :: a in s && b in s ==> a == b || less(a, b) || less(b, a))
    && (forall a, b :: a in s && b in s && less(a, b) ==> !less(b, a))
    && (forall a, b, c :: a in s && b in s && c in s && less(a, b) && less(b, c) ==> less(a, c))
  }

  ghost predicate Ascending<T>(r: seq<T>, less: (T, T) -> bool) {
    forall i, j :: 0 <= i < j < |r| ==> less(r[i], r[j])
  }

  /** The members of the set, in order. */
  ghost predicate Lists<T(!new)>(r: seq<T>, s: set<T>, less: (T, T) -> bool) {
    Ascending(r, less) && forall x :: x in r <==> x in s
  }

  /** Where the element belongs: before the first one it precedes. */
  function Place<T>(x: T, r: seq<T>, less: (T, T) -> bool): (k: nat)
    ensures k <= |r| && (k < |r| ==> less(x, r[k])) && forall i :: 0 <= i < k ==> !less(x, r[i])
  {
    if r == [] || less(x, r[0]) then 0 else 1 + Place(x, r[1..], less)
  }

  /** `sorted` on distinct members. */
  method Sorted<T(!new,==)>(s: set<T>, less: (T, T) -> bool) returns (r: seq<T>)
    requires Ranks(s, less)
    ensures Lists(r, s, less)
  {
    r := [];
    var rest := s;
    while rest != {}
      invariant rest <= s && Lists(r, s - rest, less)
      decreases rest
    {
      var x :| x in rest;
      PlacedLists(s, s - rest, x, r, less);
      var k := Place(x, r, less);
      r := r[..k] + [x] + r[k..];
      assert s - (rest - {x}) == (s - rest) + {x};
      rest := rest - {x};
    }
    assert s - rest == s;
  }

  lemma PlacedLists<T(!new)>(all: set<T>, s: set<T>, x: T, r: seq<T>, less: (T, T) -> bool)
    requires Ranks(all, less) && s <= all && x in all && x !in s && Lists(r, s, less)
    ensures var k := Place(x, r, less); Lists(r[..k] + [x] + r[k..], s + {x}, less)
  {
    var k := Place(x, r, less);
    PlaceDivides(all, x, r, less, k);
    Inserted(r, k, x, less);
    forall y ensures y in r[..k] + [x] + r[k..] <==> y in s + {x} {
      assert r == r[..k] + r[k..];
    }
  }

  lemma PlaceDivides<T(!new)>(all: set<T>, x: T, r: seq<T>, less: (T, T) -> bool, k: nat)
    requires Ranks(all, less) && x in all && x !in r && (forall y :: y in r ==> y in all)
    requires Ascending(r, less) && k == Place(x, r, less)
    ensures forall i :: 0 <= i < |r| ==> if i < k then less(r[i], x) else less(x, r[i])
  {
    hide Place;
    forall i | 0 <= i < |r| ensures if i < k then less(r[i], x) else less(x, r[i]) {
      assert r[i] in r;
      if i > k { assert less(r[k], r[i]) && r[k] in r; }
    }
  }

  lemma Inserted<T>(r: seq<T>, k: nat, x: T, less: (T, T) -> bool)
    requires k <= |r| && Ascending(r, less)
    requires forall i :: 0 <= i < |r| ==> if i < k then less(r[i], x) else less(x, r[i])
    ensures Ascending(r[..k] + [x] + r[k..], less)
  {
    var t := r[..k] + [x] + r[k..];
    forall i, j | 0 <= i < j < |t| ensures less(t[i], t[j]) {
      var a, b := if i < k then i else i - 1, if j < k then j else j - 1;
      assert i != k ==> t[i] == r[a];
      assert j != k ==> t[j] == r[b];
    }
  }

  lemma EmptyLists<T(!new)>(a: seq<T>, s: set<T>, less: (T, T) -> bool)
    requires Lists(a, s, less)
    ensures a == [] <==> s == {}
  {
    if a != [] { assert a[0] in s; }
  }

  /** A set has one ascending list. */
  lemma {:induction false} ListsOnce<T(!new)>(a: seq<T>, b: seq<T>, s: set<T>, less: (T, T) -> bool)
    requires Ranks(s, less) && Lists(a, s, less) && Lists(b, s, less)
    ensures a == b
    decreases |a|
  {
    EmptyLists(a, s, less);
    EmptyLists(b, s, less);
    if s != {} {
      assert a[0] in s && b[0] in s && a[0] in b && b[0] in a;
      assert a[0] == b[0];
      var rest := s - {a[0]};
      RestLists(a, s, less);
      RestLists(b, s, less);
      ListsOnce(a[1..], b[1..], rest, less);
      assert a == [a[0]] + a[1..] && b == [b[0]] + b[1..];
    }
  }

  lemma RestLists<T(!new)>(a: seq<T>, s: set<T>, less: (T, T) -> bool)
    requires Ranks(s, less) && a != [] && Lists(a, s, less)
    ensures Lists(a[1..], s - {a[0]}, less)
  {
    assert a[0] in s;
    forall i | 0 < i < |a| ensures a[i] != a[0] {
      assert less(a[0], a[i]) && a[i] in s;
    }
    forall x ensures x in a[1..] <==> x in s - {a[0]} {
      assert a == [a[0]] + a[1..];
    }
  }

  lemma TextsRank(s: set<string>)
    ensures Ranks(s, TextLess)
  {
    forall a, b ensures (a == b || TextLess(a, b) || TextLess(b, a)) && (TextLess(a, b) ==> !TextLess(b, a)) {
      TextLessTotal(a, b);
    }
    forall a, b, c | TextLess(a, b) && TextLess(b, c) ensures TextLess(a, c) {
      TextLessTransitive(a, b, c);
    }
  }
}

// Numbering of equal heading slugs in a document. The counters kept per slug
// are proved to be a shortcut: every heading gets its slug when that is free,
// and otherwise the slug with the least free number.
module Slugs {
  import opened Orders
  import opened Texts

  function Name(base: string, number: nat): string {
    base + "-" + Decimal(number)
  }

  /** The slug of a heading, given the slugs before it. */
  ghost predicate SlugFor(base: string, earlier: set<string>, slug: string) {
    if base !in earlier then slug == base
    else exists n: nat :: LeastFree(base, earlier, n) && slug == Name(base, n)
  }

  ghost predicate LeastFree(base: string, earlier: set<string>, n: nat) {
    n >= 1 && Name(base, n) !in earlier && NumbersTaken(base, earlier, n)
  }

  /** All the numbers from 1 to before the given one are taken. */
  ghost predicate NumbersTaken(base: string, earlier: set<string>, n: nat) {
    forall m: nat :: 1 <= m < n ==> Name(base, m) in earlier
  }

  /** The slugs of the headings, in their order. */
  ghost predicate Numbered(bases: seq<string>, slugs: seq<string>) {
    && |slugs| == |bases|
    && forall i :: 0 <= i < |bases| ==> SlugFor(bases[i], Members(slugs[..i]), slugs[i])
  }

  lemma NameOnce(base: string, m: nat, n: nat)
    requires Name(base, m) == Name(base, n)
    ensures m == n
  {
    var k := |base| + 1;
    assert Name(base, m)[k..] == Decimal(m) && Name(base, n)[k..] == Decimal(n);
    NumberOfDecimal(m);
    NumberOfDecimal(n);
  }

  /** The taken numbers are no more than the slugs. */
  lemma {:induction false} TakenIsBounded(base: string, earlier: set<string>, n: nat)
    requires n >= 1 && NumbersTaken(base, earlier, n)
    ensures n - 1 <= |earlier|
    decreases n
  {
    if n > 1 {
      var last := Name(base, n - 1);
      forall m: nat | 1 <= m < n - 1 ensures Name(base, m) in earlier - {last} {
        if Name(base, m) == last { NameOnce(base, m, n - 1); }
      }
      TakenIsBounded(base, earlier - {last}, n - 1);
    }
  }

  /** What the counters promise: every number up to the counter is taken. */
  ghost predicate Counted(used: map<string, nat>) {
    forall base :: base in used ==> NumbersTaken(base, used.Keys, used[base] + 1)
  }

  /** The search for a free number behind a taken slug. */
  method FreeNumber(used: map<string, nat>, base: string) returns (number: nat)
    requires base in used && Counted(used)
    ensures LeastFree(base, used.Keys, number)
  {
    number := used[base] + 1;
    var candidate := Name(base, number);
    TakenIsBounded(base, used.Keys, number);
    while candidate in used
      invariant number >= 1 && candidate == Name(base, number) && NumbersTaken(base, used.Keys, number)
      invariant number - 1 <= |used.Keys|
      decreases |used.Keys| + 1 - number
    {
      number := number + 1;
      candidate := Name(base, number);
      TakenIsBounded(base, used.Keys, number);
    }
  }

  lemma FreeIsNew(base: string, earlier: set<string>, n: nat)
    requires LeastFree(base, earlier, n)
    ensures Name(base, n) !in earlier
  {
  }

  /** The counters are kept for exactly the slugs so far. */
  ghost predicate Counts(used: map<string, nat>, order: seq<string>) {
    Counted(used) && used.Keys == Members(order)
  }

  /** `slugs` holds exactly the slugs so far, each once. */
  ghost predicate Holds(slugs: map<string, int>, order: seq<string>) {
    slugs.Keys == Members(order) && |slugs| == |order| && forall s :: s in slugs ==> slugs[s] == 1
  }

  lemma CountsFresh(used: map<string, nat>, order: seq<string>, base: string)
    requires Counts(used, order) && base !in used
    ensures Counts(used[base := 0], order + [base])
  {
    hide Name, Members;
    MembersMore(order, base);
    assert used[base := 0].Keys == used.Keys + {base};
  }

  lemma CountsNext(used: map<string, nat>, order: seq<string>, base: string, number: nat)
    requires Counts(used, order) && base in used && LeastFree(base, used.Keys, number)
    ensures Counts(used[base := number][Name(base, number) := 0], order + [Name(base, number)])
  {
    hide Name, Members;
    MembersMore(order, Name(base, number));
    var after := used[base := number][Name(base, number) := 0];
    assert after.Keys == used.Keys + {Name(base, number)};
  }

  lemma HoldsNext(slugs: map<string, int>, order: seq<string>, slug: string)
    requires Holds(slugs, order) && slug !in Members(order)
    ensures Holds(slugs[slug := 1], order + [slug])
  {
    hide Members;
    MembersMore(order, slug);
    assert slugs[slug := 1].Keys == slugs.Keys + {slug};
  }

  lemma NumberedNext(bases: seq<string>, order: seq<string>, i: nat, slug: string)
    requires i < |bases| && Numbered(bases[..i], order) && SlugFor(bases[i], Members(order), slug)
    ensures Numbered(bases[..i + 1], order + [slug])
  {
    hide SlugFor, Members;
    var longer := order + [slug];
    forall k | 0 <= k <= i ensures SlugFor(bases[..i + 1][k], Members(longer[..k]), longer[k]) {
      assert longer[..k] == order[..k];
      if k == i { assert order[..i] == order; } else { assert bases[..i][k] == bases[k]; }
    }
  }

  /** The numbering in `Doc.__init__`. */
  method NumberSlugs(bases: seq<string>) returns (slugs: map<string, int>, ghost order: seq<string>)
    ensures Numbered(bases, order)
    ensures slugs.Keys == Members(order) && |slugs| == |bases|
    ensures forall s :: s in slugs ==> slugs[s] == 1
  {
    slugs, order := map[], [];
    var used: map<string, nat> := map[];
    for i := 0 to |bases|
      invariant Numbered(bases[..i], order) && Counts(used, order) && Holds(slugs, order)
    {
      hide Numbered, Counted, Holds, Name, LeastFree, Members;
      var base := bases[i];
      if base !in used {
        NumberedNext(bases, order, i, base);
        CountsFresh(used, order, base);
        HoldsNext(slugs, order, base);
        used := used[base := 0];
        slugs := slugs[base := 1];
        order := order + [base];
      } else {
        var number := FreeNumber(used, base);
        var candidate := Name(base, number);
        FreeIsNew(base, used.Keys, number);
        NumberedNext(bases, order, i, candidate);
        CountsNext(used, order, base, number);
        HoldsNext(slugs, order, candidate);
        used := used[base := number];
        used := used[candidate := 0];
        slugs := slugs[candidate := 1];
        order := order + [candidate];
      }
    }
    assert bases[..|bases|] == bases;
  }

  /** A slug is its heading's own, or that with a dash and a number from one on. */
  lemma NumberedNames(bases: seq<string>, slugs: seq<string>, i: nat)
    requires Numbered(bases, slugs) && i < |bases|
    ensures bases[i] !in slugs[..i] ==> slugs[i] == bases[i]
    ensures bases[i] in slugs[..i] ==> exists n: nat :: n >= 1 && slugs[i] == bases[i] + "-" + Decimal(n)
  {
    var base, earlier := bases[i], Members(slugs[..i]);
    assert SlugFor(base, earlier, slugs[i]);
    if base in earlier {
      var n: nat :| LeastFree(base, earlier, n) && slugs[i] == Name(base, n);
      assert slugs[i] == base + "-" + Decimal(n);
    }
  }

  /** The slugs are distinct. */
  lemma NumberedDistinct(bases: seq<string>, slugs: seq<string>, i: nat, j: nat)
    requires Numbered(bases, slugs) && i < j < |slugs|
    ensures slugs[i] != slugs[j]
  {
    assert slugs[i] in slugs[..j];
    assert SlugFor(bases[j], Members(slugs[..j]), slugs[j]);
  }

  lemma SlugOnce(base: string, earlier: set<string>, a: string, b: string)
    requires SlugFor(base, earlier, a) && SlugFor(base, earlier, b)
    ensures a == b
  {
    if base in earlier {
      var m: nat :| LeastFree(base, earlier, m) && a == Name(base, m);
      var n: nat :| LeastFree(base, earlier, n) && b == Name(base, n);
      assert m == n;
    }
  }

  /** The slugs of the first headings do not depend on the headings after them. */
  lemma {:induction false} NumberedOnce(bases: seq<string>, more: seq<string>, slugs: seq<string>,
                                        others: seq<string>, k: nat)
    requires Numbered(bases, slugs) && Numbered(bases + more, others) && k <= |bases|
    ensures slugs[..k] == others[..k]
  {
    hide SlugFor, Members, Numbered;
    if k > 0 {
      NumberedOnce(bases, more, slugs, others, k - 1);
      SlugAt(bases, slugs, k - 1);
      SlugAt(bases + more, others, k - 1);
      assert (bases + more)[k - 1] == bases[k - 1];
      assert slugs[..k] == slugs[..k - 1] + [slugs[k - 1]] && others[..k] == others[..k - 1] + [others[k - 1]];
      SlugOnce(bases[k - 1], Members(slugs[..k - 1]), slugs[k - 1], others[k - 1]);
    }
  }

  lemma SlugAt(bases: seq<string>, slugs: seq<string>, k: nat)
    requires Numbered(bases, slugs) && k < |bases|
    ensures |slugs| == |bases| && SlugFor(bases[k], Members(slugs[..k]), slugs[k])
  {
  }
}

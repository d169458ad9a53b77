// The known-issues ledger. Each release section of the CHANGELOG is rendered from
// the ledger, and the sections already published are checked against it for ever
// after: no later edit may change what a published release renders to.
module KnownIssues {
  import opened Options
  import opened Releases
  import opened Texts

  datatype Kind = NotInRelease | KnownIssue

  /** The old text of an item, shown in every release before `until`. */
  datatype Wording = Wording(until: string, text: string)

  datatype Item = Item(
    kind: Kind, area: string, text: string,
    first: string, listed: string, fixed: Option<string>, earlier: seq<Wording>)

  /** The wrapper of a bullet's text. */
  type Wrapper = string -> string

  // ---------------------------------------------------------------------
  // One item at one release
  // ---------------------------------------------------------------------

  function WithName(names: seq<string>, name: string): seq<string> {
    if name in names then names else names + [name]
  }

  /** `extended_order` for one item: the headings, the next release when it is
      asked for or named, the item's `fixed` release, and the release itself. */
  function ExtendedOrder(order: seq<string>, release: string, listed: string,
                         fixed: Option<string>): Option<seq<string>> {
    var next := NextRelease(order);
    if order != [] && next.None? then None
    else
      var wanted := next.Some? && (release == next.value || listed == next.value || fixed == next);
      var names := if wanted then WithName(order, next.value) else order;
      Some(WithName(if fixed.Some? then WithName(names, fixed.value) else names, release))
  }

  /** `applies`: whether the item is open at the release; nothing is the `ValueError`. */
  function Applies(item: Item, release: string, order: seq<string>): Option<bool> {
    if item.first !in order && Some(item.first) != NextRelease(order) then None
    else
      var names := ExtendedOrder(order, release, item.listed, item.fixed);
      if names.None? || item.listed !in names.value then None
      else
        var at := IndexOf(names.value, release);
        Some(IndexOf(names.value, item.listed) <= at
             && (item.fixed.None? || at < IndexOf(names.value, item.fixed.value)))
  }

  /** The releases that carry the item into `release`. */
  function Carried(first: string, release: string, order: seq<string>): Option<seq<string>> {
    var names := ExtendedOrder(order, release, first, None);
    if names.None? || first !in names.value then None
    else
      var i, j := IndexOf(names.value, first), IndexOf(names.value, release);
      Some(if i <= j then names.value[i..j] else [])
  }

  function Listing(names: seq<string>): string
    requires names != []
  {
    if |names| == 1 then names[0] else names[0] + ", " + Listing(names[1..])
  }

  predicate Consecutive(names: seq<string>, part: seq<string>)
    requires forall x :: x in part ==> x in names
  {
    forall k :: 0 < k < |part| ==> IndexOf(names, part[k]) == IndexOf(names, part[k - 1]) + 1
  }

  function CarriedSentence(first: string, release: string, order: seq<string>): Option<string> {
    var carried := Carried(first, release, order);
    if carried.None? then None
    else
      var c, n := carried.value, |carried.value|;
      var names := WithName(order, release);
      if n == 0 then Some("")
      else if n == 1 then Some(c[0] + " has the same problem.")
      else if exists x :: x in c && x !in names then None
      else if Consecutive(names, c) then Some(c[0] + " to " + c[n - 1] + " have the same problem.")
      else if n == 2 then Some(c[0] + " and " + c[1] + " have the same problem.")
      else Some(Listing(c[..n - 1]) + " and " + c[n - 1] + " have the same problem.")
  }

  /** `item_text`: the first earlier wording still in force, else the text. */
  function TextAt(earlier: seq<Wording>, text: string, release: string, order: seq<string>): Option<string> {
    if earlier == [] then Some(text)
    else
      var newer := NewerThan(order, earlier[0].until, release);
      if newer.None? then None
      else if newer.value then Some(earlier[0].text)
      else TextAt(earlier[1..], text, release, order)
  }

  /** The bullets of an item: one when it is open, none when it is not. */
  function Bullets(wrap: Wrapper, item: Item, release: string, order: seq<string>): Option<seq<string>> {
    var open := Applies(item, release, order);
    if open.None? then None
    else if !open.value then Some([])
    else
      var text := TextAt(item.earlier, item.text, release, order);
      var sentence := CarriedSentence(item.first, release, order);
      if text.None? || sentence.None? then None
      else
        var body := if item.kind.KnownIssue? then "**" + item.area + ":** " + text.value else text.value;
        Some([wrap(if sentence.value == "" then body else body + " " + sentence.value)])
  }

  // ---------------------------------------------------------------------
  // Rendering
  // ---------------------------------------------------------------------

  function Append(a: Option<seq<string>>, b: Option<seq<string>>): Option<seq<string>> {
    if a.Some? && b.Some? then Some(a.value + b.value) else None
  }

  function KindBullets(wrap: Wrapper, items: seq<Item>, kind: Kind, release: string,
                       order: seq<string>): Option<seq<string>> {
    if items == [] then Some([])
    else
      Append(if items[0].kind == kind then Bullets(wrap, items[0], release, order) else Some([]),
             KindBullets(wrap, items[1..], kind, release, order))
  }

  function NameOf(kind: Kind): string {
    if kind.KnownIssue? then "Known issues" else "Not in this release"
  }

  function Heading(kind: Kind): string {
    "### " + NameOf(kind)
  }

  function Block(kind: Kind, bullets: seq<string>): seq<string> {
    if bullets == [] then [] else [Heading(kind) + "\n\n" + Join(bullets, '\n') + "\n"]
  }

  function Rendered(wrap: Wrapper, items: seq<Item>, order: seq<string>, release: string): Option<string> {
    var gaps := KindBullets(wrap, items, NotInRelease, release, order);
    var issues := KindBullets(wrap, items, KnownIssue, release, order);
    if gaps.None? || issues.None? then None
    else Some(Join(Block(NotInRelease, gaps.value) + Block(KnownIssue, issues.value), '\n'))
  }

  /** `render_release`: the loops over the kinds and the items. */
  method RenderRelease(wrap: Wrapper, items: seq<Item>, order: seq<string>, release: string)
    returns (text: Option<string>)
    ensures text == Rendered(wrap, items, order, release)
  {
    var blocks := [];
    var kinds := [NotInRelease, KnownIssue];
    for k := 0 to 2
      invariant k == 0 ==> blocks == []
      invariant k >= 1 ==> KindBullets(wrap, items, NotInRelease, release, order).Some?
      invariant k == 2 ==> KindBullets(wrap, items, KnownIssue, release, order).Some?
      invariant k == 1 ==> blocks == Block(NotInRelease, KindBullets(wrap, items, NotInRelease, release, order).value)
      invariant k == 2 ==> blocks == Block(NotInRelease, KindBullets(wrap, items, NotInRelease, release, order).value)
                                     + Block(KnownIssue, KindBullets(wrap, items, KnownIssue, release, order).value)
    {
      var bullets := RenderKind(wrap, items, order, release, kinds[k]);
      if bullets.None? { return None; }
      if bullets.value != [] {
        blocks := blocks + [Heading(kinds[k]) + "\n\n" + Join(bullets.value, '\n') + "\n"];
      }
    }
    text := Some(Join(blocks, '\n'));
  }

  method RenderKind(wrap: Wrapper, items: seq<Item>, order: seq<string>, release: string, kind: Kind)
    returns (bullets: Option<seq<string>>)
    ensures bullets == KindBullets(wrap, items, kind, release, order)
  {
    hide Bullets, KindBullets, Append;
    var made: seq<string> := [];
    ghost var all := KindBullets(wrap, items, kind, release, order);
    AppendLaws([], Some([]), all);
    for i := 0 to |items|
      invariant Append(Some(made), KindBullets(wrap, items[i..], kind, release, order)) == all
    {
      var own := if items[i].kind == kind then Bullets(wrap, items[i], release, order) else Some([]);
      KindStep(wrap, items, i, kind, release, order);
      AppendLaws(made, own, KindBullets(wrap, items[i + 1..], kind, release, order));
      if own.None? { return None; }
      made := made + own.value;
    }
    KindDone(wrap, items[|items|..], kind, release, order);
    AppendLaws(made, Some([]), Some([]));
    return Some(made);
  }

  lemma AppendLaws(a: seq<string>, b: Option<seq<string>>, c: Option<seq<string>>)
    ensures b.Some? ==> Append(Some(a), Append(b, c)) == Append(Some(a + b.value), c)
    ensures b.None? ==> Append(Some(a), Append(b, c)) == None
    ensures Append(Some([]), c) == c && Append(Some(a), Some([])) == Some(a)
  {
    if b.Some? && c.Some? { assert a + (b.value + c.value) == a + b.value + c.value; }
    if c.Some? { assert [] + c.value == c.value; }
    assert a + [] == a;
  }

  lemma KindStep(wrap: Wrapper, items: seq<Item>, i: nat, kind: Kind, release: string, order: seq<string>)
    requires i < |items|
    ensures KindBullets(wrap, items[i..], kind, release, order)
         == Append(if items[i].kind == kind then Bullets(wrap, items[i], release, order) else Some([]),
                   KindBullets(wrap, items[i + 1..], kind, release, order))
  {
    assert items[i..][1..] == items[i + 1..];
  }

  lemma KindDone(wrap: Wrapper, items: seq<Item>, kind: Kind, release: string, order: seq<string>)
    requires items == []
    ensures KindBullets(wrap, items, kind, release, order) == Some([])
  {
  }

  // ---------------------------------------------------------------------
  // What the ledger reader guarantees
  // ---------------------------------------------------------------------

  /** The name is a heading or the release after the newest one. */
  predicate Named(order: seq<string>, name: string) {
    name in order || Some(name) == NextRelease(order)
  }

  function Place(order: seq<string>, name: string): nat {
    if name in order then IndexOf(order, name) else |order|
  }

  /** What `load_ledger` has checked of an item's release names. */
  predicate GoodItem(order: seq<string>, item: Item) {
    && Named(order, item.first) && Named(order, item.listed)
    && (item.fixed.Some? ==> Named(order, item.fixed.value))
    && (forall w :: w in item.earlier ==> Named(order, w.until))
  }

  /** A release that may be rendered: a heading, or the release after the newest one. */
  ghost predicate Renders(order: seq<string>, release: string) {
    Rising(order) && order != [] && Named(order, release)
  }

  lemma ExtendedPlaces(order: seq<string>, release: string, listed: string, fixed: Option<string>)
    requires Renders(order, release) && Named(order, listed) && (fixed.Some? ==> Named(order, fixed.value))
    ensures var names := ExtendedOrder(order, release, listed, fixed);
      && names.Some? && order <= names.value && listed in names.value && release in names.value
      && (fixed.Some? ==> fixed.value in names.value)
      && (release !in order ==> names.value == order + [release])
  {
    NextExtends(order);
  }

  lemma PlaceKept(order: seq<string>, names: seq<string>, name: string)
    requires order <= names && name in names
    ensures if name in order then IndexOf(names, name) == Place(order, name) else IndexOf(names, name) >= |order|
  {
    assert names == order + names[|order|..];
    if name in order {
      IndexPrefix(order, names[|order|..], name);
    } else {
      IndexBeyond(order, names[|order|..], name);
    }
  }

  /** In the order with the next release at its end every name has its place. */
  lemma PlaceAtEnd(order: seq<string>, next: string, name: string)
    requires Rising(order) && order != [] && Some(next) == NextRelease(order) && Named(order, name)
    ensures name in order + [next] && IndexOf(order + [next], name) == Place(order, name)
  {
    NextExtends(order);
    if name in order { IndexPrefix(order, [next], name); } else { IndexBeyond(order, [next], name); }
  }

  /** At every release that may be rendered an item is open exactly between its
      `listed` and `fixed` places. */
  lemma AppliesIff(item: Item, release: string, order: seq<string>)
    requires Renders(order, release) && GoodItem(order, item)
    ensures Applies(item, release, order)
         == Some(Place(order, item.listed) <= Place(order, release)
                 && (item.fixed.None? || Place(order, release) < Place(order, item.fixed.value)))
  {
    AppliesPlaces(item, release, order);
    hide ExtendedOrder, Rising, Place, Renders, GoodItem, Named, IndexOf;
    var names := ExtendedOrder(order, release, item.listed, item.fixed);
    assert Some(item.first) == NextRelease(order) || item.first in order by { FirstIsNamed(item, order); }
  }

  lemma FirstIsNamed(item: Item, order: seq<string>)
    requires GoodItem(order, item)
    ensures item.first in order || Some(item.first) == NextRelease(order)
  {
    hide NextRelease;
  }

  /** The comparisons in the extended order are those of the places. */
  lemma AppliesPlaces(item: Item, release: string, order: seq<string>)
    requires Renders(order, release) && GoodItem(order, item)
    ensures var names := ExtendedOrder(order, release, item.listed, item.fixed);
      && names.Some? && item.listed in names.value && release in names.value
      && (item.fixed.Some? ==> item.fixed.value in names.value)
      && var at := IndexOf(names.value, release);
        && (IndexOf(names.value, item.listed) <= at <==> Place(order, item.listed) <= Place(order, release))
        && (item.fixed.Some? ==>
              (at < IndexOf(names.value, item.fixed.value) <==> Place(order, release) < Place(order, item.fixed.value)))
  {
    ExtendedPlaces(order, release, item.listed, item.fixed);
    hide ExtendedOrder, Rising;
    var names := ExtendedOrder(order, release, item.listed, item.fixed).value;
    if release in order {
      PlaceKept(order, names, item.listed);
      PlaceKept(order, names, release);
      if item.fixed.Some? { PlaceKept(order, names, item.fixed.value); }
      IndexLess(order, release);
    } else {
      PlaceAtEnd(order, release, item.listed);
      PlaceAtEnd(order, release, release);
      if item.fixed.Some? { PlaceAtEnd(order, release, item.fixed.value); }
    }
  }

  lemma CarriedPlaces(first: string, release: string, order: seq<string>)
    requires Renders(order, release) && Named(order, first)
    ensures var names := ExtendedOrder(order, release, first, None);
      && names.Some? && order <= names.value && first in names.value && release in names.value
      && var i, j := IndexOf(names.value, first), IndexOf(names.value, release);
        && j == Place(order, release) <= |order|
        && (i <= j <==> Place(order, first) <= j) && (i <= j ==> i == Place(order, first))
  {
    ExtendedPlaces(order, release, first, None);
    hide ExtendedOrder, Rising;
    var names := ExtendedOrder(order, release, first, None).value;
    if release in order {
      PlaceKept(order, names, first);
      PlaceKept(order, names, release);
      IndexLess(order, release);
    } else {
      PlaceAtEnd(order, release, first);
      PlaceAtEnd(order, release, release);
    }
  }

  lemma CarriedIs(first: string, release: string, order: seq<string>)
    requires Renders(order, release) && Named(order, first)
    ensures Place(order, release) <= |order|
    ensures Carried(first, release, order)
         == Some(if Place(order, first) <= Place(order, release)
                 then order[Place(order, first)..Place(order, release)] else [])
  {
    hide ExtendedOrder, Rising, Place, Named, Renders, IndexOf;
    CarriedPlaces(first, release, order);
    var names := ExtendedOrder(order, release, first, None).value;
    var i, j := IndexOf(names, first), IndexOf(names, release);
    if i <= j { assert names[i..j] == order[i..j]; }
  }

  /** In a rising order the carried releases read as one range. */
  lemma SentenceIs(first: string, release: string, order: seq<string>)
    requires Renders(order, release) && Named(order, first)
    ensures Place(order, release) <= |order|
    ensures CarriedSentence(first, release, order)
         == Some(RangeSentence(order, Place(order, first), Place(order, release)))
  {
    hide Rising, Carried, Consecutive, Listing, Place, IndexOf, Named, Renders, WithName;
    CarriedIs(first, release, order);
    var i, j := Place(order, first), Place(order, release);
    if i + 1 < j {
      OrderRises(order, release);
      SliceNamed(order, release, i, j);
      assert order[i..j][0] == order[i] && order[i..j][j - i - 1] == order[j - 1];
    }
  }

  lemma OrderRises(order: seq<string>, release: string)
    requires Renders(order, release)
    ensures Rising(order)
  {
  }

  lemma SliceNamed(order: seq<string>, release: string, i: nat, j: nat)
    requires Rising(order) && i < j <= |order|
    ensures forall x :: x in order[i..j] ==> x in WithName(order, release)
    ensures Consecutive(WithName(order, release), order[i..j])
  {
    hide Rising, Consecutive;
    SliceConsecutive(order, i, j);
    if release !in order { StaysConsecutive(order, release, order[i..j]); }
  }

  lemma StaysConsecutive(order: seq<string>, more: string, part: seq<string>)
    requires (forall x :: x in part ==> x in order) && Consecutive(order, part)
    ensures (forall x :: x in part ==> x in order + [more]) && Consecutive(order + [more], part)
  {
    forall k | 0 <= k < |part| ensures part[k] in order && IndexOf(order + [more], part[k]) == IndexOf(order, part[k]) {
      IndexPrefix(order, [more], part[k]);
    }
  }

  lemma SliceConsecutive(order: seq<string>, i: nat, j: nat)
    requires Rising(order) && i < j <= |order|
    ensures forall x :: x in order[i..j] ==> x in order
    ensures Consecutive(order, order[i..j])
  {
    hide Rising;
    var c := order[i..j];
    assert forall x :: x in c ==> x in order;
    forall k | 0 < k < |c| ensures IndexOf(order, c[k]) == IndexOf(order, c[k - 1]) + 1 {
      RisingIndex(order, i + k);
      RisingIndex(order, i + k - 1);
    }
  }

  function RangeSentence(order: seq<string>, i: nat, j: nat): string
    requires j <= |order|
  {
    if i >= j then ""
    else if i + 1 == j then order[i] + " has the same problem."
    else order[i] + " to " + order[j - 1] + " have the same problem."
  }

  lemma RisingIndex(order: seq<string>, k: nat)
    requires Rising(order) && k < |order|
    ensures IndexOf(order, order[k]) == k
  {
    forall i | 0 <= i < k ensures order[i] != order[k] {
      KeyLessIrreflexive(VersionKey(order[k]).value);
    }
    IndexIs(order, k, order[k]);
  }

  // ---------------------------------------------------------------------
  // Published history is stable
  // ---------------------------------------------------------------------

  /** The edits a maintainer makes; each names the item by its index. */
  datatype Edit =
    | Cut
    | Fix(index: nat, fixed: string)
    | Reword(index: nat, until: string, text: string)
    | Add(index: nat, item: Item)

  datatype Ledger = Ledger(order: seq<string>, items: seq<Item>)

  ghost predicate Good(l: Ledger) {
    Rising(l.order) && l.order != [] && forall x :: x in l.items ==> GoodItem(l.order, x)
  }

  /** The name is, or is about to be, a release after `release`. */
  predicate After(order: seq<string>, name: string, release: string) {
    Named(order, name) && Place(order, name) > Place(order, release)
  }

  /** The edit concerns only releases after `release`. */
  ghost predicate Allowed(l: Ledger, release: string, e: Edit) {
    match e
    case Cut => true
    case Fix(i, fixed) => i < |l.items| && l.items[i].fixed.None? && After(l.order, fixed, release)
    case Reword(i, until, _) =>
      i < |l.items| && After(l.order, until, release)
      && forall w :: w in l.items[i].earlier ==> Place(l.order, w.until) < Place(l.order, until)
    case Add(i, item) => i <= |l.items| && GoodItem(l.order, item) && After(l.order, item.listed, release)
  }

  /** The order once the next release has its heading. */
  function CutOrder(order: seq<string>): seq<string> {
    var next := NextRelease(order);
    if next.Some? then order + [next.value] else order
  }

  function Reworded(item: Item, until: string, text: string): Item {
    item.(earlier := item.earlier + [Wording(until, item.text)], text := text)
  }

  ghost function Edited(l: Ledger, release: string, e: Edit): Ledger
    requires Allowed(l, release, e)
  {
    match e
    case Cut => l.(order := CutOrder(l.order))
    case Fix(i, fixed) => l.(items := l.items[i := l.items[i].(fixed := Some(fixed))])
    case Reword(i, until, text) => l.(items := l.items[i := Reworded(l.items[i], until, text)])
    case Add(i, item) => l.(items := l.items[..i] + [item] + l.items[i..])
  }

  lemma NameKept(order: seq<string>, name: string)
    requires Rising(order) && order != [] && Named(order, name)
    ensures var order' := CutOrder(order);
      name in order' && Place(order', name) == Place(order, name)
  {
    NextExtends(order);
    var next := NextRelease(order).value;
    if name in order { IndexPrefix(order, [next], name); } else { IndexBeyond(order, [next], name); }
  }

  lemma {:induction false} TextAtCut(earlier: seq<Wording>, text: string, release: string, order: seq<string>)
    requires Rising(order) && order != [] && release in order && forall w :: w in earlier ==> Named(order, w.until)
    ensures TextAt(earlier, text, release, CutOrder(order)) == TextAt(earlier, text, release, order)
  {
    hide Rising;
    if earlier != [] {
      assert earlier[0] in earlier;
      NameKept(order, earlier[0].until);
      NameKept(order, release);
      NextExtends(order);
      IndexLess(order, release);
      TextAtCut(earlier[1..], text, release, order);
    }
  }

  lemma IndexLess(order: seq<string>, name: string)
    requires name in order
    ensures IndexOf(order, name) < |order|
  {
  }

  /** Cutting the next release changes no bullet of a release already listed. */
  lemma BulletsCut(wrap: Wrapper, item: Item, release: string, order: seq<string>)
    requires Rising(order) && order != [] && release in order && GoodItem(order, item)
    ensures Bullets(wrap, item, release, CutOrder(order)) == Bullets(wrap, item, release, order)
  {
    hide Applies, CarriedSentence, TextAt, Rising, RangeSentence;
    var order' := CutOrder(order);
    NextExtends(order);
    CutGood(order, item);
    AppliesIff(item, release, order);
    AppliesIff(item, release, order');
    SentenceIs(item.first, release, order);
    SentenceIs(item.first, release, order');
    TextAtCut(item.earlier, item.text, release, order);
    NameKept(order, item.first);
    NameKept(order, item.listed);
    NameKept(order, release);
    if item.fixed.Some? { NameKept(order, item.fixed.value); }
    SameRange(order, order', Place(order, item.first), Place(order, release));
  }

  lemma SameRange(order: seq<string>, order': seq<string>, i: nat, j: nat)
    requires order <= order' && j <= |order|
    ensures RangeSentence(order, i, j) == RangeSentence(order', i, j)
  {
  }

  lemma CutGood(order: seq<string>, item: Item)
    requires Rising(order) && order != [] && GoodItem(order, item)
    ensures GoodItem(CutOrder(order), item)
  {
    NextExtends(order);
  }

  lemma BulletsFixed(wrap: Wrapper, item: Item, fixed: string, release: string, order: seq<string>)
    requires Rising(order) && release in order && GoodItem(order, item)
    requires item.fixed.None? && After(order, fixed, release)
    ensures Bullets(wrap, item.(fixed := Some(fixed)), release, order) == Bullets(wrap, item, release, order)
  {
    hide Applies, CarriedSentence, TextAt, Rising;
    AppliesIff(item, release, order);
    AppliesIff(item.(fixed := Some(fixed)), release, order);
  }

  lemma {:induction false} TextAtReworded(earlier: seq<Wording>, was: string, until: string, text: string,
                                          release: string, order: seq<string>)
    requires NewerThan(order, until, release) == Some(true)
    ensures TextAt(earlier + [Wording(until, was)], text, release, order) == TextAt(earlier, was, release, order)
  {
    hide NewerThan;
    if earlier != [] {
      assert (earlier + [Wording(until, was)])[1..] == earlier[1..] + [Wording(until, was)];
      TextAtReworded(earlier[1..], was, until, text, release, order);
    }
  }

  lemma AfterIsNewer(order: seq<string>, name: string, release: string)
    requires Rising(order) && order != [] && release in order && After(order, name, release)
    ensures NewerThan(order, name, release) == Some(true)
  {
    NextExtends(order);
  }

  lemma BulletsReworded(wrap: Wrapper, item: Item, until: string, text: string, release: string, order: seq<string>)
    requires Rising(order) && order != [] && release in order && GoodItem(order, item) && After(order, until, release)
    ensures Bullets(wrap, Reworded(item, until, text), release, order) == Bullets(wrap, item, release, order)
  {
    hide CarriedSentence, TextAt, Rising;
    AfterIsNewer(order, until, release);
    TextAtReworded(item.earlier, item.text, until, text, release, order);
  }

  lemma BulletsNotYet(wrap: Wrapper, item: Item, release: string, order: seq<string>)
    requires Rising(order) && release in order && GoodItem(order, item) && After(order, item.listed, release)
    ensures Bullets(wrap, item, release, order) == Some([])
  {
    hide Applies, CarriedSentence, TextAt, Rising;
    AppliesIff(item, release, order);
  }

  lemma {:induction false} KindReplaced(wrap: Wrapper, items: seq<Item>, i: nat, item: Item, kind: Kind,
                                        release: string, order: seq<string>)
    requires i < |items| && item.kind == items[i].kind
    requires Bullets(wrap, item, release, order) == Bullets(wrap, items[i], release, order)
    ensures KindBullets(wrap, items[i := item], kind, release, order) == KindBullets(wrap, items, kind, release, order)
  {
    hide Bullets;
    if i == 0 {
      assert items[0 := item][1..] == items[1..];
    } else {
      assert items[i := item][1..] == items[1..][i - 1 := item];
      KindReplaced(wrap, items[1..], i - 1, item, kind, release, order);
    }
  }

  lemma {:induction false} KindInserted(wrap: Wrapper, items: seq<Item>, i: nat, item: Item, kind: Kind,
                                        release: string, order: seq<string>)
    requires i <= |items| && Bullets(wrap, item, release, order) == Some([])
    ensures KindBullets(wrap, items[..i] + [item] + items[i..], kind, release, order)
         == KindBullets(wrap, items, kind, release, order)
  {
    hide Bullets;
    var longer := items[..i] + [item] + items[i..];
    if i == 0 {
      assert longer[1..] == items && longer[0] == item;
      AppendLaws([], Some([]), KindBullets(wrap, items, kind, release, order));
    } else {
      assert longer[1..] == items[1..][..i - 1] + [item] + items[1..][i - 1..];
      assert longer[0] == items[0];
      KindInserted(wrap, items[1..], i - 1, item, kind, release, order);
    }
  }

  lemma {:induction false} KindCut(wrap: Wrapper, items: seq<Item>, kind: Kind, release: string, order: seq<string>)
    requires Rising(order) && order != [] && release in order && forall x :: x in items ==> GoodItem(order, x)
    ensures KindBullets(wrap, items, kind, release, CutOrder(order))
         == KindBullets(wrap, items, kind, release, order)
  {
    hide Bullets, GoodItem, Rising;
    if items != [] {
      assert items[0] in items;
      BulletsCut(wrap, items[0], release, order);
      KindCut(wrap, items[1..], kind, release, order);
    }
  }

  /** One edit after a release leaves the release's rendering as published. */
  lemma EditKeepsRendering(wrap: Wrapper, l: Ledger, release: string, e: Edit)
    requires Good(l) && release in l.order && Allowed(l, release, e)
    ensures Rendered(wrap, Edited(l, release, e).items, Edited(l, release, e).order, release)
         == Rendered(wrap, l.items, l.order, release)
  {
    hide Bullets, KindBullets, Rising;
    NextExtends(l.order);
    forall kind: Kind
      ensures KindBullets(wrap, Edited(l, release, e).items, kind, release, Edited(l, release, e).order)
           == KindBullets(wrap, l.items, kind, release, l.order)
    {
      match e
      case Cut => KindCut(wrap, l.items, kind, release, l.order);
      case Fix(i, fixed) =>
        assert l.items[i] in l.items;
        BulletsFixed(wrap, l.items[i], fixed, release, l.order);
        KindReplaced(wrap, l.items, i, Edited(l, release, e).items[i], kind, release, l.order);
      case Reword(i, until, text) =>
        assert l.items[i] in l.items;
        BulletsReworded(wrap, l.items[i], until, text, release, l.order);
        KindReplaced(wrap, l.items, i, Edited(l, release, e).items[i], kind, release, l.order);
      case Add(i, item) =>
        BulletsNotYet(wrap, item, release, l.order);
        KindInserted(wrap, l.items, i, item, kind, release, l.order);
    }
  }

  lemma EditKeepsGood(l: Ledger, release: string, e: Edit)
    requires Good(l) && release in l.order && Allowed(l, release, e)
    ensures Good(Edited(l, release, e)) && release in Edited(l, release, e).order
  {
    NextExtends(l.order);
    var l' := Edited(l, release, e);
    forall x | x in l'.items ensures GoodItem(l'.order, x) {
      match e
      case Cut => CutGood(l.order, x);
      case Fix(i, fixed) => assert x in l.items || x == l'.items[i]; assert l.items[i] in l.items;
      case Reword(i, _, _) => assert x in l.items || x == l'.items[i]; assert l.items[i] in l.items;
      case Add(_, _) =>
    }
  }

  lemma NamedIsCompared(order: seq<string>, name: string, release: string)
    requires Renders(order, release) && Named(order, name)
    ensures NewerThan(order, name, release) == Some(Place(order, name) > Place(order, release))
  {
    NextExtends(order);
    if release in order {
      IndexLess(order, release);
    } else {
      assert (order + [release])[|order|] == release;
      var key := VersionKey(release).value;
      KeyLessIrreflexive(key);
      if name in order {
        IndexLess(order, name);
        if KeyLess(key, VersionKey(name).value) { KeyLessTransitive(key, VersionKey(name).value, key); }
      }
    }
  }

  /** How many of the wordings end before the release or at it. */
  function Outdated(earlier: seq<Wording>, release: string, order: seq<string>): (n: nat)
    ensures n <= |earlier| && (n < |earlier| ==> Place(order, earlier[n].until) > Place(order, release))
    ensures forall k :: 0 <= k < n ==> Place(order, earlier[k].until) <= Place(order, release)
  {
    if earlier == [] || Place(order, earlier[0].until) > Place(order, release) then 0
    else 1 + Outdated(earlier[1..], release, order)
  }

  /** The wording at a release is the first whose `until` stands behind it, else the text. */
  lemma {:induction false} TextAtIs(earlier: seq<Wording>, text: string, release: string, order: seq<string>)
    requires Renders(order, release) && forall w :: w in earlier ==> Named(order, w.until)
    ensures var n := Outdated(earlier, release, order);
      TextAt(earlier, text, release, order) == Some(if n < |earlier| then earlier[n].text else text)
  {
    hide Rising, NewerThan, Place;
    if earlier != [] {
      assert earlier[0] in earlier;
      NamedIsCompared(order, earlier[0].until, release);
      TextAtIs(earlier[1..], text, release, order);
    }
  }

  /** The wording of an item at the k-th place. */
  function WordingAt(item: Item, release: string, order: seq<string>): string {
    var n := Outdated(item.earlier, release, order);
    if n < |item.earlier| then item.earlier[n].text else item.text
  }

  /** Area, text and range put together. */
  function BulletText(item: Item, text: string, range: string): string {
    var area := if item.kind == NotInRelease then "" else "**" + item.area + ":** ";
    area + text + (if range == "" then "" else " " + range)
  }

  /** What is printed of an item: nothing outside its `listed` to `fixed` places;
      otherwise the area of a known issue, the wording, and the range of releases
      that carry it, if there is one. */
  function Printed(wrap: Wrapper, item: Item, release: string, order: seq<string>): seq<string>
    requires Place(order, release) <= |order|
  {
    var k := Place(order, release);
    if k < Place(order, item.listed) || (item.fixed.Some? && Place(order, item.fixed.value) <= k) then []
    else
      var range := RangeSentence(order, Place(order, item.first), k);
      [wrap(BulletText(item, WordingAt(item, release, order), range))]
  }

  /** The bullets of a good item at any release that may be rendered. */
  lemma BulletsAre(wrap: Wrapper, item: Item, release: string, order: seq<string>)
    requires Renders(order, release) && GoodItem(order, item)
    ensures Place(order, release) <= |order|
    ensures Bullets(wrap, item, release, order) == Some(Printed(wrap, item, release, order))
  {
    AppliesIff(item, release, order);
    SentenceIs(item.first, release, order);
    TextAtIs(item.earlier, item.text, release, order);
    hide *;
    var k := Place(order, release);
    BulletsFrom(wrap, item, release, order, WordingAt(item, release, order),
                RangeSentence(order, Place(order, item.first), k));
    WordingIs(item, release, order);
    PrintedIs(wrap, item, release, order);
  }

  lemma WordingIs(item: Item, release: string, order: seq<string>)
    ensures var n := Outdated(item.earlier, release, order);
      WordingAt(item, release, order) == if n < |item.earlier| then item.earlier[n].text else item.text
  {
  }

  lemma PrintedIs(wrap: Wrapper, item: Item, release: string, order: seq<string>)
    requires Place(order, release) <= |order|
    ensures var k := Place(order, release);
      var range := RangeSentence(order, Place(order, item.first), k);
      Printed(wrap, item, release, order)
      == if Place(order, item.listed) <= k && (item.fixed.None? || k < Place(order, item.fixed.value))
         then [wrap(BulletText(item, WordingAt(item, release, order), range))] else []
  {
    hide Place, RangeSentence, WordingAt, BulletText;
  }

  lemma BulletsFrom(wrap: Wrapper, item: Item, release: string, order: seq<string>, text: string, range: string)
    requires Applies(item, release, order).Some?
    requires TextAt(item.earlier, item.text, release, order) == Some(text)
    requires CarriedSentence(item.first, release, order) == Some(range)
    ensures Bullets(wrap, item, release, order)
         == Some(if Applies(item, release, order).value then [wrap(BulletText(item, text, range))] else [])
  {
    hide Applies, TextAt, CarriedSentence;
    var body := if item.kind.KnownIssue? then "**" + item.area + ":** " + text else text;
    assert BulletText(item, text, range) == if range == "" then body else body + " " + range;
  }

  /** The bullets of one kind, in the order of the ledger. */
  function PrintedKind(wrap: Wrapper, items: seq<Item>, kind: Kind, release: string, order: seq<string>): seq<string>
    requires Place(order, release) <= |order|
  {
    if items == [] then []
    else
      (if items[0].kind == kind then Printed(wrap, items[0], release, order) else [])
      + PrintedKind(wrap, items[1..], kind, release, order)
  }

  lemma {:induction false} KindIs(wrap: Wrapper, items: seq<Item>, kind: Kind, release: string, order: seq<string>)
    requires Renders(order, release) && forall x :: x in items ==> GoodItem(order, x)
    ensures Place(order, release) <= |order|
    ensures KindBullets(wrap, items, kind, release, order) == Some(PrintedKind(wrap, items, kind, release, order))
  {
    hide Bullets, Printed, GoodItem, Renders, Place;
    if items == [] {
      PlaceWithin(order, release);
    } else {
      assert items[0] in items;
      BulletsAre(wrap, items[0], release, order);
      KindIs(wrap, items[1..], kind, release, order);
    }
  }

  lemma PlaceWithin(order: seq<string>, release: string)
    requires Renders(order, release)
    ensures Place(order, release) <= |order|
  {
    if release in order { IndexLess(order, release); }
  }

  /** The page: each heading that has bullets, an empty line, the bullets line by
      line, and an empty line between the blocks. */
  function Page(gaps: seq<string>, issues: seq<string>): string {
    (if gaps == [] then "" else "### Not in this release\n\n" + Join(gaps, '\n') + "\n")
    + (if gaps != [] && issues != [] then "\n" else "")
    + (if issues == [] then "" else "### Known issues\n\n" + Join(issues, '\n') + "\n")
  }

  /** A good ledger renders every heading and the release after the newest one, as
      the page of all its items' bullets. */
  lemma RenderedIs(wrap: Wrapper, l: Ledger, release: string)
    requires Good(l) && Named(l.order, release)
    ensures Place(l.order, release) <= |l.order|
    ensures Rendered(wrap, l.items, l.order, release)
         == Some(Page(PrintedKind(wrap, l.items, NotInRelease, release, l.order),
                      PrintedKind(wrap, l.items, KnownIssue, release, l.order)))
  {
    KindIs(wrap, l.items, NotInRelease, release, l.order);
    KindIs(wrap, l.items, KnownIssue, release, l.order);
    hide KindBullets, PrintedKind, Rising, GoodItem, Place;
    PageIs(PrintedKind(wrap, l.items, NotInRelease, release, l.order),
           PrintedKind(wrap, l.items, KnownIssue, release, l.order));
  }

  lemma BlockIs(kind: Kind, bullets: seq<string>)
    requires bullets != []
    ensures Block(kind, bullets)
         == [(if kind == KnownIssue then "### Known issues" else "### Not in this release")
             + "\n\n" + Join(bullets, '\n') + "\n"]
  {
    hide Join;
    assert Heading(NotInRelease) == "### Not in this release" && Heading(KnownIssue) == "### Known issues";
  }

  lemma JoinTwo(a: string, b: string)
    ensures Join([a], '\n') == a && Join([a, b], '\n') == a + "\n" + b && Join([], '\n') == ""
  {
    assert [a, b][1..] == [b];
  }

  lemma NoBlock(kind: Kind)
    ensures Block(kind, []) == []
  {
  }

  lemma PageIs(gaps: seq<string>, issues: seq<string>)
    ensures Join(Block(NotInRelease, gaps) + Block(KnownIssue, issues), '\n') == Page(gaps, issues)
  {
    hide Block, Join;
    var a := "### Not in this release" + "\n\n" + Join(gaps, '\n') + "\n";
    var b := "### Known issues" + "\n\n" + Join(issues, '\n') + "\n";
    JoinTwo(a, b);
    JoinTwo(b, a);
    if gaps == [] { NoBlock(NotInRelease); } else { BlockIs(NotInRelease, gaps); }
    if issues == [] { NoBlock(KnownIssue); } else { BlockIs(KnownIssue, issues); }
    PageParts(gaps, issues, a, b);
    assert [a] + [b] == [a, b] && [] + [b] == [b] && [a] + [] == [a];
  }

  lemma PageParts(gaps: seq<string>, issues: seq<string>, a: string, b: string)
    requires a == "### Not in this release" + "\n\n" + Join(gaps, '\n') + "\n"
    requires b == "### Known issues" + "\n\n" + Join(issues, '\n') + "\n"
    ensures Page(gaps, issues)
         == if gaps == [] then (if issues == [] then "" else b) else if issues == [] then a else a + "\n" + b
  {
    hide Join;
  }

  /** A good ledger renders every listed release. */
  lemma RenderedExists(wrap: Wrapper, l: Ledger, release: string)
    requires Good(l) && Named(l.order, release)
    ensures Rendered(wrap, l.items, l.order, release).Some?
  {
    RenderedIs(wrap, l, release);
  }

  /** A history of edits, each of which concerns only releases after `release`. */
  ghost predicate History(l: Ledger, release: string, edits: seq<Edit>, last: Ledger)
    decreases |edits|
  {
    if edits == [] then last == l
    else
      Allowed(l, release, edits[0]) && History(Edited(l, release, edits[0]), release, edits[1..], last)
  }

  /** Whatever is edited afterwards, a published release renders as it did. */
  lemma {:induction false} PublishedForEver(wrap: Wrapper, l: Ledger, release: string, edits: seq<Edit>, last: Ledger)
    requires Good(l) && release in l.order && History(l, release, edits, last)
    ensures Rendered(wrap, l.items, l.order, release).Some?
    ensures Rendered(wrap, last.items, last.order, release) == Rendered(wrap, l.items, l.order, release)
    ensures Good(last) && release in last.order
    decreases |edits|
  {
    hide Rendered, Good, Allowed;
    RenderedExists(wrap, l, release);
    if edits != [] {
      EditKeepsRendering(wrap, l, release, edits[0]);
      EditKeepsGood(l, release, edits[0]);
      PublishedForEver(wrap, Edited(l, release, edits[0]), release, edits[1..], last);
    }
  }
}

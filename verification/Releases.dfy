// Release names of the known-issues ledger: numeric keys, the name after the
// newest heading, and which of two releases is newer.
module Releases {
  import opened Options
  import opened Texts

  /** The leading digits of a chunk. */
  function Lead(s: string): (n: nat)
    ensures n <= |s| && (forall k :: 0 <= k < n ==> Digit(s[k])) && (n < |s| ==> !Digit(s[n]))
  {
    if s != [] && Digit(s[0]) then 1 + Lead(s[1..]) else 0
  }

  // ---------------------------------------------------------------------
  // Keys
  // ---------------------------------------------------------------------

  function KeyOf(chunks: seq<string>): Option<seq<nat>> {
    if chunks == [] then Some([])
    else
      var n := Lead(chunks[0]);
      var rest := KeyOf(chunks[1..]);
      if n == 0 || rest.None? then None else Some([Number(chunks[0][..n])] + rest.value)
  }

  /** `version_key`; nothing is the `ValueError` for a chunk without a number. */
  function VersionKey(version: string): Option<seq<nat>> {
    KeyOf(Split(version, '.'))
  }

  /** Tuples compare component by component, a prefix before the longer one. */
  predicate KeyLess(a: seq<nat>, b: seq<nat>) {
    b != [] && (a == [] || a[0] < b[0] || (a[0] == b[0] && KeyLess(a[1..], b[1..])))
  }

  lemma {:induction false} KeyLessTransitive(a: seq<nat>, b: seq<nat>, c: seq<nat>)
    requires KeyLess(a, b) && KeyLess(b, c)
    ensures KeyLess(a, c)
  {
    if a != [] && a[0] == b[0] == c[0] { KeyLessTransitive(a[1..], b[1..], c[1..]); }
  }

  lemma {:induction false} KeyLessIrreflexive(a: seq<nat>)
    ensures !KeyLess(a, a)
  {
    if a != [] { KeyLessIrreflexive(a[1..]); }
  }

  lemma {:induction false} KeyLessLast(init: seq<nat>, m: nat, n: nat)
    requires m < n
    ensures KeyLess(init + [m], init + [n])
  {
    if init != [] {
      assert (init + [m])[1..] == init[1..] + [m] && (init + [n])[1..] == init[1..] + [n];
      KeyLessLast(init[1..], m, n);
    }
  }

  lemma {:induction false} KeyOfAppend(chunks: seq<string>, last: string)
    requires KeyOf(chunks).Some? && Lead(last) > 0
    ensures KeyOf(chunks + [last]) == Some(KeyOf(chunks).value + [Number(last[..Lead(last)])])
  {
    if chunks == [] {
      assert chunks + [last] == [last] && [last][1..] == [];
      var end := [Number(last[..Lead(last)])];
      assert end + [] == [] + end;
    } else {
      assert (chunks + [last])[1..] == chunks[1..] + [last];
      KeyOfAppend(chunks[1..], last);
      var first, rest := Number(chunks[0][..Lead(chunks[0])]), KeyOf(chunks[1..]).value;
      var end := [Number(last[..Lead(last)])];
      assert [first] + (rest + end) == ([first] + rest) + end;
    }
  }

  lemma {:induction false} KeyOfPrefix(chunks: seq<string>, last: string)
    requires KeyOf(chunks + [last]).Some?
    ensures KeyOf(chunks).Some? && Lead(last) > 0
  {
    if chunks != [] {
      assert (chunks + [last])[1..] == chunks[1..] + [last];
      KeyOfPrefix(chunks[1..], last);
    }
  }

  /** `next_release`: the last number goes up by one, its suffix stays. */
  function NextRelease(order: seq<string>): Option<string> {
    if order == [] then None
    else
      var chunks := Split(order[|order| - 1], '.');
      var init, last := chunks[..|chunks| - 1], chunks[|chunks| - 1];
      var n := Lead(last);
      if n == 0 then None else Some(Join(init + [Decimal(Number(last[..n]) + 1) + last[n..]], '.'))
  }

  /** A component of a name: a number, and what stands behind its digits. */
  datatype Component = Component(number: nat, suffix: string)

  predicate GoodComponent(c: Component) {
    '.' !in c.suffix && (c.suffix == "" || !Digit(c.suffix[0]))
  }

  function Written(c: Component): string {
    Decimal(c.number) + c.suffix
  }

  function WrittenAll(parts: seq<Component>): (chunks: seq<string>)
    ensures |chunks| == |parts| && forall k :: 0 <= k < |parts| ==> chunks[k] == Written(parts[k])
  {
    seq(|parts|, k requires 0 <= k < |parts| => Written(parts[k]))
  }

  function Numbers(parts: seq<Component>): seq<nat> {
    seq(|parts|, k requires 0 <= k < |parts| => parts[k].number)
  }

  lemma WrittenReads(c: Component)
    requires GoodComponent(c)
    ensures '.' !in Written(c) && Lead(Written(c)) == |Decimal(c.number)| > 0
    ensures Number(Written(c)[..Lead(Written(c))]) == c.number && Written(c)[Lead(Written(c))..] == c.suffix
  {
    var digits := Decimal(c.number);
    LeadIs(Written(c), |digits|);
    assert Written(c)[..|digits|] == digits;
    NumberOfDecimal(c.number);
  }

  lemma {:induction false} KeyOfWritten(parts: seq<Component>)
    requires forall c :: c in parts ==> GoodComponent(c)
    ensures KeyOf(WrittenAll(parts)) == Some(Numbers(parts))
  {
    hide Written, Lead, Number, GoodComponent;
    if parts != [] {
      assert parts[0] in parts;
      WrittenReads(parts[0]);
      KeyOfWritten(parts[1..]);
      assert WrittenAll(parts)[1..] == WrittenAll(parts[1..]);
      assert Numbers(parts) == [parts[0].number] + Numbers(parts[1..]);
    }
  }

  /** A name of numbers, each with any suffix, has these numbers for its key. */
  lemma KeyWritten(parts: seq<Component>)
    requires parts != [] && forall c :: c in parts ==> GoodComponent(c)
    ensures VersionKey(Join(WrittenAll(parts), '.')) == Some(Numbers(parts))
  {
    hide Written, KeyOf, Numbers, Split, Join;
    var chunks := WrittenAll(parts);
    forall c | c in chunks ensures '.' !in c {
      var k :| 0 <= k < |chunks| && chunks[k] == c;
      assert parts[k] in parts;
      WrittenReads(parts[k]);
    }
    SplitJoined(chunks, '.');
    KeyOfWritten(parts);
  }

  /** The next release has the last number one higher and is the same otherwise. */
  lemma NextWritten(order: seq<string>, init: seq<string>, last: Component)
    requires GoodComponent(last) && forall c :: c in init ==> '.' !in c
    requires order != [] && order[|order| - 1] == Join(init + [Written(last)], '.')
    ensures NextRelease(order) == Some(Join(init + [Written(last.(number := last.number + 1))], '.'))
  {
    hide Split, Join, Lead, Number, Decimal;
    var chunks := init + [Written(last)];
    WrittenReads(last);
    SplitJoined(chunks, '.');
    assert chunks[..|chunks| - 1] == init;
  }

  lemma {:induction false} LeadIs(s: string, n: nat)
    requires n <= |s| && (forall k :: 0 <= k < n ==> Digit(s[k])) && (n < |s| ==> !Digit(s[n]))
    ensures Lead(s) == n
  {
    if n > 0 {
      assert Digit(s[0]);
      LeadIs(s[1..], n - 1);
    }
  }

  /** The next release has a larger key than the newest heading. */
  lemma NextIsNewer(order: seq<string>)
    requires order != [] && VersionKey(order[|order| - 1]).Some?
    ensures NextRelease(order).Some?
    ensures VersionKey(NextRelease(order).value).Some?
    ensures KeyLess(VersionKey(order[|order| - 1]).value, VersionKey(NextRelease(order).value).value)
  {
    hide KeyOf, Lead, Number, Decimal, Split, Join, KeyLess;
    var newest := order[|order| - 1];
    var chunks := Split(newest, '.');
    var init, last := chunks[..|chunks| - 1], chunks[|chunks| - 1];
    assert chunks == init + [last];
    KeyOfPrefix(init, last);
    var n := Lead(last);
    var bumped := Decimal(Number(last[..n]) + 1) + last[n..];
    ChunksAreFree(newest, '.');
    assert last in chunks;
    assert '.' !in bumped;
    assert forall c :: c in init + [bumped] ==> c in chunks || c == bumped;
    SplitJoined(init + [bumped], '.');
    BumpedNumber(last, n);
    KeyOfAppend(init, last);
    KeyOfAppend(init, bumped);
    KeyLessLast(KeyOf(init).value, Number(last[..n]), Number(last[..n]) + 1);
  }

  lemma BumpedNumber(last: string, n: nat)
    requires n == Lead(last) > 0
    ensures var bumped := Decimal(Number(last[..n]) + 1) + last[n..];
      Lead(bumped) > 0 && Number(bumped[..Lead(bumped)]) == Number(last[..n]) + 1
  {
    var digits := Decimal(Number(last[..n]) + 1);
    var bumped := digits + last[n..];
    LeadIs(bumped, |digits|);
    assert bumped[..|digits|] == digits;
    NumberOfDecimal(Number(last[..n]) + 1);
  }

  // ---------------------------------------------------------------------
  // Orders
  // ---------------------------------------------------------------------

  function IndexOf(names: seq<string>, name: string): (i: nat)
    requires name in names
    ensures i < |names| && names[i] == name && name !in names[..i]
  {
    if names[0] == name then 0
    else
      var i := 1 + IndexOf(names[1..], name);
      assert names[..i] == [names[0]] + names[1..][..i - 1];
      i
  }

  lemma {:induction false} IndexIs(names: seq<string>, i: nat, name: string)
    requires i < |names| && names[i] == name && name !in names[..i]
    ensures IndexOf(names, name) == i
  {
    if i > 0 {
      assert names[..i][0] == names[0];
      assert names[1..][..i - 1] == names[..i][1..];
      IndexIs(names[1..], i - 1, name);
    }
  }

  lemma IndexPrefix(names: seq<string>, more: seq<string>, name: string)
    requires name in names
    ensures IndexOf(names + more, name) == IndexOf(names, name)
  {
    var i := IndexOf(names, name);
    assert (names + more)[..i] == names[..i];
    IndexIs(names + more, i, name);
  }

  lemma IndexBeyond(names: seq<string>, more: seq<string>, name: string)
    requires name !in names && name in more
    ensures IndexOf(names + more, name) == |names| + IndexOf(more, name)
  {
    var i := |names| + IndexOf(more, name);
    assert (names + more)[..i] == names + more[..i - |names|];
    IndexIs(names + more, i, name);
  }

  /** Every heading has a key, and the keys rise. */
  ghost predicate Rising(order: seq<string>) {
    && (forall i :: 0 <= i < |order| ==> VersionKey(order[i]).Some?)
    && (forall i, j :: 0 <= i < j < |order| ==> KeyLess(VersionKey(order[i]).value, VersionKey(order[j]).value))
  }

  /** `newer_than`: by position when both are listed, else by key. */
  function NewerThan(names: seq<string>, later: string, earlier: string): Option<bool> {
    if later in names && earlier in names then Some(IndexOf(names, later) > IndexOf(names, earlier))
    else
      var a, b := VersionKey(later), VersionKey(earlier);
      if a.Some? && b.Some? then Some(KeyLess(b.value, a.value)) else None
  }

  /** In a rising order the two rules agree on every pair of headings. */
  lemma NewerThanIsKeyOrder(order: seq<string>, later: string, earlier: string)
    requires Rising(order) && later in order && earlier in order
    ensures NewerThan(order, later, earlier)
         == Some(KeyLess(VersionKey(earlier).value, VersionKey(later).value))
  {
    var i, j := IndexOf(order, later), IndexOf(order, earlier);
    var a, b := VersionKey(later).value, VersionKey(earlier).value;
    KeyLessIrreflexive(a);
    if i < j && KeyLess(b, a) { KeyLessTransitive(a, b, a); }
  }

  /** The next release is not yet a heading, is newer than every heading, and
      keeps the order rising when it becomes one. */
  lemma NextExtends(order: seq<string>)
    requires Rising(order) && order != []
    ensures NextRelease(order).Some?
    ensures var next := NextRelease(order).value;
      && next !in order && Rising(order + [next])
      && forall x :: x in order ==> NewerThan(order, next, x) == Some(true)
  {
    NextIsNewer(order);
    var next := NextRelease(order).value;
    var newest, key := VersionKey(order[|order| - 1]).value, VersionKey(next).value;
    forall i | 0 <= i < |order| ensures KeyLess(VersionKey(order[i]).value, key) {
      if i < |order| - 1 { KeyLessTransitive(VersionKey(order[i]).value, newest, key); }
    }
    KeyLessIrreflexive(key);
    assert next !in order;
  }
}

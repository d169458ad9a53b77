// The attribute reader of the lint ratchet: `allow(...)`, `expect(...)` and
// `cfg_attr(...)` to any depth, on text whose comments and strings are blanked.
// The methods are proved against functions of the text, and the functions
// against a grammar of attributes.
module Suppressions {
  import opened Options
  import Texts
  import opened Trimming
  import opened Canonical
  import opened Brackets

  /** The errors a scan records; each fails the check. */
  datatype Problem = BadItem(raw: string) | UnbalancedCall(keyword: string)

  datatype Found = Found(lints: seq<string>, problems: seq<Problem>)

  function Both(a: Found, b: Found): Found {
    Found(a.lints + b.lints, a.problems + b.problems)
  }

  const NOTHING := Found([], [])

  // ---------------------------------------------------------------------
  // Library calls on strings
  // ---------------------------------------------------------------------

  /** `str.strip`. */
  function Strip(u: Classes, s: string): string {
    TrimRight(u.space, TrimLeft(u.space, s))
  }

  predicate StartsWith(s: string, pat: string) {
    |pat| <= |s| && s[..|pat|] == pat
  }

  /** `reason\s*=`, at the start. */
  predicate IsReason(u: Classes, s: string) {
    StartsWith(s, "reason") && Begins(TrimLeft(u.space, s[6..]), '=')
  }

  /** Whitespace around `::` removed, leftmost first. */
  function CollapseColons(u: Classes, s: string): string
    decreases |s|
  {
    if s == [] then ""
    else
      var rest := TrimLeft(u.space, s);
      if StartsWith(rest, "::") then "::" + CollapseColons(u, TrimLeft(u.space, rest[2..]))
      else [s[0]] + CollapseColons(u, s[1..])
  }

  predicate IdPart(c: char) {
    IdStart(c) || Texts.Digit(c)
  }

  function IdLength(s: string): (n: nat)
    ensures n <= |s| && (forall k :: 0 <= k < n ==> IdPart(s[k])) && (n < |s| ==> !IdPart(s[n]))
  {
    if s != [] && IdPart(s[0]) then 1 + IdLength(s[1..]) else 0
  }

  /** `LINT_RE`: identifiers joined by `::`, to the end. */
  predicate IsLint(s: string)
    decreases |s|
  {
    && s != [] && IdStart(s[0])
    && var n := IdLength(s);
      n == |s| || (StartsWith(s[n..], "::") && IsLint(s[n + 2..]))
  }

  // ---------------------------------------------------------------------
  // What the reader computes
  // ---------------------------------------------------------------------

  datatype Verdict = Blank | Reason | Lint(path: string) | Bad(raw: string)

  /** What one comma-separated argument of `allow`/`expect` is. */
  function Judge(u: Classes, part: string): Verdict {
    var raw := Strip(u, part);
    if raw == "" then Blank
    else if IsReason(u, raw) then Reason
    else if IsLint(CollapseColons(u, raw)) then Lint(CollapseColons(u, raw))
    else Bad(raw)
  }

  function VerdictFound(v: Verdict): Found {
    match v
    case Lint(path) => Found([path], [])
    case Bad(raw) => Found([], [BadItem(raw)])
    case _ => NOTHING
  }

  function ArgsFound(u: Classes, parts: seq<string>): Found {
    if parts == [] then NOTHING
    else Both(VerdictFound(Judge(u, parts[0])), ArgsFound(u, parts[1..]))
  }

  /** The text behind a keyword, when the keyword is not the start of a longer word. */
  function AfterHead(s: string, keyword: string): Option<string> {
    if StartsWith(s, keyword) && !(|keyword| < |s| && IdPart(s[|keyword|])) then Some(s[|keyword|..]) else None
  }

  /** A keyword is found exactly before text that does not go on with a letter, a
      digit or an underscore. */
  lemma AfterHeadIff(s: string, keyword: string, tail: string)
    ensures AfterHead(s, keyword) == Some(tail) <==>
      && s == keyword + tail
      && (tail == "" || !('a' <= tail[0] <= 'z' || 'A' <= tail[0] <= 'Z' || tail[0] == '_' || '0' <= tail[0] <= '9'))
  {
    if StartsWith(s, keyword) { assert s == keyword + s[|keyword|..]; }
    if s == keyword + tail { assert s[..|keyword|] == keyword && s[|keyword|..] == tail; }
  }

  /** The text between the parentheses at the start of `rest`. */
  function Inside(rest: string): Option<string> {
    if !Begins(rest, '(') then None
    else
      var n := Closes(['('], rest[1..]);
      if n.Some? then Some(rest[1..n.value]) else None
  }

  function CallFound(u: Classes, body: string, keyword: string): Option<Found> {
    var after := AfterHead(body, keyword);
    if after.None? then None
    else
      var rest := Strip(u, after.value);
      if !Begins(rest, '(') then Some(NOTHING)
      else
        var args := Inside(rest);
        if args.None? then Some(Found([], [UnbalancedCall(keyword)]))
        else Some(ArgsFound(u, Split(0, args.value)))
  }

  /** `allow(...)` or else `expect(...)`, if the text is one of the two. */
  function SuppressionFound(u: Classes, body: string): Option<Found> {
    var allow := CallFound(u, body, "allow");
    if allow.Some? then allow else CallFound(u, body, "expect")
  }

  /** The items of a `cfg_attr(...)`: the predicate first. */
  function CfgItems(u: Classes, body: string): Option<seq<string>> {
    var after := AfterHead(body, "cfg_attr");
    if after.None? then None
    else
      var args := Inside(Strip(u, after.value));
      if args.Some? then Some(Split(0, args.value)) else None
  }

  /** `cfg_attr(` that is never closed. */
  predicate CfgUnbalanced(u: Classes, body: string) {
    var after := AfterHead(body, "cfg_attr");
    after.Some? && Begins(Strip(u, after.value), '(') && Inside(Strip(u, after.value)).None?
  }

  function AttributeFound(u: Classes, inner: string): Found
    requires Sane(u)
    decreases Solid(u, inner), 1, 0
  {
    var body := Strip(u, Canon(u, inner));
    var call := SuppressionFound(u, body);
    if call.Some? then call.value
    else if CfgUnbalanced(u, body) then Found([], [UnbalancedCall("cfg_attr")])
    else
      var items := CfgItems(u, body);
      if items.None? then NOTHING
      else
        CfgItemsSmaller(u, inner, items.value);
        ItemsFound(u, items.value[1..], Solid(u, inner))
  }

  function ItemsFound(u: Classes, items: seq<string>, bound: nat): Found
    requires Sane(u) && forall x :: x in items ==> Solid(u, x) < bound
    decreases bound, 0, |items|
  {
    if items == [] then NOTHING
    else
      assert items[0] in items;
      Both(ItemFound(u, items[0]), ItemsFound(u, items[1..], bound))
  }

  /** One item behind the predicate of a `cfg_attr`. */
  function ItemFound(u: Classes, part: string): Found
    requires Sane(u)
    decreases Solid(u, part), 2, 0
  {
    var item := Strip(u, part);
    StripKeeps(u, part);
    var call := SuppressionFound(u, item);
    if item == "" then NOTHING else if call.Some? then call.value else AttributeFound(u, item)
  }

  // The measure: characters that are not whitespace.

  lemma {:induction false} KeptConcat(u: Classes, s: string, t: string)
    ensures Solid(u, s + t) == Solid(u, s) + Solid(u, t)
  {
    if s == [] {
      assert s + t == t;
    } else {
      assert (s + t)[1..] == s[1..] + t;
      KeptConcat(u, s[1..], t);
    }
  }

  lemma {:induction false} TrimLeftKeeps(u: Classes, s: string)
    ensures Solid(u, TrimLeft(u.space, s)) == Solid(u, s)
  {
    if s != [] && u.space(s[0]) { TrimLeftKeeps(u, s[1..]); }
  }

  lemma {:induction false} TrimRightKeeps(u: Classes, s: string)
    ensures Solid(u, TrimRight(u.space, s)) == Solid(u, s)
  {
    if s != [] && u.space(s[|s| - 1]) {
      TrimRightKeeps(u, s[..|s| - 1]);
      KeptConcat(u, s[..|s| - 1], [s[|s| - 1]]);
      assert s[..|s| - 1] + [s[|s| - 1]] == s;
    }
  }

  lemma StripKeeps(u: Classes, s: string)
    ensures Solid(u, Strip(u, s)) == Solid(u, s)
  {
    TrimLeftKeeps(u, s);
    TrimRightKeeps(u, TrimLeft(u.space, s));
  }

  lemma {:induction false} DropFormatKeeps(u: Classes, s: string)
    ensures Solid(u, DropFormat(u, s)) <= Solid(u, s)
  {
    if s != [] {
      DropFormatKeeps(u, s[1..]);
      var d := DropFormat(u, s[1..]);
      assert DropFormat(u, s) == if u.format(s[0]) then d else [s[0]] + d;
      assert ([s[0]] + d)[1..] == d;
    }
  }

  lemma CanonKeeps(u: Classes, s: string)
    requires Sane(u)
    ensures Solid(u, Canon(u, s)) <= Solid(u, s)
  {
    hide Solid, DropFormat, StripRaw, Squeezed;
    var d := DropFormat(u, s);
    DropFormatKeeps(u, s);
    StrippedKeeps(u, false, d);
    SqueezedKeeps(u, false, StripRaw(u, false, d));
  }

  lemma {:induction false} PartsKept(u: Classes, parts: seq<string>)
    ensures forall x :: x in parts ==> Solid(u, x) <= Solid(u, Joined(parts))
  {
    if |parts| > 1 {
      PartsKept(u, parts[1..]);
      KeptConcat(u, parts[0] + ",", Joined(parts[1..]));
      KeptConcat(u, parts[0], ",");
      assert forall x :: x in parts ==> x == parts[0] || x in parts[1..];
    }
  }

  lemma KeptSlice(u: Classes, s: string, i: nat, j: nat)
    requires i <= j <= |s|
    ensures Solid(u, s[i..j]) <= Solid(u, s) - Solid(u, s[..i])
  {
    KeptConcat(u, s[..i], s[i..]);
    assert s[..i] + s[i..] == s;
    KeptConcat(u, s[i..j], s[j..]);
    assert s[i..j] + s[j..] == s[i..];
  }

  lemma CfgItemsSmaller(u: Classes, inner: string, items: seq<string>)
    requires Sane(u) && CfgItems(u, Strip(u, Canon(u, inner))) == Some(items)
    ensures items != [] && forall x :: x in items ==> Solid(u, x) < Solid(u, inner)
  {
    hide Solid, Canon, Closes, Split;
    var body := Strip(u, Canon(u, inner));
    CanonKeeps(u, inner);
    StripKeeps(u, Canon(u, inner));
    var after := AfterHead(body, "cfg_attr").value;
    assert after == body[8..|body|];
    KeptSlice(u, body, 8, |body|);
    var rest := Strip(u, after);
    StripKeeps(u, after);
    var args := Inside(rest).value;
    assert args == rest[1..|args| + 1];
    KeptSlice(u, rest, 1, |args| + 1);
    KeptOpener(u, rest);
    JoinedSplit(0, args);
    PartsKept(u, items);
  }

  lemma KeptOpener(u: Classes, rest: string)
    requires Sane(u) && Begins(rest, '(')
    ensures Solid(u, rest[..1]) == 1
  {
    assert rest[..1] == "(";
    assert Solid(u, ""[..]) == 0;
  }

  // ---------------------------------------------------------------------
  // The program
  // ---------------------------------------------------------------------

  method LintsInAllowOrExpect(u: Classes, args: string, problems: seq<Problem>)
    returns (found: seq<string>, problems': seq<Problem>)
    ensures var f := ArgsFound(u, Split(0, args));
      found == f.lints && problems' == problems + f.problems
  {
    hide Judge, Split, ArgsFound;
    var parts := SplitTopLevel(args);
    ghost var all := ArgsFound(u, parts);
    found, problems' := [], problems;
    for i := 0 to |parts|
      invariant found + ArgsFound(u, parts[i..]).lints == all.lints
      invariant problems' + ArgsFound(u, parts[i..]).problems == problems + all.problems
    {
      ArgsStep(u, parts, i);
      var v := Judge(u, parts[i]);
      if v.Lint? {
        found := found + [v.path];
      } else if v.Bad? {
        problems' := problems' + [BadItem(v.raw)];
      }
    }
    ArgsDone(u, parts[|parts|..]);
  }

  lemma ArgsStep(u: Classes, parts: seq<string>, i: nat)
    requires i < |parts|
    ensures ArgsFound(u, parts[i..]) == Both(VerdictFound(Judge(u, parts[i])), ArgsFound(u, parts[i + 1..]))
  {
    hide Judge;
    assert parts[i..][1..] == parts[i + 1..];
  }

  lemma ArgsDone(u: Classes, parts: seq<string>)
    requires parts == []
    ensures ArgsFound(u, parts) == NOTHING
  {
  }

  /** The closing index of the parenthesis `text` starts with, and the text inside. */
  method ParenthesizedArgs(text: string) returns (args: Option<string>)
    requires Begins(text, '(')
    ensures args == Inside(text)
  {
    var end := MatchBalanced(text, 0);
    args := if end.Some? then Some(text[1..end.value - 1]) else None;
  }

  method LintsInSuppressionCall(u: Classes, body: string, keyword: string, problems: seq<Problem>)
    returns (found: Option<seq<string>>, problems': seq<Problem>)
    ensures var f := CallFound(u, body, keyword);
      && (f.None? ==> found.None? && problems' == problems)
      && (f.Some? ==> found == Some(f.value.lints) && problems' == problems + f.value.problems)
  {
    hide Inside, ArgsFound, Split, Strip;
    problems' := problems;
    var head := AfterHead(body, keyword);
    if head.None? {
      return None, problems';
    }
    var rest := Strip(u, head.value);
    if !Begins(rest, '(') {
      return Some([]), problems';
    }
    var args := ParenthesizedArgs(rest);
    if args.None? {
      return Some([]), problems' + [UnbalancedCall(keyword)];
    }
    var lints;
    lints, problems' := LintsInAllowOrExpect(u, args.value, problems');
    found := Some(lints);
  }

  lemma InsideParentheses(rest: string)
    requires !Begins(rest, '(')
    ensures Inside(rest).None?
  {
  }

  /** The loop over the two keywords. */
  method LintsInSuppression(u: Classes, body: string, problems: seq<Problem>)
    returns (found: Option<seq<string>>, problems': seq<Problem>)
    ensures var f := SuppressionFound(u, body);
      && (f.None? ==> found.None? && problems' == problems)
      && (f.Some? ==> found == Some(f.value.lints) && problems' == problems + f.value.problems)
  {
    hide CallFound;
    found, problems' := LintsInSuppressionCall(u, body, "allow", problems);
    if found.None? {
      found, problems' := LintsInSuppressionCall(u, body, "expect", problems');
    }
  }

  method LintsInAttribute(u: Classes, inner: string, problems: seq<Problem>)
    returns (found: seq<string>, problems': seq<Problem>)
    requires Sane(u)
    ensures var f := AttributeFound(u, inner);
      found == f.lints && problems' == problems + f.problems
    decreases Solid(u, inner), 1
  {
    hide ItemsFound, SuppressionFound, Solid, Canon, Split, Inside, Strip;
    problems' := problems;
    var canonical := Canonicalize(u, inner);
    var body := Strip(u, canonical);
    var call;
    call, problems' := LintsInSuppression(u, body, problems');
    if call.Some? {
      return call.value, problems';
    }
    var head := AfterHead(body, "cfg_attr");
    if head.None? {
      return [], problems';
    }
    var rest := Strip(u, head.value);
    if !Begins(rest, '(') {
      InsideParentheses(rest);
      return [], problems';
    }
    var args := ParenthesizedArgs(rest);
    if args.None? {
      return [], problems' + [UnbalancedCall("cfg_attr")];
    }
    var items := SplitTopLevel(args.value);
    CfgItemsSmaller(u, inner, items);
    found, problems' := LintsInItems(u, items[1..], Solid(u, inner), problems');
  }

  /** The loop over the items behind the predicate. */
  method LintsInItems(u: Classes, items: seq<string>, ghost bound: nat, problems: seq<Problem>)
    returns (found: seq<string>, problems': seq<Problem>)
    requires Sane(u) && forall x :: x in items ==> Solid(u, x) < bound
    ensures var f := ItemsFound(u, items, bound);
      found == f.lints && problems' == problems + f.problems
    decreases bound, 0
  {
    hide ItemFound, Solid;
    found, problems' := [], problems;
    ghost var all := ItemsFound(u, items, bound);
    for i := 0 to |items|
      invariant found + ItemsFound(u, items[i..], bound).lints == all.lints
      invariant problems' + ItemsFound(u, items[i..], bound).problems == problems + all.problems
    {
      assert items[i..][1..] == items[i + 1..] && items[i] in items;
      var lints;
      lints, problems' := LintsInItem(u, items[i], problems');
      found := found + lints;
    }
  }

  method LintsInItem(u: Classes, part: string, problems: seq<Problem>)
    returns (found: seq<string>, problems': seq<Problem>)
    requires Sane(u)
    ensures var f := ItemFound(u, part);
      found == f.lints && problems' == problems + f.problems
    decreases Solid(u, part), 2
  {
    hide AttributeFound, SuppressionFound, Solid, Strip;
    StripKeeps(u, part);
    var item := Strip(u, part);
    if item == "" {
      return [], problems;
    }
    var call;
    call, problems' := LintsInSuppression(u, item, problems);
    if call.Some? {
      return call.value, problems';
    }
    found, problems' := LintsInAttribute(u, item, problems');
  }

  // ---------------------------------------------------------------------
  // What counts as a lint, and that no argument is passed over
  // ---------------------------------------------------------------------

  predicate Identifier(s: string) {
    s != [] && IdStart(s[0]) && forall c :: c in s ==> IdPart(c)
  }

  function PathText(names: seq<string>): string {
    if names == [] then "" else if |names| == 1 then names[0] else names[0] + "::" + PathText(names[1..])
  }

  lemma {:induction false} IdLengthIs(s: string, n: nat)
    requires n <= |s| && (forall k :: 0 <= k < n ==> IdPart(s[k])) && (n < |s| ==> !IdPart(s[n]))
    ensures IdLength(s) == n
  {
    if n > 0 {
      assert IdPart(s[0]);
      IdLengthIs(s[1..], n - 1);
    }
  }

  /** The identifier at the start, and what follows it. */
  lemma FirstName(s: string) returns (n: nat)
    requires IsLint(s)
    ensures n <= |s| && Identifier(s[..n])
    ensures n < |s| ==> n + 2 <= |s| && s == s[..n] + "::" + s[n + 2..] && IsLint(s[n + 2..])
  {
    hide IdPart;
    n := IdLength(s);
    assert n > 0 by { assert IdPart(s[0]); }
  }

  lemma {:induction false} LintNames(s: string) returns (names: seq<string>)
    requires IsLint(s)
    ensures names != [] && (forall x :: x in names ==> Identifier(x)) && PathText(names) == s
    decreases |s|
  {
    hide IsLint, Identifier;
    var n := FirstName(s);
    names := [s[..n]];
    if n < |s| {
      var rest := LintNames(s[n + 2..]);
      names := names + rest;
      assert names[1..] == rest;
    }
  }

  lemma {:induction false} NamesLint(names: seq<string>)
    requires names != [] && forall x :: x in names ==> Identifier(x)
    ensures IsLint(PathText(names))
  {
    assert names[0] in names;
    var s, first := PathText(names), names[0];
    IdLengthIs(s, |first|);
    if |names| > 1 {
      var rest := PathText(names[1..]);
      NamesLint(names[1..]);
      assert s == first + ("::" + rest);
      assert s[|first|..] == "::" + rest && s[|first| + 2..] == rest;
    }
  }

  /** The lint pattern accepts exactly identifiers joined by `::`. */
  lemma LintIff(s: string)
    ensures IsLint(s) <==>
      exists names :: names != [] && (forall x :: x in names ==> Identifier(x)) && PathText(names) == s
  {
    if IsLint(s) {
      var names := LintNames(s);
    }
    if names :| names != [] && (forall x :: x in names ==> Identifier(x)) && PathText(names) == s {
      NamesLint(names);
    }
  }

  function Skipped(u: Classes, parts: seq<string>): nat {
    if parts == [] then 0
    else (if Judge(u, parts[0]).Blank? || Judge(u, parts[0]).Reason? then 1 else 0) + Skipped(u, parts[1..])
  }

  /** Every argument is a lint, a recorded problem, a reason or a blank. */
  lemma {:induction false} ArgsAccounted(u: Classes, parts: seq<string>)
    ensures var f := ArgsFound(u, parts);
      && |f.lints| + |f.problems| + Skipped(u, parts) == |parts|
      && (forall p :: p in parts && Judge(u, p).Lint? ==> Judge(u, p).path in f.lints)
      && (forall p :: p in parts && Judge(u, p).Bad? ==> BadItem(Judge(u, p).raw) in f.problems)
      && (forall x :: x in f.lints ==> IsLint(x))
  {
    hide Judge;
    if parts != [] {
      ArgsAccounted(u, parts[1..]);
      assert forall p :: p in parts ==> p == parts[0] || p in parts[1..];
      JudgedLint(u, parts[0]);
    }
  }

  lemma JudgedLint(u: Classes, part: string)
    ensures Judge(u, part).Lint? ==> IsLint(Judge(u, part).path)
  {
  }
}

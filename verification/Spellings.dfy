// Plain spellings of the arguments of `allow` and `expect`: names joined by `::`
// with line breaks anywhere between them, and `reason =` before any text, are
// among the arguments the reader takes.
module Spellings {
  import opened Canonical
  import opened FixedTexts
  import opened Brackets
  import opened Suppressions
  import opened Trimming
  import opened AttributeGrammar

  ghost predicate Names(names: seq<string>) {
    names != [] && forall x :: x in names ==> Identifier(x)
  }

  /** Line breaks before and after a `::`. */
  datatype Gap = Gap(before: nat, after: nat)

  function Colons(g: Gap): string {
    Lines(g.before) + "::" + Lines(g.after)
  }

  /** The names, with one gap between each two. */
  function Spread(names: seq<string>, gaps: seq<Gap>): string
    requires names != [] && |gaps| == |names| - 1
  {
    if |names| == 1 then names[0] else names[0] + (Colons(gaps[0]) + Spread(names[1..], gaps[1..]))
  }

  // ---------------------------------------------------------------------
  // Names
  // ---------------------------------------------------------------------

  lemma NameChars(u: Classes, x: string)
    requires Sane(u) && Identifier(x)
    ensures x != "" && forall c :: c in x ==> ' ' < c < '\U{7F}' && c != '#' && c != ':' && c != ',' && !u.space(c)
    ensures forall c :: c in x ==> !Opener(c) && !Closing(c) && !u.format(c)
  {
    forall c | c in x ensures ' ' < c < '\U{7F}' {
      assert IdPart(c);
    }
    assert forall c :: c in x ==> IdPart(c);
  }

  lemma NameIsFixed(u: Classes, x: string)
    requires Sane(u) && Identifier(x)
    ensures Fixed(u, x) && Item(x) && x != "" && !u.space(x[0]) && !u.space(x[|x| - 1])
  {
    NameChars(u, x);
    hide Identifier, Squeezed, HasRaw;
    NameFixed(u, false, x);
    PlainItem(x);
    assert x[0] in x && x[|x| - 1] in x;
  }

  lemma ColonParts(u: Classes)
    requires Sane(u)
    ensures Separator(u, ':') && !u.format(':') && Separator(u, '=') && !u.format('=') && Fixed(u, "")
    ensures !u.space(':') && !u.space('=')
  {
    AllLinesFixed(u, 0);
    assert Lines(0) == "";
  }

  lemma LinesItem(n: nat)
    ensures Item(Lines(n))
  {
    PlainItem(Lines(n));
  }

  /** A text that no whitespace borders, with what the reader asks of it. */
  ghost predicate Firm(u: Classes, s: string) {
    Fixed(u, s) && Item(s) && Trimmed(u, s)
  }

  lemma JoinFixed(u: Classes, x: string, g: Gap, rest: string)
    requires Sane(u) && Firm(u, x) && Firm(u, rest)
    ensures Firm(u, x + (Colons(g) + rest))
  {
    hide Fixed, Item, Sane, Separator;
    ColonParts(u);
    FixedBeforeLines(u, x, g.before);
    FixedAfterLines(u, g.after, rest);
    var front, back := x + Lines(g.before), Lines(g.after) + rest;
    FixedAround(u, "", ':', back);
    assert "" + [':'] + back == [':'] + back;
    FixedAround(u, front, ':', [':'] + back);
    var all := x + (Colons(g) + rest);
    assert all == front + [':'] + ([':'] + back);
    PlainItem(Colons(g));
    ItemAppend(Colons(g), rest);
    ItemAppend(x, Colons(g) + rest);
    assert all[0] == x[0] && all[|all| - 1] == rest[|rest| - 1];
  }

  lemma ItemAppend(s: string, t: string)
    requires Item(s) && Item(t)
    ensures Item(s + t)
  {
    hide Item, Whole;
    ItemIsWhole(s);
    ItemIsWhole(t);
    WholeAppend(s, t);
  }

  lemma {:induction false} SpreadSolid(u: Classes, names: seq<string>, gaps: seq<Gap>)
    requires Sane(u) && Names(names) && |gaps| == |names| - 1
    ensures Firm(u, Spread(names, gaps))
  {
    hide Fixed, Item, Sane, Identifier, Colons;
    assert names[0] in names;
    NameIsFixed(u, names[0]);
    if |names| > 1 {
      SpreadSolid(u, names[1..], gaps[1..]);
      JoinFixed(u, names[0], gaps[0], Spread(names[1..], gaps[1..]));
    }
  }

  // ---------------------------------------------------------------------
  // Reading the spaces away
  // ---------------------------------------------------------------------

  lemma {:induction false} CollapseName(u: Classes, x: string, rest: string)
    requires forall c :: c in x ==> !u.space(c) && c != ':'
    ensures CollapseColons(u, x + rest) == x + CollapseColons(u, rest)
    decreases |x|
  {
    hide CollapseColons;
    if x == "" {
      assert x + rest == rest && x + CollapseColons(u, rest) == CollapseColons(u, rest);
    } else {
      assert x[0] in x && forall c :: c in x[1..] ==> c in x;
      CollapseName(u, x[1..], rest);
      CollapseFirst(u, x + rest);
      assert (x + rest)[1..] == x[1..] + rest && x == [x[0]] + x[1..];
    }
  }

  lemma CollapseFirst(u: Classes, s: string)
    requires s != "" && !u.space(s[0]) && s[0] != ':'
    ensures CollapseColons(u, s) == [s[0]] + CollapseColons(u, s[1..])
  {
    if |s| > 1 { assert s[..2][0] == s[0]; }
  }

  lemma CollapseGap(u: Classes, g: Gap, rest: string)
    requires Sane(u) && rest != "" && !u.space(rest[0])
    ensures CollapseColons(u, Colons(g) + rest) == "::" + CollapseColons(u, rest)
  {
    hide TrimLeft, Sane;
    ColonParts(u);
    var behind := Lines(g.after) + rest;
    assert Colons(g) + rest == Lines(g.before) + ("::" + behind);
    StripLines(u, g.before, "::" + behind);
    StripLines(u, g.after, rest);
    assert ("::" + behind)[2..] == behind && ("::" + behind)[..2] == "::";
  }

  lemma {:induction false} CollapseSpread(u: Classes, names: seq<string>, gaps: seq<Gap>)
    requires Sane(u) && Names(names) && |gaps| == |names| - 1
    ensures CollapseColons(u, Spread(names, gaps)) == PathText(names)
  {
    hide CollapseColons, Sane, Identifier, Colons;
    assert names[0] in names;
    NameChars(u, names[0]);
    if |names| == 1 {
      CollapseName(u, names[0], "");
      assert names[0] + "" == names[0];
      NothingCollapsed(u);
    } else {
      var rest := Spread(names[1..], gaps[1..]);
      SpreadSolid(u, names[1..], gaps[1..]);
      CollapseName(u, names[0], Colons(gaps[0]) + rest);
      CollapseGap(u, gaps[0], rest);
      CollapseSpread(u, names[1..], gaps[1..]);
    }
  }

  lemma NothingCollapsed(u: Classes)
    ensures CollapseColons(u, "") == ""
  {
  }

  lemma PaddedFixed(u: Classes, before: nat, s: string, after: nat)
    requires Sane(u) && Firm(u, s)
    ensures Fixed(u, Lines(before) + s + Lines(after)) && Item(Lines(before) + s + Lines(after))
    ensures Strip(u, Lines(before) + s + Lines(after)) == s
  {
    hide Fixed, Item, Sane, Strip;
    FixedAfterLines(u, before, s);
    FixedBeforeLines(u, Lines(before) + s, after);
    LinesItem(before);
    LinesItem(after);
    ItemAppend(Lines(before), s);
    ItemAppend(Lines(before) + s, Lines(after));
    StripPadded(u, before, s, after);
  }

  /** A path of names is read as its lint, with line breaks before it, behind it
      and around every `::`. */
  lemma SpreadIsRead(u: Classes, names: seq<string>, gaps: seq<Gap>, before: nat, after: nat)
    requires Sane(u) && Names(names) && |gaps| == |names| - 1
    ensures GoodArg(u, LintArg(PathText(names), Lines(before) + Spread(names, gaps) + Lines(after)))
  {
    SpreadSolid(u, names, gaps);
    PaddedFixed(u, before, Spread(names, gaps), after);
    CollapseSpread(u, names, gaps);
    NamesLint(names);
    hide Fixed, Item, Sane, Strip, CollapseColons, IsLint, Identifier, Spread, PathText;
  }

  function NoGaps(n: nat): (gaps: seq<Gap>)
    ensures |gaps| == n
  {
    seq(n, _ => Gap(0, 0))
  }

  lemma {:induction false} SpreadClose(names: seq<string>)
    requires names != []
    ensures Spread(names, NoGaps(|names| - 1)) == PathText(names)
  {
    if |names| > 1 {
      assert NoGaps(|names| - 1)[1..] == NoGaps(|names| - 2);
      SpreadClose(names[1..]);
      assert Lines(0) + "::" + Lines(0) == "::";
    }
  }

  /** So every lint is read in its own spelling. */
  lemma LintIsRead(u: Classes, path: string)
    requires Sane(u) && IsLint(path)
    ensures GoodArg(u, LintArg(path, path))
  {
    hide GoodArg, Sane;
    LintIff(path);
    var names :| names != [] && (forall x :: x in names ==> Identifier(x)) && PathText(names) == path;
    hide *;
    hide Spread;
    assert Names(names) by { NamesAre(names); }
    SpreadClose(names);
    SpreadIsRead(u, names, NoGaps(|names| - 1), 0, 0);
    assert Lines(0) + path + Lines(0) == path;
  }

  lemma NamesAre(names: seq<string>)
    requires names != [] && forall x :: x in names ==> Identifier(x)
    ensures Names(names)
  {
  }

  // ---------------------------------------------------------------------
  // Reasons and blanks
  // ---------------------------------------------------------------------

  lemma {:induction false} TrimRightKeeps(u: Classes, s: string, k: nat)
    requires k < |s| && !u.space(s[k])
    ensures k < |TrimRight(u.space, s)|
  {
    if u.space(s[|s| - 1]) { TrimRightKeeps(u, s[..|s| - 1], k); }
  }

  /** `reason`, line breaks, `=` and any item. */
  function ReasonText(gap: nat, tail: string): string {
    "reason" + Lines(gap) + "=" + tail
  }

  lemma ReasonBegun(u: Classes, gap: nat, tail: string)
    requires Sane(u)
    ensures IsReason(u, ReasonText(gap, tail))
  {
    hide TrimLeft, Sane;
    ColonParts(u);
    var s, behind := ReasonText(gap, tail), "=" + tail;
    assert s == "reason" + (Lines(gap) + behind);
    assert s[..6] == "reason" && s[6..] == Lines(gap) + behind;
    StripLines(u, gap, behind);
  }

  lemma ReasonTrimmed(u: Classes, gap: nat, tail: string) returns (less: string)
    requires Sane(u)
    ensures TrimRight(u.space, ReasonText(gap, tail)) == ReasonText(gap, less)
  {
    ColonParts(u);
    var s, k := ReasonText(gap, tail), 6 + gap;
    assert s[k] == '=';
    TrimRightKeeps(u, s, k);
    hide TrimRight, Sane;
    var m := |TrimRight(u.space, s)|;
    less := tail[..m - k - 1];
    assert s[..m] == ReasonText(gap, less);
  }

  lemma ReasonStripped(u: Classes, before: nat, gap: nat, tail: string)
    requires Sane(u)
    ensures IsReason(u, Strip(u, Lines(before) + ReasonText(gap, tail)))
  {
    var s := ReasonText(gap, tail);
    assert s[0] == 'r' && !u.space('r');
    hide TrimLeft, TrimRight, Sane, IsReason, ReasonText;
    StripLines(u, before, s);
    var less := ReasonTrimmed(u, gap, tail);
    ReasonBegun(u, gap, less);
  }

  lemma HeadFirm(u: Classes)
    requires Sane(u)
    ensures Fixed(u, "reason") && Item("reason") && !u.space('r') && !u.space('n')
  {
    var x := "reason";
    assert Identifier(x) && x[0] == 'r' && x[|x| - 1] == 'n';
    NameIsFixed(u, x);
  }

  lemma HeadFixed(u: Classes, before: nat, gap: nat)
    requires Sane(u)
    ensures Fixed(u, Lines(before) + "reason" + Lines(gap)) && Item(Lines(before) + "reason" + Lines(gap))
  {
    HeadFirm(u);
    hide Fixed, Item, Sane;
    var x := "reason";
    assert x[0] == 'r' && x[|x| - 1] == 'n';
    FixedAfterLines(u, before, x);
    FixedBeforeLines(u, Lines(before) + x, gap);
    LinesItem(before);
    LinesItem(gap);
    ItemAppend(Lines(before), x);
    ItemAppend(Lines(before) + x, Lines(gap));
  }

  lemma ReasonFixed(u: Classes, before: nat, gap: nat, tail: string)
    requires Sane(u) && Fixed(u, tail) && Item(tail)
    ensures Fixed(u, Lines(before) + ReasonText(gap, tail)) && Item(Lines(before) + ReasonText(gap, tail))
  {
    hide Fixed, Item, Sane, Separator;
    ColonParts(u);
    HeadFixed(u, before, gap);
    var front := Lines(before) + "reason" + Lines(gap);
    FixedAround(u, front, '=', tail);
    PlainItem("=");
    ItemAppend(front, "=");
    ItemAppend(front + "=", tail);
    assert Lines(before) + ReasonText(gap, tail) == front + "=" + tail;
  }

  /** A reason is passed over, whatever item is given for it. */
  lemma ReasonIsRead(u: Classes, before: nat, gap: nat, tail: string)
    requires Sane(u) && Fixed(u, tail) && Item(tail)
    ensures GoodArg(u, ReasonArg(Lines(before) + ReasonText(gap, tail)))
  {
    ReasonFixed(u, before, gap, tail);
    ReasonStripped(u, before, gap, tail);
    hide Fixed, Item, Sane, Strip, IsReason, ReasonText;
  }

  /** So is nothing but line breaks. */
  lemma BlankIsRead(u: Classes, n: nat)
    requires Sane(u)
    ensures GoodArg(u, BlankArg(Lines(n)))
  {
    hide Fixed, Item, Sane, Strip;
    AllLinesFixed(u, n);
    LinesItem(n);
    StripAllLines(u, n);
  }

  // ---------------------------------------------------------------------
  // What cannot be read
  // ---------------------------------------------------------------------

  /** Printed characters without brackets, commas, colons and hashes. */
  ghost predicate PlainText(s: string) {
    s != "" && forall c :: c in s ==> ' ' < c < '\U{7F}' && c !in "#:,()[]{}"
  }

  lemma PlainFirm(u: Classes, s: string)
    requires Sane(u) && PlainText(s)
    ensures Firm(u, s) && forall c :: c in s ==> !u.space(c) && c != ':'
  {
    assert forall c :: c in s ==> c != '#' && c != ':' && c != ',' && !Opener(c) && !Closing(c);
    hide Squeezed, HasRaw;
    NameFixed(u, false, s);
    PlainItem(s);
    assert s[0] in s && s[|s| - 1] in s;
  }

  lemma PlainIsBad(u: Classes, raw: string)
    requires Sane(u) && PlainText(raw) && !IsLint(raw) && !IsReason(u, raw)
    ensures GoodArg(u, BadArg(raw, raw))
  {
    hide Fixed, Item, IsLint, IsReason, PlainText, CollapseColons, Strip, Sane;
    PlainFirm(u, raw);
    PlainCollapsed(u, raw);
    StripPadded(u, 0, raw, 0);
    assert Lines(0) + raw + Lines(0) == raw;
  }

  lemma PlainCollapsed(u: Classes, raw: string)
    requires forall c :: c in raw ==> !u.space(c) && c != ':'
    ensures CollapseColons(u, raw) == raw
  {
    hide CollapseColons;
    CollapseName(u, raw, "");
    NothingCollapsed(u);
    assert raw + "" == raw;
  }

  /** `allow` of this one argument. */
  function AllowBad(raw: string): Attr {
    Suppress(AllowWord, 0, [BadArg(raw, raw)], "")
  }

  lemma AllowBadGood(u: Classes, raw: string)
    requires Sane(u) && GoodArg(u, BadArg(raw, raw))
    ensures Good(u, AllowBad(raw))
  {
    ColonParts(u);
    PlainItem("");
    hide GoodArg, Fixed, Item, Sane;
  }

  lemma AllowBadText(raw: string)
    ensures AttrText(AllowBad(raw)) == "allow(" + raw + ")"
  {
    assert ArgTexts([BadArg(raw, raw)]) == [raw];
    var t := CallText("allow", 0, raw);
    assert t + "" == t && Joined([raw]) == raw;
    assert t == "allow(" + raw + ")";
  }

  lemma AllowBadContents(raw: string)
    ensures Contents(AllowBad(raw)) == Found([], [BadItem(raw)])
  {
    var args := [BadArg(raw, raw)];
    assert args[1..] == [] && args[0] == BadArg(raw, raw);
    assert ArgLints(args) == [] && ArgProblems(args) == [BadItem(raw)];
  }

  /** Plain text that is no lint and no reason is an argument that is reported. */
  lemma BadIsRead(u: Classes, raw: string)
    requires Sane(u) && PlainText(raw) && !IsLint(raw) && !IsReason(u, raw)
    ensures AttributeFound(u, "allow(" + raw + ")") == Found([], [BadItem(raw)])
  {
    hide *;
    hide AllowBad;
    PlainIsBad(u, raw);
    AllowBadGood(u, raw);
    AllowBadText(raw);
    AllowBadContents(raw);
    assert !AllowBad(raw).Open? by { AllowBadSuppresses(raw); }
    PrintedRead(u, AllowBad(raw));
  }

  lemma AllowBadSuppresses(raw: string)
    ensures AllowBad(raw).Suppress?
  {
  }

  /** `allow(not-a-lint)` and `allow($lint)` are reported. */
  lemma BadShows(u: Classes)
    requires Sane(u)
    ensures AttributeFound(u, "allow(" + "not-a-lint" + ")") == Found([], [BadItem("not-a-lint")])
    ensures AttributeFound(u, "allow(" + "$lint" + ")") == Found([], [BadItem("$lint")])
  {
    TheyArePlain();
    NoLints();
    NoReason(u, "not-a-lint");
    NoReason(u, "$lint");
    hide *;
    BadIsRead(u, "not-a-lint");
    BadIsRead(u, "$lint");
  }

  lemma TheyArePlain()
    ensures PlainText("not-a-lint") && PlainText("$lint") && "not-a-lint"[0] == 'n' && "$lint"[0] == '$'
  {
  }

  lemma NoReason(u: Classes, s: string)
    requires s != "" && s[0] != 'r'
    ensures !IsReason(u, s)
  {
    if |s| >= 6 { assert s[..6][0] == s[0] && "reason"[0] == 'r'; }
  }

  lemma NoLints()
    ensures !IsLint("not-a-lint") && !IsLint("$lint")
  {
    var s := "not-a-lint";
    assert s[3] == '-' && forall k :: 0 <= k < 3 ==> IdPart(s[k]);
    IdLengthIs(s, 3);
    assert s[3..][..2][0] == '-';
    assert "$lint"[0] == '$';
  }
}

// The attributes the ratchet has to read, as a grammar with a printer, and the
// proof that reading a printed attribute returns its lints and nothing else.
module AttributeGrammar {
  import opened Options
  import opened Canonical
  import opened FixedTexts
  import opened Brackets
  import opened Suppressions
  import opened Trimming

  /** One argument of `allow`/`expect`, in any spelling the reader takes for it,
      or one that it cannot read. */
  datatype Arg =
    | LintArg(path: string, text: string)
    | ReasonArg(text: string)
    | BlankArg(text: string)
    | BadArg(raw: string, text: string)

  datatype Directive = AllowWord | ExpectWord | CfgWord

  /** Gaps are counted in line breaks: the only whitespace the canonical form
      keeps beside punctuation. A call may have anything behind it; one that is
      never closed stands alone. */
  datatype Attr =
    | Bare(word: Directive, tail: string)
    | Suppress(word: Directive, gap: nat, args: seq<Arg>, behind: string)
    | CfgAttr(gap: nat, condition: string, entries: seq<Entry>, behind: string)
    | Open(word: Directive, gap: nat, rest: string)
    | Other(text: string)

  datatype Entry = Entry(before: nat, attr: Attr, after: nat) | NoEntry(lines: nat)

  function Keyword(w: Directive): string {
    match w
    case AllowWord => "allow"
    case ExpectWord => "expect"
    case CfgWord => "cfg_attr"
  }

  function ArgTexts(args: seq<Arg>): seq<string> {
    seq(|args|, i requires 0 <= i < |args| => args[i].text)
  }

  function AttrText(a: Attr): string {
    match a
    case Bare(word, tail) => Keyword(word) + tail
    case Suppress(word, gap, args, behind) => CallText(Keyword(word), gap, Joined(ArgTexts(args))) + behind
    case CfgAttr(gap, condition, entries, behind) =>
      CallText("cfg_attr", gap, Joined([condition] + EntryTexts(entries))) + behind
    case Open(word, gap, rest) => Keyword(word) + Lines(gap) + "(" + rest
    case Other(text) => text
  }

  /** A keyword, line breaks and a parenthesized text. */
  function CallText(keyword: string, gap: nat, inside: string): string {
    keyword + Lines(gap) + "(" + inside + ")"
  }

  function EntryText(e: Entry): string {
    match e
    case Entry(before, attr, after) => Lines(before) + AttrText(attr) + Lines(after)
    case NoEntry(lines) => Lines(lines)
  }

  function EntryTexts(entries: seq<Entry>): (r: seq<string>)
    ensures |r| == |entries|
  {
    if entries == [] then [] else [EntryText(entries[0])] + EntryTexts(entries[1..])
  }

  ghost predicate GoodArg(u: Classes, a: Arg) {
    && Item(a.text) && Fixed(u, a.text)
    && var raw := Strip(u, a.text);
      match a
      case LintArg(path, _) => raw != "" && IsLint(path) && CollapseColons(u, raw) == path
      case ReasonArg(_) => IsReason(u, raw)
      case BlankArg(_) => raw == ""
      case BadArg(bad, _) => raw == bad != "" && !IsReason(u, raw) && !IsLint(CollapseColons(u, raw))
  }

  ghost predicate Trimmed(u: Classes, s: string) {
    s != [] && !u.space(s[0]) && !u.space(s[|s| - 1])
  }

  /** No word goes on with the text, and it does not end in whitespace. */
  ghost predicate GoodTail(u: Classes, s: string) {
    s != [] ==> !IdPart(s[0]) && !u.space(s[|s| - 1])
  }

  /** Text behind a call: canonical and whole, not ending in whitespace. */
  ghost predicate GoodBehind(u: Classes, s: string) {
    Item(s) && Fixed(u, s) && (s != [] ==> !u.space(s[|s| - 1]))
  }

  ghost predicate Good(u: Classes, a: Attr) {
    match a
    case Bare(_, tail) =>
      GoodTail(u, tail) && GoodBehind(u, tail) && Fixed(u, AttrText(a)) && !Begins(Strip(u, tail), '(')
    case Suppress(word, _, args, behind) =>
      word != CfgWord && GoodBehind(u, behind) && forall x :: x in args ==> GoodArg(u, x)
    case CfgAttr(_, condition, entries, behind) =>
      Item(condition) && Fixed(u, condition) && GoodEntries(u, entries) && GoodBehind(u, behind)
    case Open(_, _, rest) =>
      Closes(['('], rest).None? && (rest != [] ==> !u.space(rest[|rest| - 1]))
    case Other(text) =>
      && Item(text) && Fixed(u, text) && Trimmed(u, text)
      && AfterHead(text, "allow").None? && AfterHead(text, "expect").None? && AfterHead(text, "cfg_attr").None?
  }

  ghost predicate GoodEntries(u: Classes, entries: seq<Entry>) {
    entries != [] ==> GoodEntry(u, entries[0]) && GoodEntries(u, entries[1..])
  }

  ghost predicate GoodEntry(u: Classes, e: Entry) {
    match e
    case Entry(_, attr, _) => Good(u, attr) && !attr.Open?
    case NoEntry(_) => true
  }

  /** The lints an attribute suppresses, in order. */
  function Lints(a: Attr): seq<string> {
    match a
    case Suppress(_, _, args, _) => ArgLints(args)
    case CfgAttr(_, _, entries, _) => EntryLints(entries)
    case _ => []
  }

  function ArgLints(args: seq<Arg>): seq<string> {
    if args == [] then [] else (if args[0].LintArg? then [args[0].path] else []) + ArgLints(args[1..])
  }

  function EntryLints(entries: seq<Entry>): seq<string> {
    if entries == [] then []
    else EntryOwnLints(entries[0]) + EntryLints(entries[1..])
  }

  function EntryOwnLints(e: Entry): seq<string> {
    match e
    case Entry(_, attr, _) => Lints(attr)
    case NoEntry(_) => []
  }

  /** What cannot be read of an attribute, in order. */
  function Problems(a: Attr): seq<Problem> {
    match a
    case Suppress(_, _, args, _) => ArgProblems(args)
    case CfgAttr(_, _, entries, _) => EntryProblems(entries)
    case Open(word, _, _) => [UnbalancedCall(Keyword(word))]
    case _ => []
  }

  function ArgProblems(args: seq<Arg>): seq<Problem> {
    if args == [] then [] else (if args[0].BadArg? then [BadItem(args[0].raw)] else []) + ArgProblems(args[1..])
  }

  function EntryProblems(entries: seq<Entry>): seq<Problem> {
    if entries == [] then []
    else EntryOwnProblems(entries[0]) + EntryProblems(entries[1..])
  }

  function EntryOwnProblems(e: Entry): seq<Problem> {
    match e
    case Entry(_, attr, _) => Problems(attr)
    case NoEntry(_) => []
  }

  /** All that the reader should find of an attribute. */
  function Contents(a: Attr): Found {
    Found(Lints(a), Problems(a))
  }

  // ---------------------------------------------------------------------
  // Arguments
  // ---------------------------------------------------------------------

  lemma {:induction false} TrimLeftHas(u: Classes, s: string, c: char)
    requires c in s && !u.space(c)
    ensures c in TrimLeft(u.space, s)
  {
    if u.space(s[0]) { TrimLeftHas(u, s[1..], c); }
  }

  lemma {:induction false} TrimLeftIsTail(u: Classes, s: string)
    ensures TrimLeft(u.space, s) == s[|s| - |TrimLeft(u.space, s)|..]
  {
    if s != [] && u.space(s[0]) { TrimLeftIsTail(u, s[1..]); }
  }

  lemma {:induction false} CollapseHas(u: Classes, s: string, c: char)
    requires c in s && !u.space(c) && c != ':'
    ensures c in CollapseColons(u, s)
    decreases |s|
  {
    var rest := TrimLeft(u.space, s);
    if StartsWith(rest, "::") {
      TrimLeftHas(u, s, c);
      assert rest == "::" + rest[2..];
      TrimLeftHas(u, rest[2..], c);
      CollapseHas(u, TrimLeft(u.space, rest[2..]), c);
    } else if s[0] != c {
      CollapseHas(u, s[1..], c);
    }
  }

  lemma {:induction false} LintChars(s: string)
    requires IsLint(s)
    ensures forall c :: c in s ==> IdPart(c) || c == ':'
    decreases |s|
  {
    var n := IdLength(s);
    assert s == s[..n] + s[n..];
    if n < |s| {
      LintChars(s[n + 2..]);
      assert s[n..] == "::" + s[n + 2..];
    }
  }

  lemma ReasonHasEquals(u: Classes, s: string)
    requires IsReason(u, s)
    ensures '=' in s
  {
    TrimLeftIsTail(u, s[6..]);
    var tail := s[6..];
    var rest := TrimLeft(u.space, tail);
    assert rest[0] == tail[|tail| - |rest|] == s[6 + |tail| - |rest|];
  }

  lemma ArgJudged(u: Classes, a: Arg)
    requires Sane(u) && GoodArg(u, a)
    ensures VerdictFound(Judge(u, a.text))
         == Found(if a.LintArg? then [a.path] else [], if a.BadArg? then [BadItem(a.raw)] else [])
  {
    hide Strip, IsLint, CollapseColons, IsReason, Item, Fixed;
    var raw := Strip(u, a.text);
    if a.LintArg? && IsReason(u, raw) {
      ReasonHasEquals(u, raw);
      assert !u.space('=');
      CollapseHas(u, raw, '=');
      LintChars(a.path);
      assert false;
    }
    if a.ReasonArg? {
      assert raw != "" by { ReasonHasEquals(u, raw); }
    }
  }

  lemma {:induction false} ArgsRead(u: Classes, args: seq<Arg>)
    requires Sane(u) && forall x :: x in args ==> GoodArg(u, x)
    ensures ArgsFound(u, ArgTexts(args)) == Found(ArgLints(args), ArgProblems(args))
  {
    hide GoodArg, Judge;
    if args != [] {
      assert args[0] in args;
      ArgJudged(u, args[0]);
      assert ArgTexts(args)[1..] == ArgTexts(args[1..]);
      ArgsRead(u, args[1..]);
    }
  }

  // ---------------------------------------------------------------------
  // Shapes of the printed text
  // ---------------------------------------------------------------------

  lemma {:induction false} StripLines(u: Classes, n: nat, s: string)
    requires Sane(u) && (s != [] ==> !u.space(s[0]))
    ensures TrimLeft(u.space, Lines(n) + s) == s
  {
    if n == 0 {
      assert Lines(n) + s == s;
    } else {
      assert (Lines(n) + s)[1..] == Lines(n - 1) + s;
      StripLines(u, n - 1, s);
    }
  }

  lemma {:induction false} StripLinesRight(u: Classes, s: string, n: nat)
    requires Sane(u) && (s != [] ==> !u.space(s[|s| - 1]))
    ensures TrimRight(u.space, s + Lines(n)) == s
  {
    if n == 0 {
      assert s + Lines(n) == s;
    } else {
      var all := s + Lines(n);
      assert all[..|all| - 1] == s + Lines(n - 1);
      assert u.space(all[|all| - 1]) by { assert u.space('\n'); }
      hide Sane, Word;
      StripLinesRight(u, s, n - 1);
    }
  }

  lemma StripPadded(u: Classes, before: nat, s: string, after: nat)
    requires Sane(u) && Trimmed(u, s)
    ensures Strip(u, Lines(before) + s + Lines(after)) == s
  {
    hide TrimLeft, TrimRight;
    assert Lines(before) + s + Lines(after) == Lines(before) + (s + Lines(after));
    StripLines(u, before, s + Lines(after));
    StripLinesRight(u, s, after);
  }

  lemma StripAllLines(u: Classes, n: nat)
    requires Sane(u)
    ensures Strip(u, Lines(n)) == ""
  {
    StripLines(u, n, "");
    assert Lines(n) + "" == Lines(n);
  }

  lemma WordChars(w: Directive)
    ensures Keyword(w) != [] && forall c :: c in Keyword(w) ==> IdStart(c)
  {
  }

  lemma BehindWord(u: Classes, w: Directive, tail: string)
    requires Sane(u) && (tail != [] ==> !u.space(tail[|tail| - 1]))
    ensures Trimmed(u, Keyword(w) + tail)
  {
    WordChars(w);
    var k, s := Keyword(w), Keyword(w) + tail;
    assert k[0] in k && k[|k| - 1] in k;
    assert forall c :: IdStart(c) ==> ' ' < c < '\U{7F}';
    assert s[0] == k[0];
  }

  /** What stands behind the keyword of an attribute. */
  function Behind(a: Attr): string
    requires !a.Other?
  {
    match a
    case Bare(_, tail) => tail
    case Suppress(_, gap, args, behind) => Lines(gap) + "(" + Joined(ArgTexts(args)) + ")" + behind
    case CfgAttr(gap, condition, entries, behind) =>
      Lines(gap) + "(" + Joined([condition] + EntryTexts(entries)) + ")" + behind
    case Open(_, gap, rest) => Lines(gap) + "(" + rest
  }

  function WordOf(a: Attr): Directive
    requires !a.Other?
  {
    if a.CfgAttr? then CfgWord else a.word
  }

  lemma CallIs(keyword: string, gap: nat, inside: string, behind: string)
    ensures CallText(keyword, gap, inside) + behind == keyword + (Lines(gap) + "(" + inside + ")" + behind)
  {
  }

  lemma AttrIsWord(a: Attr)
    requires !a.Other?
    ensures AttrText(a) == Keyword(WordOf(a)) + Behind(a)
  {
    hide Joined, ArgTexts, EntryTexts;
    match a
    case Bare(_, _) =>
    case Suppress(word, gap, args, behind) =>
      CallIs(Keyword(word), gap, Joined(ArgTexts(args)), behind);
    case CfgAttr(gap, condition, entries, behind) =>
      CallIs("cfg_attr", gap, Joined([condition] + EntryTexts(entries)), behind);
      WordsAre();
    case Open(word, gap, rest) =>
      assert Keyword(word) + Lines(gap) + "(" + rest == Keyword(word) + (Lines(gap) + "(" + rest);
  }

  lemma AttrTrimmed(u: Classes, a: Attr)
    requires Sane(u) && Good(u, a)
    ensures Trimmed(u, AttrText(a))
  {
    if a.Other? {
      hide Item, Fixed, AfterHead;
    } else {
      hide *;
      AttrIsWord(a);
      BehindEnds(u, a);
      BehindWord(u, WordOf(a), Behind(a));
    }
  }

  lemma BehindEnds(u: Classes, a: Attr)
    requires Sane(u) && Good(u, a) && !a.Other?
    ensures var s := Behind(a); s != [] ==> !u.space(s[|s| - 1]) && !IdPart(s[0])
    ensures !a.Bare? ==> Behind(a) != [] && (Behind(a)[0] == '\n' || Behind(a)[0] == '(')
  {
    hide Item, Fixed, Joined, EntryTexts, ArgTexts;
  }

  /** The reader finds the attribute's own keyword and no other. */
  lemma HeadOf(u: Classes, a: Attr)
    requires Sane(u) && Good(u, a) && !a.Other?
    ensures AfterHead(AttrText(a), Keyword(WordOf(a))) == Some(Behind(a))
    ensures forall w :: w != WordOf(a) ==> AfterHead(AttrText(a), Keyword(w)).None?
  {
    AttrIsWord(a);
    BehindEnds(u, a);
    hide Good, Behind, AttrText, WordOf;
    HeadOfWord(WordOf(a), Behind(a));
  }

  lemma HeadOfWord(w: Directive, tail: string)
    requires tail != [] ==> !IdPart(tail[0])
    ensures AfterHead(Keyword(w) + tail, Keyword(w)) == Some(tail)
    ensures forall v :: v != w ==> AfterHead(Keyword(w) + tail, Keyword(v)).None?
  {
    var k, s := Keyword(w), Keyword(w) + tail;
    assert s[..|k|] == k && s[|k|..] == tail;
    forall v | v != w ensures AfterHead(s, Keyword(v)).None? {
      assert Keyword(v)[0] != k[0];
      OtherHead(Keyword(v), k, tail);
    }
  }

  lemma CallStripped(u: Classes, gap: nat, rest: string)
    requires Sane(u) && (rest != [] ==> !u.space(rest[|rest| - 1]))
    ensures Strip(u, Lines(gap) + "(" + rest) == "(" + rest
  {
    hide Strip;
    var call := "(" + rest;
    assert Lines(gap) + "(" + rest == Lines(gap) + call + Lines(0);
    assert Trimmed(u, call);
    StripPadded(u, gap, call, 0);
  }

  lemma CallInside(u: Classes, gap: nat, inside: string, behind: string)
    requires Sane(u) && Whole(inside) && (behind != [] ==> !u.space(behind[|behind| - 1]))
    ensures var rest := Strip(u, Lines(gap) + "(" + inside + ")" + behind);
      Begins(rest, '(') && Inside(rest) == Some(inside)
  {
    hide Strip, Closes, Whole;
    var rest := inside + ")" + behind;
    assert Lines(gap) + "(" + inside + ")" + behind == Lines(gap) + "(" + rest;
    CallStripped(u, gap, rest);
    ParenthesesMatch(inside, behind);
    assert ("(" + rest)[1..] == rest && ("(" + rest)[1..|inside| + 1] == inside;
  }

  lemma OtherHead(keyword: string, other: string, rest: string)
    requires keyword != [] && other != [] && keyword[0] != other[0]
    ensures AfterHead(other + rest, keyword).None?
  {
  }

  lemma {:induction false} EntryTextsItems(u: Classes, entries: seq<Entry>)
    requires Sane(u) && GoodEntries(u, entries)
    ensures forall x :: x in EntryTexts(entries) ==> Item(x)
    decreases entries, 0
  {
    hide Item;
    if entries != [] {
      EntryTextsItems(u, entries[1..]);
      EntryItem(u, entries[0]);
    }
  }

  lemma EntryItem(u: Classes, e: Entry)
    requires Sane(u) && GoodEntry(u, e)
    ensures Item(EntryText(e))
    decreases e, 0
  {
    hide Item, Whole;
    match e
    case Entry(before, attr, after) =>
      AttrItem(u, attr);
      PlainItem(Lines(before));
      PlainItem(Lines(after));
      ItemIsWhole(AttrText(attr));
      WholeAppend(Lines(before), AttrText(attr));
      WholeAppend(Lines(before) + AttrText(attr), Lines(after));
    case NoEntry(lines) =>
      PlainItem(Lines(lines));
  }

  lemma CallItem(keyword: string, gap: nat, inside: string)
    requires Whole(inside) && forall c :: c in keyword ==> IdStart(c)
    ensures Item(CallText(keyword, gap, inside))
  {
    hide Item, Whole;
    var head, call := keyword + Lines(gap), "(" + inside + ")";
    PlainItem(head);
    ParenthesizedItem(inside);
    ItemIsWhole(call);
    WholeAppend(head, call);
    assert head + call == CallText(keyword, gap, inside);
  }

  lemma BehindItem(call: string, behind: string)
    requires Item(call) && Item(behind)
    ensures Item(call + behind)
  {
    hide Item, Whole;
    ItemIsWhole(call);
    ItemIsWhole(behind);
    WholeAppend(call, behind);
  }

  lemma WordItem(w: Directive, tail: string)
    requires Item(tail)
    ensures Item(Keyword(w) + tail)
  {
    hide Item;
    PlainItem(Keyword(w));
    BehindItem(Keyword(w), tail);
  }

  lemma {:induction false} AttrItem(u: Classes, a: Attr)
    requires Sane(u) && Good(u, a) && !a.Open?
    ensures Item(AttrText(a))
    decreases a, 1
  {
    hide Item, Whole, Fixed, CallText, Sane;
    match a
    case Bare(word, tail) =>
      WordItem(word, tail);
    case Suppress(word, gap, args, behind) =>
      ArgTextsItems(u, args);
      JoinedWhole(ArgTexts(args));
      WordChars(word);
      CallItem(Keyword(word), gap, Joined(ArgTexts(args)));
      BehindItem(CallText(Keyword(word), gap, Joined(ArgTexts(args))), behind);
    case CfgAttr(gap, condition, entries, behind) =>
      EntryTextsItems(u, entries);
      JoinedWhole([condition] + EntryTexts(entries));
      WordChars(CfgWord);
      CallItem("cfg_attr", gap, Joined([condition] + EntryTexts(entries)));
      BehindItem(CallText("cfg_attr", gap, Joined([condition] + EntryTexts(entries))), behind);
    case Other(text) =>
  }

  // ---------------------------------------------------------------------
  // The printed text is canonical
  // ---------------------------------------------------------------------

  lemma SeparatorsFixed(u: Classes, c: char)
    requires Sane(u) && (c == '(' || c == ')' || c == ',')
    ensures Separator(u, c) && !u.format(c)
  {
  }

  lemma {:induction false} JoinedFixed(u: Classes, parts: seq<string>)
    requires Sane(u) && forall p :: p in parts ==> Fixed(u, p)
    ensures Fixed(u, Joined(parts))
  {
    hide Fixed;
    if parts == [] {
      AllLinesFixed(u, 0);
      assert Lines(0) == "";
    } else {
      assert parts[0] in parts;
      if |parts| > 1 {
        JoinedFixed(u, parts[1..]);
        SeparatorsFixed(u, ',');
        FixedAround(u, parts[0], ',', Joined(parts[1..]));
      }
    }
  }

  lemma CallFixed(u: Classes, keyword: string, gap: nat, inside: string, behind: string)
    requires Sane(u) && Fixed(u, inside) && Fixed(u, behind)
    requires keyword != [] && forall c :: c in keyword ==> IdStart(c)
    ensures Fixed(u, CallText(keyword, gap, inside) + behind)
  {
    hide Fixed;
    WordFixed(u, keyword);
    var last := keyword[|keyword| - 1];
    assert last in keyword && ' ' < last < '\U{7F}';
    FixedBeforeLines(u, keyword, gap);
    SeparatorsFixed(u, '(');
    SeparatorsFixed(u, ')');
    FixedAround(u, keyword + Lines(gap), '(', inside);
    FixedAround(u, keyword + Lines(gap) + "(" + inside, ')', behind);
    assert CallText(keyword, gap, inside) + behind == keyword + Lines(gap) + "(" + inside + ")" + behind;
  }

  lemma WordFixed(u: Classes, s: string)
    requires Sane(u) && forall c :: c in s ==> IdStart(c)
    ensures Fixed(u, s)
  {
    NameFixed(u, false, s);
    forall c | c in s ensures !u.format(c) {
      assert ' ' < c < '\U{7F}';
    }
  }

  lemma EntryFixed(u: Classes, e: Entry)
    requires Sane(u) && GoodEntry(u, e)
    ensures Fixed(u, EntryText(e))
    decreases e, 0
  {
    hide Fixed;
    match e
    case Entry(before, attr, after) =>
      AttrFixed(u, attr);
      AttrTrimmed(u, attr);
      FixedAfterLines(u, before, AttrText(attr));
      FixedBeforeLines(u, Lines(before) + AttrText(attr), after);
    case NoEntry(lines) =>
      AllLinesFixed(u, lines);
  }

  lemma {:induction false} EntryTextsFixed(u: Classes, entries: seq<Entry>)
    requires Sane(u) && GoodEntries(u, entries)
    ensures forall x :: x in EntryTexts(entries) ==> Fixed(u, x)
    decreases entries, 0
  {
    hide Fixed;
    if entries != [] {
      EntryFixed(u, entries[0]);
      EntryTextsFixed(u, entries[1..]);
    }
  }

  lemma ArgTextsFixed(u: Classes, args: seq<Arg>)
    requires forall x :: x in args ==> GoodArg(u, x)
    ensures forall x :: x in ArgTexts(args) ==> Fixed(u, x)
  {
    forall x | x in ArgTexts(args) ensures Fixed(u, x) {
      var i :| 0 <= i < |args| && x == args[i].text;
      assert args[i] in args;
    }
  }

  lemma {:induction false} AttrFixed(u: Classes, a: Attr)
    requires Sane(u) && Good(u, a) && !a.Open?
    ensures Fixed(u, AttrText(a))
    decreases a, 1
  {
    hide Fixed, Item, CallText, Sane;
    match a
    case Bare(word, tail) =>
    case Suppress(word, gap, args, behind) =>
      ArgTextsFixed(u, args);
      JoinedFixed(u, ArgTexts(args));
      WordChars(word);
      CallFixed(u, Keyword(word), gap, Joined(ArgTexts(args)), behind);
    case CfgAttr(gap, condition, entries, behind) =>
      EntryTextsFixed(u, entries);
      JoinedFixed(u, [condition] + EntryTexts(entries));
      WordChars(CfgWord);
      CallFixed(u, "cfg_attr", gap, Joined([condition] + EntryTexts(entries)), behind);
    case Other(text) =>
  }

  // ---------------------------------------------------------------------
  // Reading
  // ---------------------------------------------------------------------

  /** The keyword is not followed by a call. */
  lemma BareRead(u: Classes, a: Attr)
    requires Sane(u) && Good(u, a) && a.Bare?
    ensures a.word != CfgWord ==> SuppressionFound(u, AttrText(a)) == Some(NOTHING)
    ensures a.word == CfgWord ==>
      var s := AttrText(a);
      SuppressionFound(u, s).None? && !CfgUnbalanced(u, s) && CfgItems(u, s).None?
  {
    HeadOf(u, a);
    hide Fixed, Item, AfterHead, AttrText, Strip, ArgsFound, Inside, Sane;
    WordsAre();
    InsideParentheses(Strip(u, a.tail));
  }

  lemma WordsAre()
    ensures Keyword(AllowWord) == "allow" && Keyword(ExpectWord) == "expect" && Keyword(CfgWord) == "cfg_attr"
  {
  }

  /** A call that is never closed is a problem. */
  lemma OpenRead(u: Classes, a: Attr)
    requires Sane(u) && Good(u, a) && a.Open?
    ensures a.word != CfgWord ==> SuppressionFound(u, AttrText(a)) == Some(Contents(a))
    ensures a.word == CfgWord ==> SuppressionFound(u, AttrText(a)).None? && CfgUnbalanced(u, AttrText(a))
  {
    HeadOf(u, a);
    CallStripped(u, a.gap, a.rest);
    assert ("(" + a.rest)[1..] == a.rest;
    hide Fixed, Item, AfterHead, AttrText, Strip, ArgsFound, Closes, Sane;
    WordsAre();
  }

  lemma CallRead(u: Classes, a: Attr)
    requires Sane(u) && Good(u, a) && a.Suppress?
    ensures SuppressionFound(u, AttrText(a)) == Some(Contents(a))
  {
    HeadOf(u, a);
    hide Strip, Split, Inside, Fixed, Item, ArgsFound, GoodArg, AttrText, AfterHead, ArgLints, ArgProblems, Sane;
    WordsAre();
    ArgTextsItems(u, a.args);
    JoinedWhole(ArgTexts(a.args));
    CallInside(u, a.gap, Joined(ArgTexts(a.args)), a.behind);
    ArgsSplitRead(u, a.args);
  }

  lemma SuppressRead(u: Classes, a: Attr)
    requires Sane(u) && Good(u, a) && !a.Other? && WordOf(a) != CfgWord
    ensures SuppressionFound(u, AttrText(a)) == Some(Contents(a))
  {
    hide SuppressionFound, AttrText, Good;
    if a.Bare? {
      BareRead(u, a);
    } else if a.Open? {
      OpenRead(u, a);
    } else {
      CallRead(u, a);
    }
  }

  lemma ArgTextsItems(u: Classes, args: seq<Arg>)
    requires forall x :: x in args ==> GoodArg(u, x)
    ensures forall x :: x in ArgTexts(args) ==> Item(x)
  {
    forall x | x in ArgTexts(args) ensures Item(x) {
      var i :| 0 <= i < |args| && x == args[i].text;
      assert args[i] in args;
    }
  }

  lemma ArgsSplitRead(u: Classes, args: seq<Arg>)
    requires Sane(u) && forall x :: x in args ==> GoodArg(u, x)
    ensures ArgsFound(u, Split(0, Joined(ArgTexts(args)))) == Found(ArgLints(args), ArgProblems(args))
  {
    hide Strip, GoodArg, Item;
    if args == [] {
      assert Split(0, "") == [""];
      StripAllLines(u, 0);
      assert Lines(0) == "";
      assert Judge(u, "") == Verdict.Blank;
    } else {
      ArgTextsItems(u, args);
      SplitJoined(ArgTexts(args));
      ArgsRead(u, args);
    }
  }

  lemma CfgRead(u: Classes, a: Attr)
    requires Sane(u) && Good(u, a) && a.CfgAttr?
    ensures var s := AttrText(a);
      && SuppressionFound(u, s).None? && !CfgUnbalanced(u, s)
      && CfgItems(u, s) == Some([a.condition] + EntryTexts(a.entries))
  {
    HeadOf(u, a);
    hide Strip, Split, Inside, Fixed, Item, AttrText, AfterHead, Sane;
    WordsAre();
    var parts := [a.condition] + EntryTexts(a.entries);
    EntryTextsItems(u, a.entries);
    JoinedWhole(parts);
    CallInside(u, a.gap, Joined(parts), a.behind);
    SplitJoined(parts);
  }

  lemma OtherRead(u: Classes, a: Attr)
    requires Good(u, a) && a.Other?
    ensures var s := AttrText(a);
      SuppressionFound(u, s).None? && !CfgUnbalanced(u, s) && CfgItems(u, s).None?
  {
  }

  lemma {:induction false} EntriesRead(u: Classes, entries: seq<Entry>, bound: nat)
    requires Sane(u) && GoodEntries(u, entries)
    requires forall x :: x in EntryTexts(entries) ==> Solid(u, x) < bound
    ensures ItemsFound(u, EntryTexts(entries), bound) == Found(EntryLints(entries), EntryProblems(entries))
    decreases entries, 0
  {
    hide ItemFound, Solid;
    if entries != [] {
      assert EntryTexts(entries)[1..] == EntryTexts(entries[1..]);
      EntryRead(u, entries[0]);
      EntriesRead(u, entries[1..], bound);
    }
  }

  lemma {:induction false} EntryRead(u: Classes, e: Entry)
    requires Sane(u) && GoodEntry(u, e)
    ensures ItemFound(u, EntryText(e)) == Found(EntryOwnLints(e), EntryOwnProblems(e))
    decreases e, 0
  {
    match e
    case NoEntry(lines) =>
      hide SuppressionFound, AttributeFound;
      StripAllLines(u, lines);
    case Entry(before, attr, after) =>
      EntryStripped(u, before, attr, after);
      AttrFixed(u, attr);
      FixedIsCanon(u, AttrText(attr));
      AttributeRead(u, attr, AttrText(attr));
      hide Strip, SuppressionFound, AttributeFound, Fixed, Good, AttrText, Canon;
      if !attr.Other? && WordOf(attr) != CfgWord { SuppressRead(u, attr); }
  }

  lemma EntryStripped(u: Classes, before: nat, attr: Attr, after: nat)
    requires Sane(u) && Good(u, attr)
    ensures var s := AttrText(attr);
      s != "" && Strip(u, Lines(before) + s + Lines(after)) == s && Strip(u, s) == s
  {
    AttrTrimmed(u, attr);
    hide Strip, AttrText, Good, Sane;
    var s := AttrText(attr);
    StripPadded(u, before, s, after);
    StripPadded(u, 0, s, 0);
    assert Lines(0) + s + Lines(0) == s;
  }

  /** Reading any text whose canonical form is a printed attribute returns the
      attribute's lints in order and records what cannot be read of it, in order,
      and nothing else. */
  lemma {:induction false} AttributeRead(u: Classes, a: Attr, inner: string)
    requires Sane(u) && Good(u, a)
    requires Strip(u, Canon(u, inner)) == AttrText(a)
    ensures AttributeFound(u, inner) == Contents(a)
    decreases a, 1
  {
    hide Strip, SuppressionFound, CfgUnbalanced, CfgItems, ItemsFound, Solid, Canon, Fixed, Item, AttrText;
    if a.Other? {
      OtherRead(u, a);
    } else if WordOf(a) != CfgWord {
      SuppressRead(u, a);
    } else if a.Bare? {
      BareRead(u, a);
    } else if a.Open? {
      OpenRead(u, a);
    } else {
      CfgRead(u, a);
      var items := [a.condition] + EntryTexts(a.entries);
      CfgItemsSmaller(u, inner, items);
      assert items[1..] == EntryTexts(a.entries);
      EntriesRead(u, a.entries, Solid(u, inner));
    }
  }

  /** So a printed attribute is read back as it stands. */
  lemma PrintedRead(u: Classes, a: Attr)
    requires Sane(u) && Good(u, a) && !a.Open?
    ensures AttributeFound(u, AttrText(a)) == Contents(a)
  {
    hide *;
    AttrFixed(u, a);
    FixedIsCanon(u, AttrText(a));
    EntryStripped(u, 0, a, 0);
    AttributeRead(u, a, AttrText(a));
  }
}

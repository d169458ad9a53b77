// The bracket matcher and the top-level comma splitter of the lint ratchet,
// proved against a grammar of balanced text.
module Brackets {
  import opened Options

  predicate Opener(c: char) {
    c == '(' || c == '[' || c == '{'
  }

  predicate Closing(c: char) {
    c == ')' || c == ']' || c == '}'
  }

  function CloserOf(c: char): (d: char)
    requires Opener(c)
    ensures Closing(d)
  {
    if c == '(' then ')' else if c == '[' then ']' else '}'
  }

  predicate Matches(open: char, close: char) {
    Opener(open) && CloserOf(open) == close
  }

  // ---------------------------------------------------------------------
  // What the two loops compute
  // ---------------------------------------------------------------------

  function Plus(n: nat, k: Option<nat>): Option<nat> {
    if k.Some? then Some(n + k.value) else None
  }

  /** How much of `s` is read until every bracket of `stack` is closed. */
  function Closes(stack: seq<char>, s: string): (k: Option<nat>)
    requires stack != []
    ensures k.Some? ==> 0 < k.value <= |s|
    decreases |s|
  {
    if s == [] then None
    else if Opener(s[0]) then Plus(1, Closes(stack + [s[0]], s[1..]))
    else if Closing(s[0]) then
      if !Matches(stack[|stack| - 1], s[0]) then None
      else if |stack| == 1 then Some(1)
      else Plus(1, Closes(stack[..|stack| - 1], s[1..]))
    else Plus(1, Closes(stack, s[1..]))
  }

  /** Put `p` before the first of the parts. */
  function Attach(p: string, parts: seq<string>): (r: seq<string>)
    requires parts != []
    ensures |r| == |parts|
  {
    [p + parts[0]] + parts[1..]
  }

  function DepthAfter(depth: nat, c: char): nat {
    if Opener(c) then depth + 1
    else if Closing(c) then (if depth > 0 then depth - 1 else 0)
    else depth
  }

  function Split(depth: nat, s: string): (parts: seq<string>)
    ensures parts != []
    decreases |s|
  {
    if s == [] then [""]
    else if s[0] == ',' && depth == 0 then [""] + Split(0, s[1..])
    else Attach([s[0]], Split(DepthAfter(depth, s[0]), s[1..]))
  }

  // ---------------------------------------------------------------------
  // The program
  // ---------------------------------------------------------------------

  /** `match_balanced`; `None` is the `ValueError`. */
  method MatchBalanced(text: string, opener: nat) returns (end: Option<nat>)
    requires opener < |text| && Opener(text[opener])
    ensures end == Plus(opener + 1, Closes([text[opener]], text[opener + 1..]))
  {
    var stack := [text[opener]];
    var i := opener + 1;
    ghost var goal := Plus(i, Closes(stack, text[i..]));
    while i < |text|
      invariant opener < i <= |text| && stack != []
      invariant Plus(i, Closes(stack, text[i..])) == goal
    {
      var c := text[i];
      assert text[i..][1..] == text[i + 1..];
      if Opener(c) {
        stack := stack + [c];
      } else if Closing(c) {
        if stack == [] || !Matches(stack[|stack| - 1], c) {
          return None;
        }
        stack := stack[..|stack| - 1];
        if stack == [] {
          return Some(i + 1);
        }
      }
      i := i + 1;
    }
    return None;
  }

  method SplitTopLevel(text: string) returns (parts: seq<string>)
    ensures parts == Split(0, text)
  {
    hide Split, Attach;
    parts := [];
    var depth: nat, start := 0, 0;
    ghost var goal := Split(0, text);
    AttachNothing(goal);
    for i := 0 to |text|
      invariant start <= i
      invariant parts + Attach(text[start..i], Split(depth, text[i..])) == goal
    {
      var c := text[i];
      SplitStep(depth, text[i..]);
      assert text[i..][1..] == text[i + 1..];
      assert text[start..i] + [c] == text[start..i + 1];
      if Opener(c) {
        depth := depth + 1;
      } else if Closing(c) {
        depth := if depth > 0 then depth - 1 else 0;
      } else if c == ',' && depth == 0 {
        parts := parts + [text[start..i]];
        start := i + 1;
        assert text[start..start] == "";
        AttachNothing(Split(0, text[start..]));
      }
    }
    SplitDone(depth);
    assert text[|text|..] == "" && text[start..|text|] == text[start..];
    AttachLast(text[start..]);
    parts := parts + [text[start..]];
  }

  lemma AttachNothing(parts: seq<string>)
    requires parts != []
    ensures Attach("", parts) == parts
  {
    assert "" + parts[0] == parts[0];
  }

  lemma AttachLast(p: string)
    ensures Attach(p, [""]) == [p]
  {
    assert p + "" == p;
  }

  lemma SplitDone(depth: nat)
    ensures Split(depth, "") == [""]
  {
  }

  lemma SplitStep(depth: nat, s: string)
    requires s != []
    ensures s[0] == ',' && depth == 0 ==>
      forall p :: Attach(p, Split(depth, s)) == [p] + Split(0, s[1..])
    ensures !(s[0] == ',' && depth == 0) ==>
      forall p :: Attach(p, Split(depth, s)) == Attach(p + [s[0]], Split(DepthAfter(depth, s[0]), s[1..]))
  {
    if s[0] == ',' && depth == 0 {
      forall p ensures Attach(p, Split(depth, s)) == [p] + Split(0, s[1..]) {
        assert p + "" == p;
      }
    } else {
      var rest := Split(DepthAfter(depth, s[0]), s[1..]);
      forall p ensures Attach(p, Split(depth, s)) == Attach(p + [s[0]], rest) {
        assert p + ([s[0]] + rest[0]) == p + [s[0]] + rest[0];
      }
    }
  }

  // ---------------------------------------------------------------------
  // Balanced text
  // ---------------------------------------------------------------------

  datatype Balanced = End | Plain(c: char, tail: Balanced) | Group(open: char, inner: Balanced, tail: Balanced)
  {
    predicate Good() {
      match this
      case End => true
      case Plain(c, tail) => !Opener(c) && !Closing(c) && tail.Good()
      case Group(open, inner, tail) => Opener(open) && inner.Good() && tail.Good()
    }

    function Text(): string
      requires Good()
    {
      match this
      case End => ""
      case Plain(c, tail) => [c] + tail.Text()
      case Group(open, inner, tail) => [open] + (inner.Text() + ([CloserOf(open)] + tail.Text()))
    }

    /** No comma outside the groups. */
    predicate OneItem() {
      match this
      case End => true
      case Plain(c, tail) => c != ',' && tail.OneItem()
      case Group(_, _, tail) => tail.OneItem()
    }
  }

  lemma ClosesPlain(stack: seq<char>, c: char, more: string)
    requires stack != [] && !Opener(c) && !Closing(c)
    ensures Closes(stack, [c] + more) == Plus(1, Closes(stack, more))
  {
    assert ([c] + more)[1..] == more;
  }

  lemma ClosesGroup(stack: seq<char>, open: char, more: string, after: string)
    requires stack != [] && Opener(open)
    ensures Closes(stack, [open] + more) == Plus(1, Closes(stack + [open], more))
    ensures Closes(stack + [open], [CloserOf(open)] + after) == Plus(1, Closes(stack, after))
  {
    assert ([open] + more)[1..] == more && ([CloserOf(open)] + after)[1..] == after;
    assert (stack + [open])[..|stack|] == stack;
  }

  lemma {:induction false} ClosesText(stack: seq<char>, b: Balanced, rest: string)
    requires stack != [] && b.Good()
    ensures Closes(stack, b.Text() + rest) == Plus(|b.Text()|, Closes(stack, rest))
    decreases b
  {
    hide Closes, CloserOf, Opener, Closing;
    match b
    case End =>
      assert b.Text() + rest == rest;
    case Plain(c, tail) =>
      assert b.Text() + rest == [c] + (tail.Text() + rest);
      ClosesPlain(stack, c, tail.Text() + rest);
      ClosesText(stack, tail, rest);
    case Group(open, inner, tail) =>
      var after := tail.Text() + rest;
      assert b.Text() + rest == [open] + (inner.Text() + ([CloserOf(open)] + after));
      ClosesGroup(stack, open, inner.Text() + ([CloserOf(open)] + after), after);
      ClosesText(stack + [open], inner, [CloserOf(open)] + after);
      ClosesText(stack, tail, rest);
  }

  /** `b` is the balanced text that stands before the closer of `open` in `s`. */
  ghost predicate Fills(open: char, b: Balanced, s: string) {
    && Opener(open) && b.Good()
    && |b.Text()| < |s| && s[..|b.Text()|] == b.Text() && s[|b.Text()|] == CloserOf(open)
  }

  lemma FillsPlain(open: char, c: char, b: Balanced, tail: string)
    requires Fills(open, b, tail) && !Opener(c) && !Closing(c)
    ensures Plain(c, b).Good() && Fills(open, Plain(c, b), [c] + tail)
    ensures |Plain(c, b).Text()| == |b.Text()| + 1
  {
    assert ([c] + tail)[..|b.Text()| + 1] == [c] + tail[..|b.Text()|];
  }

  lemma FillsGroup(open: char, c: char, inner: Balanced, b: Balanced, tail: string, n: nat)
    requires Fills(c, inner, tail) && n == |inner.Text()| + 1 && Fills(open, b, tail[n..])
    ensures Group(c, inner, b).Good() && Fills(open, Group(c, inner, b), [c] + tail)
    ensures |Group(c, inner, b).Text()| == |b.Text()| + n + 1
  {
    var g := Group(c, inner, b);
    assert g.Text() == [c] + (inner.Text() + ([CloserOf(c)] + b.Text()));
    assert tail[..n] == inner.Text() + [CloserOf(c)];
    assert tail[n..][..|b.Text()|] == tail[n..n + |b.Text()|];
    assert ([c] + tail)[..|g.Text()|] == [c] + (tail[..n] + tail[n..n + |b.Text()|]);
  }

  lemma FillsEnd(open: char, s: string)
    requires s != [] && Matches(open, s[0])
    ensures End.Good() && Fills(open, End, s) && End.Text() == ""
  {
  }

  lemma ClosesStep(stack: seq<char>, s: string)
    requires stack != [] && Closes(stack, s).Some?
    ensures s != []
    ensures Opener(s[0]) ==> Closes(stack, s) == Plus(1, Closes(stack + [s[0]], s[1..]))
    ensures Closing(s[0]) ==> Matches(stack[|stack| - 1], s[0])
    ensures Closing(s[0]) ==>
      Closes(stack, s) == if |stack| == 1 then Some(1) else Plus(1, Closes(stack[..|stack| - 1], s[1..]))
    ensures !Opener(s[0]) && !Closing(s[0]) ==> Closes(stack, s) == Plus(1, Closes(stack, s[1..]))
  {
  }

  /** The balanced text stands before the closer of the innermost bracket, and
      reading goes on behind that closer. */
  ghost predicate Finds(stack: seq<char>, s: string, b: Balanced)
    requires stack != []
  {
    Fills(stack[|stack| - 1], b, s) && GoesOn(stack, s, |b.Text()| + 1)
  }

  predicate GoesOn(stack: seq<char>, s: string, n: nat)
    requires stack != []
  {
    n <= |s| && Closes(stack, s) == if |stack| == 1 then Some(n) else Plus(n, Closes(stack[..|stack| - 1], s[n..]))
  }

  lemma GoesOnGroup(stack: seq<char>, s: string, n: nat, m: nat)
    requires stack != [] && Closes(stack, s).Some? && Opener(s[0])
    requires GoesOn(stack + [s[0]], s[1..], n) && GoesOn(stack, s[1..][n..], m)
    ensures GoesOn(stack, s, n + m + 1)
  {
    ClosesStep(stack, s);
    hide Closes, Opener;
    assert (stack + [s[0]])[..|stack|] == stack && s[1..][n..][m..] == s[n + m + 1..];
  }

  lemma FindsEnd(stack: seq<char>, s: string)
    requires stack != [] && Closes(stack, s).Some? && Closing(s[0])
    ensures Finds(stack, s, End)
  {
    ClosesStep(stack, s);
    FillsEnd(stack[|stack| - 1], s);
  }

  lemma GoesOnPlain(stack: seq<char>, s: string, n: nat)
    requires stack != [] && Closes(stack, s).Some? && !Opener(s[0]) && !Closing(s[0]) && GoesOn(stack, s[1..], n)
    ensures GoesOn(stack, s, n + 1)
  {
    ClosesStep(stack, s);
    hide Closes, Opener, Closing;
    assert s[1..][n..] == s[n + 1..];
  }

  lemma FindsPlain(stack: seq<char>, s: string, next: Balanced)
    requires stack != [] && Closes(stack, s).Some?
    requires !Opener(s[0]) && !Closing(s[0]) && Finds(stack, s[1..], next)
    ensures Finds(stack, s, Plain(s[0], next))
  {
    hide Closes, GoesOn, Balanced.Text, Balanced.Good, Opener, Closing;
    assert s == [s[0]] + s[1..];
    GoesOnPlain(stack, s, |next.Text()| + 1);
    FillsPlain(stack[|stack| - 1], s[0], next, s[1..]);
  }

  lemma FillsGood(open: char, b: Balanced, s: string)
    requires Fills(open, b, s)
    ensures b.Good() && |b.Text()| < |s|
  {
  }

  lemma FindsGroup(stack: seq<char>, s: string, inner: Balanced, next: Balanced)
    requires stack != [] && Closes(stack, s).Some?
    requires Opener(s[0]) && Finds(stack + [s[0]], s[1..], inner)
    requires Finds(stack, s[1..][|inner.Text()| + 1..], next)
    ensures Finds(stack, s, Group(s[0], inner, next))
  {
    hide Closes, GoesOn, Fills, Balanced.Text, Balanced.Good, Opener, Closing;
    FillsGood(s[0], inner, s[1..]);
    FillsGood(stack[|stack| - 1], next, s[1..][|inner.Text()| + 1..]);
    var tail, n, m := s[1..], |inner.Text()| + 1, |next.Text()| + 1;
    assert s == [s[0]] + tail;
    GoesOnGroup(stack, s, n, m);
    FillsGroup(stack[|stack| - 1], s[0], inner, next, tail, n);
  }

  lemma {:induction false} ClosesFinds(stack: seq<char>, s: string) returns (b: Balanced)
    requires stack != [] && Closes(stack, s).Some?
    ensures Finds(stack, s, b)
    decreases |s|
  {
    ClosesStep(stack, s);
    hide Closes, Fills, Balanced.Text, Opener, Closing;
    var tail := s[1..];
    if Opener(s[0]) {
      var inner := ClosesFinds(stack + [s[0]], tail);
      assert (stack + [s[0]])[..|stack|] == stack;
      var next := ClosesFinds(stack, tail[|inner.Text()| + 1..]);
      b := Group(s[0], inner, next);
      FindsGroup(stack, s, inner, next);
    } else if Closing(s[0]) {
      b := End;
      FindsEnd(stack, s);
    } else {
      var next := ClosesFinds(stack, tail);
      b := Plain(s[0], next);
      FindsPlain(stack, s, next);
    }
  }

  /** The matcher stops behind the closer exactly when balanced text fills the brackets. */
  lemma MatchedIff(open: char, s: string, n: nat)
    requires Opener(open)
    ensures Closes([open], s) == Some(n) <==> exists b :: Fills(open, b, s) && n == |b.Text()| + 1
  {
    if Closes([open], s) == Some(n) {
      var b := ClosesFinds([open], s);
      assert Fills(open, b, s) && n == |b.Text()| + 1;
    }
    if b: Balanced :| Fills(open, b, s) && n == |b.Text()| + 1 {
      var rest := s[|b.Text()|..];
      assert s == b.Text() + rest;
      ClosesText([open], b, rest);
    }
  }

  // ---------------------------------------------------------------------
  // Splitting
  // ---------------------------------------------------------------------

  function Joined(parts: seq<string>): string {
    if parts == [] then "" else if |parts| == 1 then parts[0] else parts[0] + "," + Joined(parts[1..])
  }

  lemma JoinedAttach(p: string, parts: seq<string>)
    requires parts != []
    ensures Joined(Attach(p, parts)) == p + Joined(parts)
  {
    assert Attach(p, parts)[1..] == parts[1..];
  }

  /** Joining the parts with commas gives every text back. */
  lemma {:induction false} JoinedSplit(depth: nat, s: string)
    ensures Joined(Split(depth, s)) == s
    decreases |s|
  {
    if s != [] {
      if s[0] == ',' && depth == 0 {
        JoinedSplit(0, s[1..]);
        assert ([""] + Split(0, s[1..]))[1..] == Split(0, s[1..]);
        assert s == "" + "," + s[1..];
      } else {
        JoinedSplit(DepthAfter(depth, s[0]), s[1..]);
        JoinedAttach([s[0]], Split(DepthAfter(depth, s[0]), s[1..]));
      }
    }
  }

  lemma {:induction false} SplitText(depth: nat, b: Balanced, rest: string)
    requires b.Good() && (depth == 0 ==> b.OneItem())
    ensures Split(depth, b.Text() + rest) == Attach(b.Text(), Split(depth, rest))
    decreases b
  {
    hide Split, Attach;
    var parts := Split(depth, rest);
    match b
    case End =>
      assert b.Text() + rest == rest;
      AttachNothing(parts);
    case Plain(c, tail) =>
      assert b.Text() + rest == [c] + (tail.Text() + rest);
      SplitPlain(depth, c, tail.Text() + rest);
      SplitText(depth, tail, rest);
      AttachTwice([c], tail.Text(), parts);
    case Group(open, inner, tail) =>
      var close := CloserOf(open);
      var after := [close] + (tail.Text() + rest);
      assert b.Text() + rest == [open] + (inner.Text() + after);
      SplitOpen(depth, open, inner.Text() + after);
      SplitText(depth + 1, inner, after);
      SplitClose(depth, close, tail.Text() + rest);
      SplitText(depth, tail, rest);
      AttachTwice([close], tail.Text(), parts);
      AttachTwice(inner.Text(), [close] + tail.Text(), parts);
      AttachTwice([open], inner.Text() + ([close] + tail.Text()), parts);
  }

  lemma SplitClose(depth: nat, c: char, s: string)
    requires Closing(c)
    ensures Split(depth + 1, [c] + s) == Attach([c], Split(depth, s))
  {
    assert ([c] + s)[1..] == s;
  }

  lemma SplitOpen(depth: nat, c: char, s: string)
    requires Opener(c)
    ensures Split(depth, [c] + s) == Attach([c], Split(depth + 1, s))
  {
    assert ([c] + s)[1..] == s;
  }

  lemma SplitPlain(depth: nat, c: char, s: string)
    requires !Opener(c) && !Closing(c) && !(c == ',' && depth == 0)
    ensures Split(depth, [c] + s) == Attach([c], Split(depth, s))
  {
    assert ([c] + s)[1..] == s;
  }

  lemma AttachTwice(p: string, q: string, parts: seq<string>)
    requires parts != []
    ensures Attach(p, Attach(q, parts)) == Attach(p + q, parts)
  {
    assert p + (q + parts[0]) == p + q + parts[0];
  }

  // ---------------------------------------------------------------------
  // The same two properties, as closure laws of texts
  // ---------------------------------------------------------------------

  ghost predicate Whole(s: string) {
    exists b: Balanced :: b.Good() && b.Text() == s
  }

  /** Balanced, with no comma outside its brackets: one item of a list. */
  ghost predicate Item(s: string) {
    exists b: Balanced :: b.Good() && b.OneItem() && b.Text() == s
  }

  function Append(a: Balanced, b: Balanced): (c: Balanced)
    requires a.Good() && b.Good()
    ensures c.Good() && c.Text() == a.Text() + b.Text()
    ensures a.OneItem() && b.OneItem() ==> c.OneItem()
  {
    match a
    case End => b
    case Plain(c, tail) => Plain(c, Append(tail, b))
    case Group(open, inner, tail) => Group(open, inner, Append(tail, b))
  }

  lemma WholeAppend(s: string, t: string)
    requires Whole(s) && Whole(t)
    ensures Whole(s + t)
    ensures Item(s) && Item(t) ==> Item(s + t)
  {
    var a: Balanced :| a.Good() && a.Text() == s;
    var b: Balanced :| b.Good() && b.Text() == t;
    assert Append(a, b).Text() == s + t;
    if Item(s) && Item(t) {
      var x: Balanced :| x.Good() && x.OneItem() && x.Text() == s;
      var y: Balanced :| y.Good() && y.OneItem() && y.Text() == t;
      assert Append(x, y).Text() == s + t;
    }
  }

  lemma ItemIsWhole(s: string)
    requires Item(s)
    ensures Whole(s)
  {
    var b: Balanced :| b.Good() && b.OneItem() && b.Text() == s;
    assert b.Good() && b.Text() == s;
  }

  lemma {:induction false} PlainItem(s: string)
    requires forall c :: c in s ==> !Opener(c) && !Closing(c)
    ensures Whole(s) && (',' !in s ==> Item(s))
  {
    if s == [] {
      assert End.Good() && End.OneItem() && End.Text() == s;
    } else {
      PlainItem(s[1..]);
      var b: Balanced :| b.Good() && b.Text() == s[1..];
      assert Plain(s[0], b).Good() && Plain(s[0], b).Text() == s;
      if ',' !in s {
        var x: Balanced :| x.Good() && x.OneItem() && x.Text() == s[1..];
        assert Plain(s[0], x).Good() && Plain(s[0], x).OneItem() && Plain(s[0], x).Text() == s;
      }
    }
  }

  lemma ParenthesizedItem(s: string)
    requires Whole(s)
    ensures Item("(" + s + ")")
  {
    var b: Balanced :| b.Good() && b.Text() == s;
    var g := Group('(', b, End);
    assert g.Good() && g.OneItem();
    assert g.Text() == "(" + s + ")";
  }

  lemma {:induction false} JoinedWhole(parts: seq<string>)
    requires forall p :: p in parts ==> Item(p)
    ensures Whole(Joined(parts))
  {
    PlainItem("");
    PlainItem(",");
    if parts != [] {
      assert parts[0] in parts;
      ItemIsWhole(parts[0]);
      if |parts| > 1 {
        JoinedWhole(parts[1..]);
        WholeAppend(parts[0], ",");
        WholeAppend(parts[0] + ",", Joined(parts[1..]));
      }
    }
  }

  lemma SplitComma(s: string)
    ensures forall p :: Attach(p, Split(0, "," + s)) == [p] + Split(0, s)
  {
    SplitStep(0, "," + s);
    assert ("," + s)[1..] == s;
  }

  /** Splitting undoes joining, for items. */
  lemma {:induction false} SplitJoined(parts: seq<string>)
    requires parts != [] && forall p :: p in parts ==> Item(p)
    ensures Split(0, Joined(parts)) == parts
  {
    assert parts[0] in parts;
    var b: Balanced :| b.Good() && b.OneItem() && b.Text() == parts[0];
    var rest := if |parts| == 1 then "" else "," + Joined(parts[1..]);
    assert Joined(parts) == parts[0] + rest;
    SplitText(0, b, rest);
    hide Split, Joined, Balanced.Text, Balanced.OneItem;
    SplitDone(0);
    if |parts| > 1 {
      SplitJoined(parts[1..]);
      SplitComma(Joined(parts[1..]));
      assert parts == [parts[0]] + parts[1..];
    } else {
      AttachLast(parts[0]);
    }
  }

  /** A parenthesized balanced text is matched to its very end. */
  lemma ParenthesesMatch(s: string, rest: string)
    requires Whole(s)
    ensures Closes(['('], s + ")" + rest) == Some(|s| + 1)
  {
    var b: Balanced :| b.Good() && b.Text() == s;
    assert s + ")" + rest == s + (")" + rest);
    ClosesText(['('], b, ")" + rest);
  }
}

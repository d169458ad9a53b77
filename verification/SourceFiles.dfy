// Files as code and attributes, attributes inside attributes included: what a
// scan reports of them, and which hash of the source each lint belongs to.
module SourceFiles {
  import opened Options
  import opened Trimming
  import opened Canonical
  import opened Brackets
  import opened Suppressions
  import opened AttributeGrammar
  import opened Scanning
  import opened Origins
  import RustLexer

  // ---------------------------------------------------------------------
  // The head of an attribute
  // ---------------------------------------------------------------------

  ghost predicate AllSpace(u: Classes, s: string) {
    forall c :: c in s ==> u.space(c)
  }

  /** A hash, perhaps a bang, and a bracket, with whitespace between them. */
  datatype Head = Head(gap: string, bang: Option<string>)
  {
    function Text(): string {
      "#" + gap + (if bang.Some? then "!" + bang.value else "") + "["
    }

    ghost predicate Good(u: Classes) {
      AllSpace(u, gap) && (bang.Some? ==> AllSpace(u, bang.value))
    }
  }

  /** An attribute head stands at the start of the text. */
  ghost predicate HeadAt(u: Classes, s: string) {
    exists h: Head, rest: string :: h.Good(u) && s == h.Text() + rest
  }

  lemma {:induction false} TrimLeftSpace(u: Classes, s: string, t: string)
    requires AllSpace(u, s) && t != [] && !u.space(t[0])
    ensures TrimLeft(u.space, s + t) == t
  {
    if s == [] {
      assert s + t == t;
    } else {
      assert s[0] in s && (s + t)[1..] == s[1..] + t;
      TrimLeftSpace(u, s[1..], t);
    }
  }

  lemma BangPassed(u: Classes, h: Head, bracket: string)
    requires Sane(u) && h.Good(u) && Begins(bracket, '[')
    ensures PastBang(u, h.gap + (if h.bang.Some? then "!" + h.bang.value else "") + bracket) == bracket
  {
    hide TrimLeft;
    var all := h.gap + (if h.bang.Some? then "!" + h.bang.value else "") + bracket;
    if h.bang.Some? {
      var first := "!" + h.bang.value + bracket;
      assert first[1..] == h.bang.value + bracket;
      assert all == h.gap + first;
      TrimLeftSpace(u, h.bang.value, bracket);
      TrimLeftSpace(u, h.gap, first);
    } else {
      assert all == h.gap + bracket;
      TrimLeftSpace(u, h.gap, bracket);
    }
  }

  lemma HeadPassed(u: Classes, h: Head, rest: string)
    requires Sane(u) && h.Good(u)
    ensures BehindHead(u, h.Text() + rest) == Some(rest)
  {
    hide PastBang, Sane;
    var bracket := "[" + rest;
    assert bracket[1..] == rest;
    BangPassed(u, h, bracket);
    assert (h.Text() + rest)[1..] == h.gap + (if h.bang.Some? then "!" + h.bang.value else "") + bracket;
  }

  lemma {:induction false} TrimLeftSplits(u: Classes, s: string) returns (gap: string)
    ensures AllSpace(u, gap) && s == gap + TrimLeft(u.space, s)
  {
    if s != [] && u.space(s[0]) {
      gap := TrimLeftSplits(u, s[1..]);
      gap := [s[0]] + gap;
      assert s == [s[0]] + s[1..];
    } else {
      gap := "";
      assert s == "" + s;
    }
  }

  lemma BangFound(u: Classes, s: string) returns (h: Head)
    ensures h.Good(u) && s == h.gap + ((if h.bang.Some? then "!" + h.bang.value else "") + PastBang(u, s))
  {
    hide TrimLeft;
    var gap := TrimLeftSplits(u, s);
    var first := TrimLeft(u.space, s);
    if Begins(first, '!') {
      var more := TrimLeftSplits(u, first[1..]);
      h := Head(gap, Some(more));
      assert first == "!" + first[1..];
      assert "!" + (more + PastBang(u, s)) == "!" + more + PastBang(u, s);
    } else {
      h := Head(gap, None);
      assert "" + first == first;
    }
  }

  lemma HeadFound(u: Classes, s: string) returns (h: Head)
    requires BehindHead(u, s).Some?
    ensures h.Good(u) && s == h.Text() + BehindHead(u, s).value
  {
    hide PastBang;
    h := BangFound(u, s[1..]);
    var bracket := PastBang(u, s[1..]);
    hide Head.Good;
    var bang := if h.bang.Some? then "!" + h.bang.value else "";
    assert bracket == "[" + BehindHead(u, s).value;
    assert s == "#" + (h.gap + (bang + bracket));
    assert h.Text() == "#" + h.gap + bang + "[";
  }

  /** The finder's pattern matches exactly the heads. */
  lemma HeadIff(u: Classes, s: string)
    requires Sane(u)
    ensures BehindHead(u, s).Some? <==> HeadAt(u, s)
  {
    hide BehindHead;
    if BehindHead(u, s).Some? {
      var h := HeadFound(u, s);
    }
    if HeadAt(u, s) {
      var h: Head, rest: string :| h.Good(u) && s == h.Text() + rest;
      HeadPassed(u, h, rest);
    }
  }

  // ---------------------------------------------------------------------
  // Files
  // ---------------------------------------------------------------------

  /** Code, and attributes that are again made of such pieces. */
  datatype Pieces =
    | End
    | Code(text: string, rest: Pieces)
    | Attribute(head: Head, inner: Pieces, attr: Attr, rest: Pieces)
    | Unclosed(head: Head, rest: Pieces)
  {
    function Text(): string {
      match this
      case End => ""
      case Code(text, rest) => text + rest.Text()
      case Attribute(head, inner, _, rest) => head.Text() + (inner.Text() + ("]" + rest.Text()))
      case Unclosed(head, rest) => head.Text() + rest.Text()
    }

    /** No head begins in code, every attribute reads as its tree, and nothing
        closes the bracket of the others. */
    ghost predicate Good(u: Classes, after: string) {
      match this
      case End => true
      case Code(text, rest) => Loose(u, text, rest.Text() + after) && rest.Good(u, after)
      case Attribute(head, inner, attr, rest) =>
        && head.Good(u) && Whole(inner.Text())
        && AttributeGrammar.Good(u, attr) && Strip(u, Canon(u, inner.Text())) == AttrText(attr)
        && inner.Good(u, "]" + (rest.Text() + after)) && rest.Good(u, after)
      case Unclosed(head, rest) =>
        head.Good(u) && Closes(['['], rest.Text() + after).None? && rest.Good(u, after)
    }

    /** The attributes, each with the place of its hash, in order. */
    function PlacesFrom(at: nat): seq<Place> {
      match this
      case End => []
      case Code(text, rest) => rest.PlacesFrom(at + |text|)
      case Attribute(head, inner, attr, rest) =>
        var behind := at + |head.Text()|;
        [Place(at, Some(attr))] + inner.PlacesFrom(behind) + rest.PlacesFrom(behind + |inner.Text()| + 1)
      case Unclosed(head, rest) => [Place(at, None)] + rest.PlacesFrom(at + |head.Text()|)
    }
  }

  /** Where a head stands, and the attribute that it begins, if that is closed. */
  datatype Place = Place(at: nat, attr: Option<Attr>)

  /** No attribute head begins in the text, whatever of `after` it may take. */
  ghost predicate Loose(u: Classes, text: string, after: string) {
    forall k :: 0 <= k < |text| && text[k] == '#' ==> !HeadAt(u, text[k..] + after)
  }

  function LineAt(text: string, at: nat): nat
    requires at <= |text|
  {
    1 + LineCount(text[..at])
  }

  /** What should be reported of an attribute. */
  function Told(line: nat, attr: Option<Attr>): Scan {
    if attr.None? then Scan([], [OpenAttribute(line)]) else AtLine(line, Contents(attr.value))
  }

  /** The lints and problems of the attributes, each on the line of its own hash. */
  function FoundIn(text: string, places: seq<Place>): Scan
    requires forall p :: p in places ==> p.at <= |text|
  {
    if places == [] then Scan([], [])
    else Told(LineAt(text, places[0].at), places[0].attr).Then(FoundIn(text, places[1..]))
  }

  lemma {:induction false} FoundConcat(text: string, a: seq<Place>, b: seq<Place>)
    requires forall p :: p in a + b ==> p.at <= |text|
    requires (forall p :: p in a ==> p.at <= |text|) && forall p :: p in b ==> p.at <= |text|
    ensures FoundIn(text, a + b) == FoundIn(text, a).Then(FoundIn(text, b))
    decreases |a|
  {
    hide Told, LineAt, Scan.Then;
    if a == [] {
      assert a + b == b;
      NothingThen(FoundIn(text, b));
    } else {
      assert (a + b)[1..] == a[1..] + b && (a + b)[0] == a[0];
      assert forall p :: p in a[1..] ==> p in a;
      FoundConcat(text, a[1..], b);
      ThenThen(Told(LineAt(text, a[0].at), a[0].attr), FoundIn(text, a[1..]), FoundIn(text, b));
    }
  }

  // ---------------------------------------------------------------------
  // Places
  // ---------------------------------------------------------------------

  /** The places lie in a stretch of the text, rise, and hold hashes. */
  ghost predicate Within(places: seq<Place>, from: nat, to: nat, text: string) {
    && (forall p :: p in places ==> from <= p.at < to <= |text| && text[p.at] == '#')
    && (forall i, j :: 0 <= i < j < |places| ==> places[i].at < places[j].at)
  }

  lemma WithinConcat(a: seq<Place>, b: seq<Place>, from: nat, mid: nat, to: nat, text: string)
    requires Within(a, from, mid, text) && Within(b, mid, to, text) && from <= mid <= to <= |text|
    ensures Within(a + b, from, to, text)
  {
    var all := a + b;
    forall i, j | 0 <= i < j < |all| ensures all[i].at < all[j].at {
      if i < |a| <= j { assert a[i] in a && b[j - |a|] in b; }
    }
  }

  lemma WithinWider(a: seq<Place>, from: nat, to: nat, wide: nat, text: string)
    requires Within(a, from, to, text) && from <= to <= wide <= |text|
    ensures Within(a, from, wide, text)
  {
  }

  lemma WithinOne(at: nat, attr: Option<Attr>, to: nat, text: string)
    requires at < to <= |text| && text[at] == '#'
    ensures Within([Place(at, attr)], at, to, text)
  {
  }

  lemma WithinLater(a: seq<Place>, early: nat, from: nat, to: nat, text: string)
    requires Within(a, from, to, text) && early <= from
    ensures Within(a, early, to, text)
  {
  }

  lemma {:induction false} PiecesWithin(p: Pieces, before: string, after: string)
    ensures Within(p.PlacesFrom(|before|), |before|, |before| + |p.Text()|, before + p.Text() + after)
    decreases p
  {
    match p
    case End =>
      NothingWithin(|before|, before + "" + after);
    case Code(code, rest) =>
      hide Within, Head.Text, Pieces.Text, Pieces.PlacesFrom;
      PiecesWithin(rest, before + code, after);
      CodeText(code, rest, before, after);
      CodeWithin(code, rest, |before|, |before| + |p.Text()|, before + p.Text() + after);
    case Attribute(head, inner, attr, rest) =>
      hide Within, Head.Text, Pieces.Text, Pieces.PlacesFrom;
      var open := before + head.Text();
      PiecesWithin(inner, open, "]" + (rest.Text() + after));
      PiecesWithin(rest, open + inner.Text() + "]", after);
      AttributeWithin(p, before, after);
    case Unclosed(head, rest) =>
      hide Within, Head.Text, Pieces.Text, Pieces.PlacesFrom;
      PiecesWithin(rest, before + head.Text(), after);
      UnclosedWithin(p, before, after);
  }

  lemma CodeText(code: string, rest: Pieces, before: string, after: string)
    ensures before + Code(code, rest).Text() + after == before + code + rest.Text() + after
    ensures |before| + |Code(code, rest).Text()| == |before + code| + |rest.Text()|
  {
  }

  lemma CodeWithin(code: string, rest: Pieces, at: nat, to: nat, text: string)
    requires Within(rest.PlacesFrom(at + |code|), at + |code|, to, text)
    ensures Within(Code(code, rest).PlacesFrom(at), at, to, text)
  {
    hide Within;
    WithinLater(rest.PlacesFrom(at + |code|), at, at + |code|, to, text);
  }

  lemma UnclosedWithin(p: Pieces, before: string, after: string)
    requires p.Unclosed?
    requires var open := before + p.head.Text();
      Within(p.rest.PlacesFrom(|open|), |open|, |open| + |p.rest.Text()|, open + p.rest.Text() + after)
    ensures Within(p.PlacesFrom(|before|), |before|, |before| + |p.Text()|, before + p.Text() + after)
  {
    UnclosedTexts(p, before, after);
    HeadHash(p.head);
    hide *;
    hide Pieces.Text, Pieces.PlacesFrom, Head.Text;
    var text, open := before + p.Text() + after, before + p.head.Text();
    assert text[|before|] == open[|before|] by { assert text == open + (p.rest.Text() + after); }
    assert |open| <= |before| + |p.Text()| <= |text|;
    WithinOne(|before|, None, |open|, text);
    WithinConcat([Place(|before|, None)], p.rest.PlacesFrom(|open|), |before|, |open|, |before| + |p.Text()|, text);
  }

  lemma UnclosedTexts(p: Pieces, before: string, after: string)
    requires p.Unclosed?
    ensures var open := before + p.head.Text();
      && before + p.Text() + after == open + p.rest.Text() + after
      && p.Text() + after == p.head.Text() + (p.rest.Text() + after)
      && |p.Text()| == |p.head.Text()| + |p.rest.Text()|
      && p.Text() == p.head.Text() + p.rest.Text()
      && p.PlacesFrom(|before|) == [Place(|before|, None)] + p.rest.PlacesFrom(|open|)
  {
    hide Head.Text, Pieces.Text, Pieces.PlacesFrom;
    UnclosedIs(p, |before|);
    RegroupTwo(before, p.head.Text(), p.rest.Text(), after);
  }

  lemma UnclosedIs(p: Pieces, at: nat)
    requires p.Unclosed?
    ensures p.Text() == p.head.Text() + p.rest.Text()
    ensures p.PlacesFrom(at) == [Place(at, None)] + p.rest.PlacesFrom(at + |p.head.Text()|)
  {
  }

  lemma RegroupTwo(before: string, head: string, rest: string, after: string)
    ensures before + (head + rest) + after == before + head + rest + after
    ensures head + rest + after == head + (rest + after) && |before + head| == |before| + |head|
  {
  }

  lemma AttributeWithin(p: Pieces, before: string, after: string)
    requires p.Attribute?
    requires var open := before + p.head.Text();
      Within(p.inner.PlacesFrom(|open|), |open|, |open| + |p.inner.Text()|,
             open + p.inner.Text() + ("]" + (p.rest.Text() + after)))
    requires var close := before + p.head.Text() + p.inner.Text() + "]";
      Within(p.rest.PlacesFrom(|close|), |close|, |close| + |p.rest.Text()|, close + p.rest.Text() + after)
    ensures Within(p.PlacesFrom(|before|), |before|, |before| + |p.Text()|, before + p.Text() + after)
  {
    hide *;
    hide Pieces.Text, Pieces.PlacesFrom, Head.Text;
    var text, open := before + p.Text() + after, before + p.head.Text();
    var inside := open + p.inner.Text();
    var close := inside + "]";
    AttributeTexts(p, before, after);
    PlacesParts(p, |before|);
    HeadHash(p.head);
    AttributeSpans(before, p.head.Text(), p.inner.Text(), p.rest.Text(), p.Text(), after);
    WithinThree(|before|, Some(p.attr), |open|, p.inner.PlacesFrom(|open|), |inside|, p.rest.PlacesFrom(|close|),
                |before| + |p.Text()|, text);
  }

  lemma AttributeSpans(before: string, head: string, inner: string, rest: string, t: string, after: string)
    requires head != "" && before + t == before + head + inner + "]" + rest
    ensures |before + head| == |before| + |head| && |before + head + inner| == |before| + |head| + |inner|
    ensures |before| + |t| == |before + head + inner + "]"| + |rest|
    ensures |before| < |before| + |t| <= |before + t + after| && (before + t + after)[|before|] == head[0]
  {
    assert |before + t| == |before| + |t|;
    assert (before + t)[|before|] == head[0];
  }

  lemma WithinThree(at: nat, attr: Option<Attr>, open: nat, inside: seq<Place>, end: nat, behind: seq<Place>, to: nat,
                    text: string)
    requires at < open <= end < to <= |text| && text[at] == '#'
    requires Within(inside, open, end, text) && Within(behind, end + 1, to, text)
    ensures Within([Place(at, attr)] + (inside + behind), at, to, text)
  {
    hide Within;
    WithinOne(at, attr, open, text);
    WithinWider(inside, open, end, end + 1, text);
    WithinConcat(inside, behind, open, end + 1, to, text);
    WithinConcat([Place(at, attr)], inside + behind, at, open, to, text);
  }

  lemma NothingWithin(at: nat, text: string)
    ensures Within([], at, at, text)
  {
  }

  lemma HeadHash(h: Head)
    ensures h.Text() != "" && h.Text()[0] == '#'
  {
  }

  lemma WithinFits(places: seq<Place>, from: nat, to: nat, text: string)
    requires Within(places, from, to, text)
    ensures forall p :: p in places ==> p.at <= |text|
  {
  }

  // ---------------------------------------------------------------------
  // Scanning
  // ---------------------------------------------------------------------

  lemma LooseTail(u: Classes, text: string, after: string)
    requires text != "" && Loose(u, text, after)
    ensures Loose(u, text[1..], after)
  {
    hide HeadAt;
    forall k | 0 <= k < |text| - 1 && text[1..][k] == '#' ensures !HeadAt(u, text[1..][k..] + after) {
      assert text[1..][k..] == text[k + 1..] && text[k + 1] == '#';
    }
  }

  lemma LooseFirst(u: Classes, text: string, after: string)
    requires Sane(u) && text != "" && Loose(u, text, after)
    ensures BehindHead(u, text + after).None?
  {
    hide HeadAt;
    HeadIff(u, text + after);
    assert text[0..] == text;
  }

  lemma {:induction false} LooseSkipped(u: Classes, line: nat, text: string, after: string)
    requires Sane(u) && Loose(u, text, after)
    ensures ScanOf(u, line, text + after) == ScanOf(u, line + LineCount(text), after)
    decreases |text|
  {
    hide *;
    if text == [] {
      assert text + after == after;
      NoLines();
    } else {
      var all := text + after;
      assert all[1..] == text[1..] + after && all[..1] == text[..1] && text == text[..1] + text[1..];
      LooseFirst(u, text, after);
      ScanStep(u, line, all);
      LineCountConcat(text[..1], text[1..]);
      LooseTail(u, text, after);
      LooseSkipped(u, line + LineCount(text[..1]), text[1..], after);
    }
  }

  lemma HeadTextScanned(u: Classes, line: nat, head: string, behind: string)
    requires Sane(u) && head != "" && BehindHead(u, head + behind) == Some(behind)
    ensures ScanOf(u, line, head + behind)
         == AttributeAt(u, line, behind).Then(ScanOf(u, line + LineCount(head), behind))
  {
    hide *;
    var s := head + behind;
    ScanStep(u, line, s);
    assert s[..|head|] == head && s[|head|..] == behind;
  }

  lemma HeadScanned(u: Classes, line: nat, h: Head, behind: string)
    requires Sane(u) && h.Good(u)
    ensures ScanOf(u, line, h.Text() + behind)
         == AttributeAt(u, line, behind).Then(ScanOf(u, line + LineCount(h.Text()), behind))
  {
    hide *;
    hide Head.Text, Head.Good;
    HeadPassed(u, h, behind);
    HeadHash(h);
    HeadTextScanned(u, line, h.Text(), behind);
  }

  lemma BracketCloses(after: string)
    ensures Closes(['['], "]" + after) == Some(1)
  {
  }

  lemma InnerCloses(inner: string, after: string)
    requires Whole(inner)
    ensures Closes(['['], inner + ("]" + after)) == Some(|inner| + 1)
  {
    hide Closes;
    var b: Balanced :| b.Good() && b.Text() == inner;
    BracketCloses(after);
    ClosesText(['['], b, "]" + after);
  }

  lemma TreeRead(u: Classes, line: nat, attr: Attr, inner: string, after: string)
    requires Sane(u) && Whole(inner) && AttributeGrammar.Good(u, attr) && Strip(u, Canon(u, inner)) == AttrText(attr)
    ensures AttributeAt(u, line, inner + ("]" + after)) == AtLine(line, Contents(attr))
  {
    hide Closes, Canon, Strip, AttributeFound, Contents;
    InnerCloses(inner, after);
    assert (inner + ("]" + after))[..|inner|] == inner;
    AttributeRead(u, attr, inner);
  }

  lemma CloserLoose(u: Classes, after: string)
    ensures Loose(u, "]", after) && LineCount("]") == 0
  {
    hide HeadAt;
    assert "]"[1..] == "";
  }

  lemma CloserSkipped(u: Classes, line: nat, after: string)
    requires Sane(u)
    ensures ScanOf(u, line, "]" + after) == ScanOf(u, line, after)
  {
    hide *;
    CloserLoose(u, after);
    LooseSkipped(u, line, "]", after);
  }

  /** The text adds what is found, and the scan goes on behind it. */
  ghost predicate Scans(u: Classes, text: string, after: string, line: nat, found: Scan)
    requires Sane(u)
  {
    ScanOf(u, line, text + after) == found.Then(ScanOf(u, line + LineCount(text), after))
  }

  lemma ScansConcat(u: Classes, a: string, b: string, after: string, line: nat, x: Scan, y: Scan)
    requires Sane(u) && Scans(u, a, b + after, line, x) && Scans(u, b, after, line + LineCount(a), y)
    ensures Scans(u, a + b, after, line, x.Then(y))
  {
    hide ScanOf, LineCount, Scan.Then;
    assert a + b + after == a + (b + after);
    LineCountConcat(a, b);
    ThenThen(x, y, ScanOf(u, line + LineCount(a + b), after));
  }

  lemma NothingThen(later: Scan)
    ensures Scan([], []).Then(later) == later
  {
  }

  lemma ScansNothing(u: Classes, after: string, line: nat)
    requires Sane(u)
    ensures Scans(u, "", after, line, Scan([], []))
  {
    hide ScanOf, LineCount, Scan.Then;
    assert "" + after == after;
    NoLines();
    NothingThen(ScanOf(u, line, after));
  }

  lemma ScansLoose(u: Classes, text: string, after: string, line: nat)
    requires Sane(u) && Loose(u, text, after)
    ensures Scans(u, text, after, line, Scan([], []))
  {
    hide ScanOf, LineCount, Scan.Then, Loose;
    LooseSkipped(u, line, text, after);
    NothingThen(ScanOf(u, line + LineCount(text), after));
  }

  lemma ScansHead(u: Classes, h: Head, behind: string, line: nat, found: Scan)
    requires Sane(u) && h.Good(u) && AttributeAt(u, line, behind) == found
    ensures Scans(u, h.Text(), behind, line, found)
  {
    hide ScanOf, LineCount, Scan.Then, AttributeAt, Head.Text, Head.Good;
    HeadScanned(u, line, h, behind);
  }

  lemma ScansAttribute(u: Classes, h: Head, inner: string, rest: string, after: string, line: nat,
                       a: Scan, i: Scan, r: Scan)
    requires Sane(u) && h.Good(u)
    requires AttributeAt(u, line, inner + ("]" + (rest + after))) == a
    requires Scans(u, inner, "]" + (rest + after), line + LineCount(h.Text()), i)
    requires Scans(u, rest, after, line + LineCount(h.Text()) + LineCount(inner), r)
    ensures Scans(u, h.Text() + (inner + ("]" + rest)), after, line, a.Then(i.Then(r)))
  {
    CloserLoose(u, rest + after);
    hide *;
    hide Head.Text, Head.Good, Scan.Then;
    var first, second := line + LineCount(h.Text()), line + LineCount(h.Text()) + LineCount(inner);
    ScansLoose(u, "]", rest + after, second);
    ScansConcat(u, "]", rest, after, second, Scan([], []), r);
    NothingThen(r);
    assert "]" + rest + after == "]" + (rest + after);
    ScansConcat(u, inner, "]" + rest, after, first, i, r);
    assert inner + ("]" + rest) + after == inner + ("]" + (rest + after));
    ScansHead(u, h, inner + ("]" + rest) + after, line, a);
    ScansConcat(u, h.Text(), inner + ("]" + rest), after, line, a, i.Then(r));
  }

  lemma NeverClosed(u: Classes, line: nat, behind: string)
    requires Sane(u) && Closes(['['], behind).None?
    ensures AttributeAt(u, line, behind) == Scan([], [OpenAttribute(line)])
  {
  }

  lemma ScansUnclosed(u: Classes, h: Head, rest: string, after: string, line: nat, r: Scan)
    requires Sane(u) && h.Good(u) && Closes(['['], rest + after).None?
    requires Scans(u, rest, after, line + LineCount(h.Text()), r)
    ensures Scans(u, h.Text() + rest, after, line, Scan([], [OpenAttribute(line)]).Then(r))
  {
    hide *;
    hide Head.Text, Head.Good, Scan.Then;
    NeverClosed(u, line, rest + after);
    ScansHead(u, h, rest + after, line, Scan([], [OpenAttribute(line)]));
    ScansConcat(u, h.Text(), rest, after, line, Scan([], [OpenAttribute(line)]), r);
  }

  lemma Regroup(before: string, head: string, inner: string, rest: string, after: string)
    ensures var text := head + (inner + ("]" + rest));
      && before + text + after == before + head + inner + ("]" + (rest + after))
      && before + text + after == before + head + inner + "]" + rest + after
      && before + text == before + head + inner + "]" + rest
      && text + after == head + (inner + ("]" + (rest + after)))
  {
    var tail := inner + ("]" + rest);
    assert head + tail + after == head + (tail + after);
    assert tail + after == inner + ("]" + (rest + after));
    assert before + (head + tail) == before + head + inner + "]" + rest;
  }

  lemma AttributeTexts(p: Pieces, before: string, after: string)
    requires p.Attribute?
    ensures var open := before + p.head.Text();
      var close := open + p.inner.Text() + "]";
      && before + p.Text() + after == open + p.inner.Text() + ("]" + (p.rest.Text() + after))
      && before + p.Text() + after == close + p.rest.Text() + after
      && before + p.Text() == close + p.rest.Text()
      && p.Text() + after == p.head.Text() + (p.inner.Text() + ("]" + (p.rest.Text() + after)))
  {
    hide Head.Text;
    Regroup(before, p.head.Text(), p.inner.Text(), p.rest.Text(), after);
  }

  lemma PlacesParts(p: Pieces, at: nat)
    requires p.Attribute?
    ensures p.PlacesFrom(at)
         == [Place(at, Some(p.attr))]
            + (p.inner.PlacesFrom(at + |p.head.Text()|)
               + p.rest.PlacesFrom(at + |p.head.Text()| + |p.inner.Text()| + 1))
  {
  }

  lemma FoundOne(text: string, at: nat, attr: Option<Attr>)
    requires at <= |text|
    ensures FoundIn(text, [Place(at, attr)]) == Told(LineAt(text, at), attr)
  {
    hide Told, LineAt;
    assert [Place(at, attr)][1..] == [];
    ThenNothing(Told(LineAt(text, at), attr));
  }

  lemma LinesBefore(before: string, rest: string)
    ensures LineAt(before + rest, |before|) == 1 + LineCount(before)
  {
    assert (before + rest)[..|before|] == before;
  }

  lemma CloserLines(s: string)
    ensures LineCount(s + "]") == LineCount(s)
  {
    LineCountConcat(s, "]");
    LineCountOne(']');
  }

  lemma AttributeHits(p: Pieces, before: string, after: string)
    requires p.Attribute?
    ensures var open := before + p.head.Text();
      var close := open + p.inner.Text() + "]";
      var text := before + p.Text() + after;
      && (forall x :: x in p.PlacesFrom(|before|) ==> x.at <= |text|)
      && (forall x :: x in p.inner.PlacesFrom(|open|) ==> x.at <= |text|)
      && (forall x :: x in p.rest.PlacesFrom(|close|) ==> x.at <= |text|)
      && FoundIn(text, p.PlacesFrom(|before|))
         == Told(1 + LineCount(before), Some(p.attr))
            .Then(FoundIn(text, p.inner.PlacesFrom(|open|)).Then(FoundIn(text, p.rest.PlacesFrom(|close|))))
  {
    hide *;
    hide Pieces.Text, Pieces.PlacesFrom, Head.Text, Scan.Then;
    var open := before + p.head.Text();
    var close := open + p.inner.Text() + "]";
    var text := before + p.Text() + after;
    PiecesWithin(p, before, after);
    WithinFits(p.PlacesFrom(|before|), |before|, |before| + |p.Text()|, text);
    PlacesParts(p, |before|);
    var inside, behind := p.inner.PlacesFrom(|open|), p.rest.PlacesFrom(|close|);
    var first := [Place(|before|, Some(p.attr))];
    assert p.PlacesFrom(|before|) == first + (inside + behind);
    FoundConcat(text, inside, behind);
    FoundConcat(text, first, inside + behind);
    FoundOne(text, |before|, Some(p.attr));
    assert text == before + (p.Text() + after);
    LinesBefore(before, p.Text() + after);
  }

  lemma GoodAttribute(u: Classes, p: Pieces, after: string)
    requires p.Attribute? && p.Good(u, after)
    ensures p.head.Good(u) && Whole(p.inner.Text()) && AttributeGrammar.Good(u, p.attr)
    ensures Strip(u, Canon(u, p.inner.Text())) == AttrText(p.attr)
    ensures p.Text() == p.head.Text() + (p.inner.Text() + ("]" + p.rest.Text()))
  {
  }

  /** What is proved by induction of pieces inside a text. */
  ghost predicate ScansAs(u: Classes, p: Pieces, before: string, after: string, text: string)
    requires Sane(u)
  {
    && (forall x :: x in p.PlacesFrom(|before|) ==> x.at <= |text|)
    && Scans(u, p.Text(), after, 1 + LineCount(before), FoundIn(text, p.PlacesFrom(|before|)))
  }

  lemma Unfolded(u: Classes, p: Pieces, before: string, after: string, text: string)
    requires Sane(u) && ScansAs(u, p, before, after, text)
    ensures forall x :: x in p.PlacesFrom(|before|) ==> x.at <= |text|
    ensures Scans(u, p.Text(), after, 1 + LineCount(before), FoundIn(text, p.PlacesFrom(|before|)))
  {
  }

  lemma ToldTree(line: nat, attr: Attr)
    ensures Told(line, Some(attr)) == AtLine(line, Contents(attr))
  {
  }

  lemma TreeScanned(u: Classes, p: Pieces, line: nat, after: string)
    requires Sane(u) && p.Attribute? && p.Good(u, after)
    ensures AttributeAt(u, line, p.inner.Text() + ("]" + (p.rest.Text() + after)))
         == Told(line, Some(p.attr))
  {
    hide *;
    hide Pieces.Text, Pieces.Good;
    GoodAttribute(u, p, after);
    TreeRead(u, line, p.attr, p.inner.Text(), p.rest.Text() + after);
    ToldTree(line, p.attr);
  }

  lemma PartLines(before: string, head: string, inner: string)
    ensures 1 + LineCount(before + head) == 1 + LineCount(before) + LineCount(head)
    ensures 1 + LineCount(before + head + inner + "]") == 1 + LineCount(before) + LineCount(head) + LineCount(inner)
  {
    LineCountConcat(before, head);
    LineCountConcat(before + head, inner);
    CloserLines(before + head + inner);
  }

  lemma AttributeScans(u: Classes, p: Pieces, before: string, after: string, text: string)
    requires Sane(u) && p.Attribute? && p.Good(u, after) && text == before + p.Text() + after
    requires ScansAs(u, p.inner, before + p.head.Text(), "]" + (p.rest.Text() + after), text)
    requires ScansAs(u, p.rest, before + p.head.Text() + p.inner.Text() + "]", after, text)
    ensures ScansAs(u, p, before, after, text)
  {
    hide *;
    hide Pieces.Text, Pieces.Good, Pieces.PlacesFrom, Head.Text, Head.Good;
    GoodAttribute(u, p, after);
    var line := 1 + LineCount(before);
    var open := before + p.head.Text();
    var close := open + p.inner.Text() + "]";
    Unfolded(u, p.inner, open, "]" + (p.rest.Text() + after), text);
    Unfolded(u, p.rest, close, after, text);
    AttributeHits(p, before, after);
    PartLines(before, p.head.Text(), p.inner.Text());
    TreeScanned(u, p, line, after);
    var a := Told(line, Some(p.attr));
    var i, r := FoundIn(text, p.inner.PlacesFrom(|open|)), FoundIn(text, p.rest.PlacesFrom(|close|));
    ScansAttribute(u, p.head, p.inner.Text(), p.rest.Text(), after, line, a, i, r);
    Folded(u, p, before, after, text, a.Then(i.Then(r)));
  }

  lemma Folded(u: Classes, p: Pieces, before: string, after: string, text: string, found: Scan)
    requires Sane(u) && forall x :: x in p.PlacesFrom(|before|) ==> x.at <= |text|
    requires Scans(u, p.Text(), after, 1 + LineCount(before), found) && found == FoundIn(text, p.PlacesFrom(|before|))
    ensures ScansAs(u, p, before, after, text)
  {
  }

  lemma CodeScans(u: Classes, code: string, rest: Pieces, before: string, after: string, text: string)
    requires Sane(u) && Loose(u, code, rest.Text() + after) && ScansAs(u, rest, before + code, after, text)
    ensures ScansAs(u, Code(code, rest), before, after, text)
  {
    hide Scans, FoundIn, LineCount, Loose;
    LineCountConcat(before, code);
    ScansLoose(u, code, rest.Text() + after, 1 + LineCount(before));
    var found := FoundIn(text, rest.PlacesFrom(|before + code|));
    ScansConcat(u, code, rest.Text(), after, 1 + LineCount(before), Scan([], []), found);
    NothingThen(found);
  }

  lemma NothingScans(u: Classes, before: string, after: string, text: string)
    requires Sane(u)
    ensures ScansAs(u, Pieces.End, before, after, text)
  {
    hide Scans, LineCount;
    ScansNothing(u, after, 1 + LineCount(before));
  }

  lemma UnclosedScans(u: Classes, p: Pieces, before: string, after: string, text: string)
    requires Sane(u) && p.Unclosed? && p.Good(u, after) && text == before + p.Text() + after
    requires ScansAs(u, p.rest, before + p.head.Text(), after, text)
    ensures ScansAs(u, p, before, after, text)
  {
    hide *;
    hide Pieces.Text, Pieces.Good, Pieces.PlacesFrom, Head.Text, Head.Good, Scan.Then;
    UnclosedGood(u, p, after);
    var line, open := 1 + LineCount(before), before + p.head.Text();
    UnclosedTexts(p, before, after);
    PiecesWithin(p, before, after);
    WithinFits(p.PlacesFrom(|before|), |before|, |before| + |p.Text()|, text);
    Unfolded(u, p.rest, open, after, text);
    LineCountConcat(before, p.head.Text());
    var r := FoundIn(text, p.rest.PlacesFrom(|open|));
    ScansUnclosed(u, p.head, p.rest.Text(), after, line, r);
    FoundConcat(text, [Place(|before|, None)], p.rest.PlacesFrom(|open|));
    FoundOne(text, |before|, None);
    assert text == before + (p.Text() + after);
    LinesBefore(before, p.Text() + after);
    ToldOpen(line);
    Folded(u, p, before, after, text, Scan([], [OpenAttribute(line)]).Then(r));
  }

  lemma ToldOpen(line: nat)
    ensures Told(line, None) == Scan([], [OpenAttribute(line)])
  {
  }

  lemma UnclosedGood(u: Classes, p: Pieces, after: string)
    requires p.Unclosed? && p.Good(u, after)
    ensures p.head.Good(u) && Closes(['['], p.rest.Text() + after).None?
  {
  }

  lemma {:induction false} PiecesScan(u: Classes, p: Pieces, before: string, after: string, text: string)
    requires Sane(u) && p.Good(u, after) && text == before + p.Text() + after
    ensures ScansAs(u, p, before, after, text)
    decreases p
  {
    hide ScansAs, Loose, Whole, Strip, Canon, AttrText, Head.Text;
    match p
    case End => NothingScans(u, before, after, text);
    case Code(code, rest) =>
      assert before + code + rest.Text() + after == text;
      PiecesScan(u, rest, before + code, after, text);
      CodeScans(u, code, rest, before, after, text);
    case Attribute(head, inner, attr, rest) =>
      AttributeTexts(p, before, after);
      PiecesScan(u, inner, before + head.Text(), "]" + (rest.Text() + after), text);
      PiecesScan(u, rest, before + head.Text() + inner.Text() + "]", after, text);
      AttributeScans(u, p, before, after, text);
    case Unclosed(head, rest) =>
      UnclosedTexts(p, before, after);
      PiecesScan(u, rest, before + head.Text(), after, text);
      UnclosedScans(u, p, before, after, text);
  }

  lemma FilePlaces(p: Pieces)
    ensures Within(p.PlacesFrom(0), 0, |p.Text()|, p.Text())
    ensures forall x :: x in p.PlacesFrom(0) ==> x.at <= |p.Text()|
  {
    hide Within;
    PiecesWithin(p, "", "");
    assert "" + p.Text() + "" == p.Text();
    WithinFits(p.PlacesFrom(0), 0, |p.Text()|, p.Text());
  }

  /** Of code and attributes the scan reports exactly the lints of the attributes and
      what cannot be read of them, inner ones included, and the attributes that are
      never closed, each on the line of its hash. */
  lemma FileScanned(u: Classes, p: Pieces)
    requires Sane(u) && p.Good(u, "")
    ensures forall x :: x in p.PlacesFrom(0) ==> x.at <= |p.Text()|
    ensures ScanOf(u, 1, p.Text()) == FoundIn(p.Text(), p.PlacesFrom(0))
  {
    hide *;
    hide Pieces.Good, Pieces.Text, Pieces.PlacesFrom, Scan.Then;
    assert "" + p.Text() + "" == p.Text() && p.Text() + "" == p.Text();
    PiecesScan(u, p, "", "", p.Text());
    ScansToTheEnd(u, p);
  }

  lemma ScansToTheEnd(u: Classes, p: Pieces)
    requires Sane(u) && ScansAs(u, p, "", "", p.Text())
    ensures forall x :: x in p.PlacesFrom(0) ==> x.at <= |p.Text()|
    ensures ScanOf(u, 1, p.Text()) == FoundIn(p.Text(), p.PlacesFrom(0))
  {
    hide ScanOf, FoundIn, LineCount, Scan.Then, Pieces.Text, Pieces.PlacesFrom;
    assert p.Text() + "" == p.Text();
    ScanNothing(u, 1 + LineCount(p.Text()));
    NoLines();
    ThenNothing(FoundIn(p.Text(), p.PlacesFrom(0)));
  }

  // ---------------------------------------------------------------------
  // Back to the source
  // ---------------------------------------------------------------------

  /** The rank of a place of the canonical text among its visible characters. */
  function Rank(u: Classes, clean: string, at: nat): nat
    requires at <= |clean|
  {
    |Places(u, 1, clean[..at])|
  }

  lemma HashRanked(u: Classes, clean: string, at: nat)
    requires Sane(u) && at < |clean| && clean[at] == '#'
    ensures var k := Rank(u, clean, at);
      k < |Places(u, 1, clean)| && Places(u, 1, clean)[k] == Placed('#', LineAt(clean, at))
  {
    var a, b := clean[..at], clean[at..];
    assert clean == a + b;
    PlacesConcat(u, 1, a, b);
    HashShown(u, 1 + LineCount(a), b);
  }

  lemma HashShown(u: Classes, line: nat, s: string)
    requires Sane(u) && s != "" && s[0] == '#'
    ensures Places(u, line, s) != [] && Places(u, line, s)[0] == Placed('#', line)
  {
  }

  lemma RankRises(u: Classes, clean: string, i: nat, j: nat)
    requires Sane(u) && i < j <= |clean| && clean[i] == '#'
    ensures Rank(u, clean, i) < Rank(u, clean, j)
  {
    var a, b := clean[..i], clean[i..j];
    assert clean[..j] == a + b && b[0] == '#';
    PlacesConcat(u, 1, a, b);
    HashShown(u, 1 + LineCount(a), b);
  }

  /** The place in the source of a hash of the canonical text. */
  function SourceAt(u: Classes, source: string, at: nat): nat
    requires at <= |Canon(u, RustLexer.Masked(source))|
  {
    var o := OriginsOf(u, 1, RustLexer.Masked(source));
    var k := Rank(u, Canon(u, RustLexer.Masked(source)), at);
    if k < |o| then o[k].at else 0
  }

  /** Each hash of the canonical text is one hash of the source, on the same line. */
  lemma HashInSource(u: Classes, source: string, at: nat)
    requires Sane(u)
    requires at < |Canon(u, RustLexer.Masked(source))| && Canon(u, RustLexer.Masked(source))[at] == '#'
    ensures var i := SourceAt(u, source, at);
      && i < |source| && source[i] == '#'
      && LineAt(source, i) == LineAt(Canon(u, RustLexer.Masked(source)), at)
  {
    hide *;
    var clean := Canon(u, RustLexer.Masked(source));
    var o := OriginsOf(u, 1, RustLexer.Masked(source));
    ReadFromSource(u, source);
    HashRanked(u, clean, at);
    ShownAt(o, Rank(u, clean, at));
    FaithfulAt(o, source, Rank(u, clean, at));
    SourceAtIs(u, source, at);
  }

  lemma ShownAt(o: seq<Origin>, k: nat)
    requires k < |Shown(o)|
    ensures |Shown(o)| == |o| && Shown(o)[k] == Placed(o[k].c, o[k].line)
  {
  }

  lemma FaithfulAt(o: seq<Origin>, source: string, k: nat)
    requires Faithful(o, 1, source) && k < |o|
    ensures o[k].at < |source| && source[o[k].at] == o[k].c && o[k].line == LineAt(source, o[k].at)
    ensures forall j :: k < j < |o| ==> o[k].at < o[j].at
  {
    assert Stands(o[k], 1, source);
  }

  lemma SourceAtIs(u: Classes, source: string, at: nat)
    requires at <= |Canon(u, RustLexer.Masked(source))|
    ensures var o := OriginsOf(u, 1, RustLexer.Masked(source));
      var k := Rank(u, Canon(u, RustLexer.Masked(source)), at);
      SourceAt(u, source, at) == if k < |o| then o[k].at else 0
  {
  }

  /** ... and different ones are different, in the same order. */
  lemma HashesRise(u: Classes, source: string, i: nat, j: nat)
    requires Sane(u) && i < j < |Canon(u, RustLexer.Masked(source))|
    requires Canon(u, RustLexer.Masked(source))[i] == '#' && Canon(u, RustLexer.Masked(source))[j] == '#'
    ensures SourceAt(u, source, i) < SourceAt(u, source, j)
  {
    hide *;
    var clean := Canon(u, RustLexer.Masked(source));
    var o := OriginsOf(u, 1, RustLexer.Masked(source));
    ReadFromSource(u, source);
    HashRanked(u, clean, i);
    HashRanked(u, clean, j);
    RankRises(u, clean, i, j);
    ShownAt(o, Rank(u, clean, j));
    FaithfulAt(o, source, Rank(u, clean, i));
    SourceAtIs(u, source, i);
    SourceAtIs(u, source, j);
  }

  /** The attributes' hashes in the source: hashes, on the lines of the attributes, in their order. */
  ghost predicate Owned(u: Classes, source: string, places: seq<Place>)
    requires forall p :: p in places ==> p.at <= |Canon(u, RustLexer.Masked(source))|
  {
    var clean := Canon(u, RustLexer.Masked(source));
    && (forall k :: 0 <= k < |places| ==>
        var i := SourceAt(u, source, places[k].at);
        i < |source| && source[i] == '#' && LineAt(source, i) == LineAt(clean, places[k].at))
    && (forall i, j :: 0 <= i < j < |places| ==> SourceAt(u, source, places[i].at) < SourceAt(u, source, places[j].at))
  }

  /** From source to lints: whatever comments, literals, raw prefixes, format
      characters and whitespace a source holds, when its code is canonically of
      such pieces, exactly their lints and problems are reported, each on the line that the
      hash of its own attribute has in the source. */
  lemma SourceScanned(u: Classes, xs: seq<RustLexer.Segment>, p: Pieces)
    requires Sane(u) && RustLexer.WellFormed(xs) && p.Good(u, "")
    requires Canon(u, RustLexer.SourceShown(xs)) == p.Text()
    ensures forall x :: x in p.PlacesFrom(0) ==> x.at <= |p.Text()|
    ensures var source := RustLexer.SourceText(xs);
      && Canon(u, RustLexer.Masked(source)) == p.Text()
      && ScanOf(u, 1, p.Text()) == FoundIn(p.Text(), p.PlacesFrom(0))
      && Owned(u, source, p.PlacesFrom(0))
  {
    hide *;
    hide Pieces.Good, Pieces.Text, Pieces.PlacesFrom;
    RustLexer.SourceMasked(xs);
    FileScanned(u, p);
    FilePlaces(p);
    OwnedWithin(u, RustLexer.SourceText(xs), p.PlacesFrom(0), |p.Text()|);
  }

  lemma OwnedWithin(u: Classes, source: string, places: seq<Place>, to: nat)
    requires Sane(u) && Within(places, 0, to, Canon(u, RustLexer.Masked(source)))
    ensures (forall p :: p in places ==> p.at <= |Canon(u, RustLexer.Masked(source))|) && Owned(u, source, places)
  {
    hide Canon, RustLexer.Masked, SourceAt, LineAt;
    forall k | 0 <= k < |places|
      ensures var i := SourceAt(u, source, places[k].at);
        && i < |source| && source[i] == '#'
        && LineAt(source, i) == LineAt(Canon(u, RustLexer.Masked(source)), places[k].at)
    {
      assert places[k] in places;
      HashInSource(u, source, places[k].at);
    }
    forall i, j | 0 <= i < j < |places| ensures SourceAt(u, source, places[i].at) < SourceAt(u, source, places[j].at) {
      assert places[i] in places && places[j] in places;
      HashesRise(u, source, places[i].at, places[j].at);
    }
  }
}

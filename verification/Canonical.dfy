// The trivia canonicalizer of the lint ratchet. Three passes: drop Unicode
// format characters, strip raw-identifier prefixes, and squeeze whitespace. The
// last is a loop over the text; it is proved against `Squeezed`, and `Squeezed`
// against a normal form read off the text alone.
module Canonical {
  import opened Texts

  /** The Unicode tables the passes consult. */
  datatype Classes = Classes(space: char -> bool, alnum: char -> bool, format: char -> bool)

  predicate Letter(c: char) {
    'a' <= c <= 'z' || 'A' <= c <= 'Z'
  }

  predicate IdStart(c: char) {
    Letter(c) || c == '_'
  }

  predicate Word(u: Classes, c: char) {
    c == '_' || u.alnum(c)
  }

  /** What every version of the tables says. */
  ghost predicate Sane(u: Classes) {
    && (forall c :: u.space(c) ==> !Word(u, c))
    && (forall c :: u.format(c) ==> !u.space(c))
    && (forall c :: ' ' < c < '\U{7F}' ==> !u.space(c) && !u.format(c))
    && (forall c :: ' ' < c < '\U{7F}' ==> (u.alnum(c) <==> Letter(c) || Digit(c)))
    && u.space(' ') && u.space('\n')
  }

  // ---------------------------------------------------------------------
  // The passes
  // ---------------------------------------------------------------------

  function DropFormat(u: Classes, s: string): string {
    if s == [] then ""
    else (if u.format(s[0]) then "" else [s[0]]) + DropFormat(u, s[1..])
  }

  /** `r#` stands before an identifier; `prev` says that a word character is directly before. */
  predicate RawAt(prev: bool, s: string) {
    !prev && |s| > 2 && s[0] == 'r' && s[1] == '#' && IdStart(s[2])
  }

  function StripRaw(u: Classes, prev: bool, s: string): string
    decreases |s|
  {
    if s == [] then ""
    else if RawAt(prev, s) then StripRaw(u, false, s[2..])
    else [s[0]] + StripRaw(u, Word(u, s[0]), s[1..])
  }

  function SpaceRun(u: Classes, s: string): (k: nat)
    ensures k <= |s| && (forall m :: 0 <= m < k ==> u.space(s[m])) && (k < |s| ==> !u.space(s[k]))
    ensures s != [] && u.space(s[0]) ==> k > 0
  {
    if s == [] || !u.space(s[0]) then 0 else 1 + SpaceRun(u, s[1..])
  }

  function LineCount(s: string): nat {
    if s == [] then 0 else (if s[0] == '\n' then 1 else 0) + LineCount(s[1..])
  }

  function Lines(n: nat): (s: string)
    ensures |s| == n && forall k :: 0 <= k < n ==> s[k] == '\n'
  {
    seq(n, _ => '\n')
  }

  function Squeezed(u: Classes, prev: bool, s: string): string
    decreases |s|
  {
    if s == [] then ""
    else if u.space(s[0]) then
      var k := SpaceRun(u, s);
      (if prev && k < |s| && Word(u, s[k]) then " " else "")
      + (Lines(LineCount(s[..k])) + Squeezed(u, false, s[k..]))
    else
      [s[0]] + Squeezed(u, Word(u, s[0]), s[1..])
  }

  function Canon(u: Classes, s: string): string {
    Squeezed(u, false, StripRaw(u, false, DropFormat(u, s)))
  }

  // ---------------------------------------------------------------------
  // The program
  // ---------------------------------------------------------------------

  function Concat(parts: seq<string>): string {
    if parts == [] then "" else Concat(parts[..|parts| - 1]) + parts[|parts| - 1]
  }

  /** `_is_word` on a list element: one word character. */
  predicate WordPiece(u: Classes, x: string) {
    |x| == 1 && Word(u, x[0])
  }

  predicate LastIsWord(u: Classes, out: seq<string>) {
    out != [] && WordPiece(u, out[|out| - 1])
  }

  lemma SqueezedText(u: Classes, prev: bool, s: string)
    requires s != [] && !u.space(s[0])
    ensures Squeezed(u, prev, s) == [s[0]] + Squeezed(u, Word(u, s[0]), s[1..])
  {
  }

  lemma SqueezedSpace(u: Classes, prev: bool, s: string, k: nat)
    requires s != [] && u.space(s[0]) && k == SpaceRun(u, s)
    ensures Squeezed(u, prev, s)
         == (if prev && k < |s| && Word(u, s[k]) then " " else "")
            + (Lines(LineCount(s[..k])) + Squeezed(u, false, s[k..]))
  {
  }

  lemma ConcatOne(out: seq<string>, x: string)
    ensures Concat(out + [x]) == Concat(out) + x
  {
    assert (out + [x])[..|out|] == out;
  }

  method Squeeze(u: Classes, text: string) returns (r: string)
    requires Sane(u)
    ensures r == Squeezed(u, false, text)
  {
    hide Squeezed, Concat, Word, SpaceRun, LineCount, Sane;
    var out: seq<string> := [];
    var i := 0;
    ConcatNone();
    while i < |text|
      invariant i <= |text|
      invariant Concat(out) + Squeezed(u, LastIsWord(u, out), text[i..]) == Squeezed(u, false, text)
    {
      ghost var rest := text[i..];
      if u.space(text[i]) {
        var j := SpaceEnd(u, text, i);
        SqueezedSpace(u, LastIsWord(u, out), rest, j - i);
        assert rest[j - i..] == text[j..] && rest[..j - i] == text[i..j];
        var lines := Lines(LineCount(text[i..j]));
        LinesAreNoWord(u, |lines|);
        if LastIsWord(u, out) && j < |text| && Word(u, text[j]) {
          ConcatOne(out, " ");
          out := out + [" "];
        }
        ConcatOne(out, lines);
        out := out + [lines];
        i := j;
      } else {
        SqueezedText(u, LastIsWord(u, out), rest);
        assert rest[1..] == text[i + 1..];
        ConcatOne(out, [text[i]]);
        out := out + [[text[i]]];
        i := i + 1;
      }
    }
    assert text[i..] == "";
    SqueezedNothing(u, LastIsWord(u, out));
    r := Concat(out);
  }

  lemma ConcatNone()
    ensures Concat([]) == ""
  {
  }

  lemma SqueezedNothing(u: Classes, prev: bool)
    ensures Squeezed(u, prev, "") == ""
  {
  }

  method SpaceEnd(u: Classes, text: string, i: nat) returns (j: nat)
    requires i < |text| && u.space(text[i])
    ensures j == i + SpaceRun(u, text[i..]) <= |text|
  {
    j := i + 1;
    assert text[i..][1..] == text[i + 1..];
    while j < |text| && u.space(text[j])
      invariant i < j <= |text|
      invariant j + SpaceRun(u, text[j..]) == i + SpaceRun(u, text[i..])
    {
      assert text[j..][1..] == text[j + 1..];
      j := j + 1;
    }
  }

  lemma LinesAreNoWord(u: Classes, n: nat)
    requires Sane(u)
    ensures !WordPiece(u, Lines(n))
  {
    assert u.space('\n');
  }

  method Canonicalize(u: Classes, text: string) returns (r: string)
    requires Sane(u)
    ensures r == Canon(u, text)
  {
    r := Squeeze(u, StripRaw(u, false, DropFormat(u, text)));
  }

  // ---------------------------------------------------------------------
  // The whitespace pass prints a normal form
  // ---------------------------------------------------------------------

  /** A character that is kept, with the line breaks before it, and whether
      whitespace parted it from a word character it could merge with. */
  datatype Mark = Mark(lines: nat, gap: bool, c: char)

  datatype Shape = Shape(marks: seq<Mark>, tail: nat)

  function ShapeOf(u: Classes, prev: bool, s: string): Shape
    decreases |s|
  {
    var k := SpaceRun(u, s);
    var lines := LineCount(s[..k]);
    if k == |s| then Shape([], lines)
    else
      var rest := ShapeOf(u, Word(u, s[k]), s[k + 1..]);
      Shape([Mark(lines, prev && k > 0 && Word(u, s[k]), s[k])] + rest.marks, rest.tail)
  }

  function Show(x: Shape): string
    decreases |x.marks|
  {
    if x.marks == [] then Lines(x.tail)
    else
      var m := x.marks[0];
      (if m.gap then " " else "") + (Lines(m.lines) + ([m.c] + Show(Shape(x.marks[1..], x.tail))))
  }

  /** One mark of the shape: the whitespace run, then a character that is kept. */
  lemma SqueezedMark(u: Classes, prev: bool, s: string, k: nat)
    requires k == SpaceRun(u, s) && k < |s|
    ensures Squeezed(u, prev, s)
         == (if prev && k > 0 && Word(u, s[k]) then " " else "")
            + (Lines(LineCount(s[..k])) + ([s[k]] + Squeezed(u, Word(u, s[k]), s[k + 1..])))
  {
    hide Squeezed, SpaceRun;
    assert s[k..][1..] == s[k + 1..];
    SqueezedText(u, k == 0 && prev, s[k..]);
    if k > 0 {
      SqueezedSpace(u, prev, s, k);
    } else {
      assert s[0..] == s;
    }
  }

  /** The loop computes the normal form of the text. */
  lemma {:induction false} SqueezedIsShown(u: Classes, prev: bool, s: string)
    ensures Squeezed(u, prev, s) == Show(ShapeOf(u, prev, s))
    decreases |s|
  {
    hide Squeezed, SpaceRun;
    var k := SpaceRun(u, s);
    if k < |s| {
      SqueezedMark(u, prev, s, k);
      SqueezedIsShown(u, Word(u, s[k]), s[k + 1..]);
      assert ShapeOf(u, prev, s).marks[1..] == ShapeOf(u, Word(u, s[k]), s[k + 1..]).marks;
    } else if k > 0 {
      SqueezedSpace(u, prev, s, k);
      SqueezedNothing(u, false);
      assert s[k..] == [] && s[..k] == s;
    } else {
      SqueezedNothing(u, prev);
    }
  }

  lemma {:induction false} SpaceRunIs(u: Classes, s: string, k: nat)
    requires k <= |s| && (forall m :: 0 <= m < k ==> u.space(s[m])) && (k < |s| ==> !u.space(s[k]))
    ensures SpaceRun(u, s) == k
  {
    if k > 0 {
      assert u.space(s[0]);
      SpaceRunIs(u, s[1..], k - 1);
    }
  }

  lemma {:induction false} LinesCounted(n: nat)
    ensures LineCount(Lines(n)) == n
  {
    if n > 0 {
      assert Lines(n)[1..] == Lines(n - 1);
      LinesCounted(n - 1);
    }
  }

  /** Printing a mark and reading it again. */
  lemma MarkRead(u: Classes, prev: bool, m: Mark, rest: string)
    requires Sane(u) && !u.space(m.c)
    requires m.gap <==> prev && Word(u, m.c) && (m.gap || m.lines > 0)
    ensures var x := ShapeOf(u, Word(u, m.c), rest);
      ShapeOf(u, prev, (if m.gap then " " else "") + (Lines(m.lines) + ([m.c] + rest)))
      == Shape([m] + x.marks, x.tail)
  {
    hide SpaceRun;
    var lead := (if m.gap then " " else "") + Lines(m.lines);
    var s := lead + ([m.c] + rest);
    assert s == (if m.gap then " " else "") + (Lines(m.lines) + ([m.c] + rest));
    SpaceRunIs(u, s, |lead|);
    assert s[..|lead|] == lead && s[|lead|..][0] == m.c && s[|lead| + 1..] == rest;
    LinesCounted(m.lines);
    assert m.gap ==> lead[1..] == Lines(m.lines);
    assert !m.gap ==> lead == Lines(m.lines);
  }

  lemma ShapeMark(u: Classes, prev: bool, s: string, k: nat)
    requires k == SpaceRun(u, s) && k < |s|
    ensures var m := Mark(LineCount(s[..k]), prev && k > 0 && Word(u, s[k]), s[k]);
      var x := ShapeOf(u, Word(u, s[k]), s[k + 1..]);
      ShapeOf(u, prev, s) == Shape([m] + x.marks, x.tail)
  {
  }

  lemma ShapeBlank(u: Classes, prev: bool, s: string)
    requires Sane(u) && SpaceRun(u, s) == |s|
    ensures Squeezed(u, prev, s) == Lines(LineCount(s))
    ensures ShapeOf(u, prev, s) == Shape([], LineCount(s)) == ShapeOf(u, prev, Lines(LineCount(s)))
  {
    hide SpaceRun, LineCount, Squeezed;
    SqueezedIsShown(u, prev, s);
    var n := LineCount(s);
    SpaceRunIs(u, Lines(n), n);
    LinesCounted(n);
    assert s[..|s|] == s && Lines(n)[..n] == Lines(n);
  }

  /** Squeezing loses no kept character, no line number and no word boundary. */
  lemma {:induction false} ShapeKept(u: Classes, prev: bool, s: string)
    requires Sane(u)
    ensures ShapeOf(u, prev, Squeezed(u, prev, s)) == ShapeOf(u, prev, s)
    decreases |s|
  {
    hide Squeezed, SpaceRun, LineCount, ShapeOf;
    var k := SpaceRun(u, s);
    if k < |s| {
      var m := Mark(LineCount(s[..k]), prev && k > 0 && Word(u, s[k]), s[k]);
      LineCountBound(s[..k]);
      ShapeMark(u, prev, s, k);
      SqueezedMark(u, prev, s, k);
      MarkRead(u, prev, m, Squeezed(u, Word(u, s[k]), s[k + 1..]));
      ShapeKept(u, Word(u, s[k]), s[k + 1..]);
    } else {
      ShapeBlank(u, prev, s);
    }
  }

  lemma {:induction false} LineCountBound(s: string)
    ensures LineCount(s) <= |s|
  {
    if s != [] { LineCountBound(s[1..]); }
  }

  /** Two texts squeeze to the same text exactly when they have the same shape. */
  lemma SqueezedSameIff(u: Classes, s: string, t: string)
    requires Sane(u)
    ensures Squeezed(u, false, s) == Squeezed(u, false, t) <==> ShapeOf(u, false, s) == ShapeOf(u, false, t)
  {
    hide Squeezed, ShapeOf, Show;
    SqueezedIsShown(u, false, s);
    SqueezedIsShown(u, false, t);
    ShapeKept(u, false, s);
    ShapeKept(u, false, t);
  }

  /** The whitespace pass alone is idempotent. */
  lemma SqueezedIdempotent(u: Classes, prev: bool, s: string)
    requires Sane(u)
    ensures Squeezed(u, prev, Squeezed(u, prev, s)) == Squeezed(u, prev, s)
  {
    hide Squeezed, ShapeOf, Show;
    SqueezedIsShown(u, prev, s);
    SqueezedIsShown(u, prev, Squeezed(u, prev, s));
    ShapeKept(u, prev, s);
  }

  // ---------------------------------------------------------------------
  // The raw-identifier pass, and when the whole is idempotent
  // ---------------------------------------------------------------------

  predicate HasRaw(u: Classes, prev: bool, s: string)
    decreases |s|
  {
    s != [] && (RawAt(prev, s) || HasRaw(u, Word(u, s[0]), s[1..]))
  }

  lemma {:induction false} StripRawShrinks(u: Classes, prev: bool, s: string)
    ensures |StripRaw(u, prev, s)| <= |s|
    ensures HasRaw(u, prev, s) <==> |StripRaw(u, prev, s)| < |s|
    ensures !HasRaw(u, prev, s) ==> StripRaw(u, prev, s) == s
    decreases |s|
  {
    if s != [] {
      StripRawShrinks(u, Word(u, s[0]), s[1..]);
      if RawAt(prev, s) { StripRawShrinks(u, false, s[2..]); }
    }
  }

  /** Whitespace other than a line break. */
  predicate Blank(u: Classes, c: char) {
    u.space(c) && c != '\n'
  }

  function AfterBlanks(u: Classes, s: string): (r: string)
    ensures |r| <= |s| && (r != [] ==> !Blank(u, r[0]))
  {
    if s != [] && Blank(u, s[0]) then AfterBlanks(u, s[1..]) else s
  }

  predicate Begins(s: string, c: char) {
    s != [] && s[0] == c
  }

  /** A raw prefix, possibly with blanks between its tokens. */
  predicate SpacedRawAt(u: Classes, prev: bool, s: string) {
    && !prev && Begins(s, 'r')
    && var hash := AfterBlanks(u, s[1..]);
      Begins(hash, '#')
      && var name := AfterBlanks(u, hash[1..]);
        name != [] && IdStart(name[0])
  }

  predicate HasSpacedRaw(u: Classes, prev: bool, s: string)
    decreases |s|
  {
    s != [] && (SpacedRawAt(u, prev, s) || HasSpacedRaw(u, Word(u, s[0]), s[1..]))
  }

  /** A raw prefix written with at least one blank inside it. */
  predicate HasBrokenRaw(u: Classes, prev: bool, s: string)
    decreases |s|
  {
    s != [] && ((SpacedRawAt(u, prev, s) && !RawAt(prev, s)) || HasBrokenRaw(u, Word(u, s[0]), s[1..]))
  }

  /** Stripping changes the first character only from the `r` of a prefix to a name start. */
  lemma StripRawHead(u: Classes, prev: bool, s: string)
    ensures s == [] <==> StripRaw(u, prev, s) == []
    ensures s != [] ==> StripRaw(u, prev, s)[0] == s[0] || (s[0] == 'r' && IdStart(StripRaw(u, prev, s)[0]))
    decreases |s|
  {
    if RawAt(prev, s) { StripRawHead(u, false, s[2..]); }
  }

  lemma {:induction false} StrippedBlanks(u: Classes, prev: bool, s: string)
    requires Sane(u)
    ensures AfterBlanks(u, StripRaw(u, prev, s)) == StripRaw(u, prev && AfterBlanks(u, s) == s, AfterBlanks(u, s))
  {
    if s != [] && Blank(u, s[0]) {
      StrippedBlanks(u, false, s[1..]);
      assert StripRaw(u, prev, s)[1..] == StripRaw(u, false, s[1..]);
    } else {
      StripRawHead(u, prev, s);
    }
  }

  lemma SpacedRawStripped(u: Classes, prev: bool, s: string)
    requires Sane(u) && s != [] && !RawAt(prev, s)
    ensures SpacedRawAt(u, prev, StripRaw(u, prev, s)) <==> SpacedRawAt(u, prev, s)
  {
    var t := StripRaw(u, prev, s);
    assert t[1..] == StripRaw(u, Word(u, s[0]), s[1..]);
    hide StripRaw;
    var hash, p := AfterBlanks(u, s[1..]), Word(u, s[0]) && AfterBlanks(u, s[1..]) == s[1..];
    StrippedBlanks(u, Word(u, s[0]), s[1..]);
    StripRawHead(u, p, hash);
    if Begins(hash, '#') {
      StripRawTail(u, p, hash);
      StrippedBlanks(u, false, hash[1..]);
      StripRawHead(u, false, AfterBlanks(u, hash[1..]));
    }
  }

  lemma StripRawTail(u: Classes, prev: bool, s: string)
    requires Sane(u) && Begins(s, '#')
    ensures StripRaw(u, prev, s) == "#" + StripRaw(u, false, s[1..])
  {
  }

  lemma {:induction false} BrokenRawStripped(u: Classes, prev: bool, s: string)
    requires Sane(u)
    ensures HasSpacedRaw(u, prev, StripRaw(u, prev, s)) <==> HasBrokenRaw(u, prev, s)
    decreases |s|
  {
    hide Sane, SpacedRawAt;
    if s != [] {
      if RawAt(prev, s) {
        BrokenRawStripped(u, false, s[2..]);
        BrokenRawSkips(u, prev, s);
      } else {
        SpacedRawStripped(u, prev, s);
        assert StripRaw(u, prev, s)[1..] == StripRaw(u, Word(u, s[0]), s[1..]);
        BrokenRawStripped(u, Word(u, s[0]), s[1..]);
      }
    }
  }

  lemma BrokenRawSkips(u: Classes, prev: bool, s: string)
    requires Sane(u) && RawAt(prev, s)
    ensures HasBrokenRaw(u, prev, s) <==> HasBrokenRaw(u, false, s[2..])
  {
    var t := s[1..];
    assert t[1..] == s[2..] && !Begins(t, 'r');
    assert HasBrokenRaw(u, Word(u, 'r'), t) <==> HasBrokenRaw(u, false, t[1..]);
  }

  lemma {:induction false} RunBlanks(u: Classes, s: string)
    requires Sane(u)
    ensures var k := SpaceRun(u, s);
      if LineCount(s[..k]) == 0 then AfterBlanks(u, s) == s[k..] else Begins(AfterBlanks(u, s), '\n')
  {
    var k := SpaceRun(u, s);
    if k > 0 {
      assert s[..k][1..] == s[1..][..k - 1];
      RunBlanks(u, s[1..]);
    }
  }

  /** The first character the whitespace pass writes. */
  lemma SqueezedHead(u: Classes, prev: bool, s: string)
    requires Sane(u)
    ensures var y := AfterBlanks(u, s);
      var r := Squeezed(u, prev, s);
      && (y == [] ==> r == [])
      && (y != [] && y[0] == '\n' ==> r != [] && u.space(r[0]))
      && (y != [] && y[0] != '\n' ==>
            !u.space(y[0]) &&
            r == (if prev && y != s && Word(u, y[0]) then " " else "") + ([y[0]] + Squeezed(u, Word(u, y[0]), y[1..])))
  {
    hide Squeezed, SpaceRun, LineCount;
    var k := SpaceRun(u, s);
    RunBlanks(u, s);
    var y := AfterBlanks(u, s);
    if k < |s| {
      SqueezedMark(u, prev, s, k);
      if LineCount(s[..k]) == 0 {
        assert y == s[k..] && y[1..] == s[k + 1..];
        assert k == 0 <==> y == s;
        assert Lines(0) == "";
      }
    } else {
      ShapeBlank(u, prev, s);
      assert s[..k] == s;
    }
  }

  lemma RawAtSqueezed(u: Classes, prev: bool, s: string)
    requires Sane(u) && s != [] && !u.space(s[0])
    ensures RawAt(prev, Squeezed(u, prev, s)) <==> SpacedRawAt(u, prev, s)
  {
    hide Squeezed;
    SqueezedText(u, prev, s);
    var r := Squeezed(u, Word(u, s[0]), s[1..]);
    assert Squeezed(u, prev, s)[1..] == r;
    SqueezedHead(u, Word(u, s[0]), s[1..]);
    var hash := AfterBlanks(u, s[1..]);
    if Begins(hash, '#') {
      var after := Squeezed(u, false, hash[1..]);
      assert r == "#" + after;
      SqueezedHead(u, false, hash[1..]);
    }
  }

  lemma {:induction false} RawAfterSpace(u: Classes, prev: bool, lead: string, s: string)
    requires Sane(u) && (forall c :: c in lead ==> u.space(c))
    requires lead == [] && prev ==> s == [] || !Word(u, s[0])
    ensures HasRaw(u, prev, lead + s) <==> HasRaw(u, false, s)
  {
    if lead == [] {
      assert lead + s == s;
      assert Word(u, 'r');
    } else {
      assert (lead + s)[1..] == lead[1..] + s;
      assert u.space(lead[0]) && Word(u, 'r');
      RawAfterSpace(u, false, lead[1..], s);
    }
  }

  lemma {:induction false} SpacedRawAfterSpace(u: Classes, prev: bool, s: string, k: nat)
    requires Sane(u) && 0 < k <= |s| && (forall m :: 0 <= m < k ==> u.space(s[m]))
    ensures HasSpacedRaw(u, prev, s) <==> HasSpacedRaw(u, false, s[k..])
  {
    hide SpacedRawAt;
    assert u.space(s[0]);
    assert !SpacedRawAt(u, prev, s) by { SpaceOpensNothing(u, prev, s); }
    if k > 1 {
      SpacedRawAfterSpace(u, false, s[1..], k - 1);
      assert s[1..][k - 1..] == s[k..];
    }
  }

  lemma SpaceOpensNothing(u: Classes, prev: bool, s: string)
    requires Sane(u) && s != [] && u.space(s[0])
    ensures !SpacedRawAt(u, prev, s)
  {
    assert Word(u, 'r');
  }

  /** The squeezed text shows a raw prefix exactly where the text has one, blanks aside. */
  lemma {:induction false} RawSqueezed(u: Classes, prev: bool, s: string)
    requires Sane(u)
    ensures HasRaw(u, prev, Squeezed(u, prev, s)) <==> HasSpacedRaw(u, prev, s)
    decreases |s|
  {
    hide Squeezed, SpacedRawAt, RawAt, SpaceRun, LineCount;
    if s == [] {
      SqueezedNothing(u, prev);
    } else if u.space(s[0]) {
      var k := SpaceRun(u, s);
      SqueezedSpace(u, prev, s, k);
      var lead := (if prev && k < |s| && Word(u, s[k]) then " " else "") + Lines(LineCount(s[..k]));
      var rest := Squeezed(u, false, s[k..]);
      assert Squeezed(u, prev, s) == lead + rest;
      if k < |s| { SqueezedText(u, false, s[k..]); } else { assert s[k..] == ""; SqueezedNothing(u, false); }
      RawAfterSpace(u, prev, lead, rest);
      SpacedRawAfterSpace(u, prev, s, k);
      RawSqueezed(u, false, s[k..]);
    } else {
      RawAtSqueezed(u, prev, s);
      SqueezedText(u, prev, s);
      assert Squeezed(u, prev, s)[1..] == Squeezed(u, Word(u, s[0]), s[1..]);
      RawSqueezed(u, Word(u, s[0]), s[1..]);
    }
  }

  lemma {:induction false} SqueezedChars(u: Classes, prev: bool, s: string)
    ensures forall c :: c in Squeezed(u, prev, s) ==> c == ' ' || c == '\n' || c in s
    decreases |s|
  {
    if s != [] {
      SqueezedChars(u, Word(u, s[0]), s[1..]);
      if u.space(s[0]) { SqueezedChars(u, false, s[SpaceRun(u, s)..]); }
    }
  }

  lemma {:induction false} StrippedChars(u: Classes, prev: bool, s: string)
    ensures forall c :: c in StripRaw(u, prev, s) ==> c in s
    decreases |s|
  {
    if s != [] {
      StrippedChars(u, Word(u, s[0]), s[1..]);
      if RawAt(prev, s) { StrippedChars(u, false, s[2..]); }
    }
  }

  lemma {:induction false} DroppedFormat(u: Classes, s: string)
    ensures forall c :: c in DropFormat(u, s) ==> !u.format(c)
    ensures (forall c :: c in s ==> !u.format(c)) ==> DropFormat(u, s) == s
  {
    if s != [] { DroppedFormat(u, s[1..]); }
  }

  lemma CanonHasNoFormat(u: Classes, s: string)
    requires Sane(u)
    ensures DropFormat(u, Canon(u, s)) == Canon(u, s)
  {
    hide DropFormat, StripRaw, Squeezed;
    var d := DropFormat(u, s);
    DroppedFormat(u, s);
    StrippedChars(u, false, d);
    SqueezedChars(u, false, StripRaw(u, false, d));
    assert u.space(' ') && u.space('\n');
    DroppedFormat(u, Canon(u, s));
  }

  function Solid(u: Classes, s: string): nat {
    if s == [] then 0 else (if u.space(s[0]) then 0 else 1) + Solid(u, s[1..])
  }

  lemma {:induction false} KeptAfterSpace(u: Classes, lead: string, s: string)
    requires forall c :: c in lead ==> u.space(c)
    ensures Solid(u, lead + s) == Solid(u, s)
  {
    if lead == [] {
      assert lead + s == s;
    } else {
      assert lead[0] in lead && (lead + s)[1..] == lead[1..] + s;
      KeptAfterSpace(u, lead[1..], s);
    }
  }

  lemma {:induction false} SqueezedKeeps(u: Classes, prev: bool, s: string)
    requires Sane(u)
    ensures Solid(u, Squeezed(u, prev, s)) == Solid(u, s)
    decreases |s|
  {
    hide Squeezed, SpaceRun;
    if s == [] {
      SqueezedNothing(u, prev);
    } else if u.space(s[0]) {
      var k := SpaceRun(u, s);
      SqueezedSpace(u, prev, s, k);
      var lead := (if prev && k < |s| && Word(u, s[k]) then " " else "") + Lines(LineCount(s[..k]));
      KeptAfterSpace(u, lead, Squeezed(u, false, s[k..]));
      assert Squeezed(u, prev, s) == lead + Squeezed(u, false, s[k..]);
      KeptAfterSpace(u, s[..k], s[k..]);
      assert s[..k] + s[k..] == s;
      SqueezedKeeps(u, false, s[k..]);
    } else {
      SqueezedText(u, prev, s);
      assert Squeezed(u, prev, s)[1..] == Squeezed(u, Word(u, s[0]), s[1..]);
      SqueezedKeeps(u, Word(u, s[0]), s[1..]);
    }
  }

  lemma {:induction false} StrippedKeeps(u: Classes, prev: bool, s: string)
    requires Sane(u)
    ensures Solid(u, StripRaw(u, prev, s)) <= Solid(u, s)
    ensures HasRaw(u, prev, s) ==> Solid(u, StripRaw(u, prev, s)) < Solid(u, s)
    decreases |s|
  {
    if s != [] {
      if RawAt(prev, s) {
        StrippedKeeps(u, false, s[2..]);
        assert s[1..][1..] == s[2..];
      } else {
        StrippedKeeps(u, Word(u, s[0]), s[1..]);
        assert StripRaw(u, prev, s)[1..] == StripRaw(u, Word(u, s[0]), s[1..]);
      }
    }
  }

  /** A second run of the canonicalizer changes nothing exactly when no raw
      prefix of the text is written with a blank between `r`, `#` and the name. */
  lemma CanonIdempotentIff(u: Classes, s: string)
    requires Sane(u)
    ensures Canon(u, Canon(u, s)) == Canon(u, s) <==> !HasBrokenRaw(u, false, DropFormat(u, s))
  {
    hide DropFormat, StripRaw, Squeezed, HasRaw, HasBrokenRaw, HasSpacedRaw, Solid;
    var d := DropFormat(u, s);
    var t := StripRaw(u, false, d);
    var c := Squeezed(u, false, t);
    CanonHasNoFormat(u, s);
    BrokenRawStripped(u, false, d);
    RawSqueezed(u, false, t);
    StripRawShrinks(u, false, c);
    if HasRaw(u, false, c) {
      StrippedKeeps(u, false, c);
      SqueezedKeeps(u, false, StripRaw(u, false, c));
    } else {
      SqueezedIdempotent(u, false, t);
    }
  }

  /** The unconditional claim fails: a blank inside the prefix costs a second run. */
  lemma NotAlwaysIdempotent(u: Classes)
    requires Sane(u)
    ensures Canon(u, Canon(u, "r# f")) != Canon(u, "r# f")
  {
    assert DropFormat(u, "r# f") == "r# f" by {
      DropOne(u, 'r', "# f");
      DropOne(u, '#', " f");
      DropOne(u, ' ', "f");
      DropOne(u, 'f', "");
    }
    var s := "r# f";
    assert AfterBlanks(u, s[1..]) == "# f";
    assert "# f"[1..] == " f" && " f"[1..] == "f";
    assert AfterBlanks(u, " f") == "f";
    CanonIdempotentIff(u, s);
  }

  lemma DropOne(u: Classes, c: char, s: string)
    requires !u.format(c)
    ensures DropFormat(u, [c] + s) == [c] + DropFormat(u, s)
  {
  }

  // ---------------------------------------------------------------------
  // Line numbers
  // ---------------------------------------------------------------------

  datatype Placed = Placed(c: char, line: nat)

  /** The characters that are not whitespace, each with the line breaks before it. */
  function Places(u: Classes, line: nat, s: string): seq<Placed>
    decreases |s|
  {
    if s == [] then []
    else if u.space(s[0]) then Places(u, line + (if s[0] == '\n' then 1 else 0), s[1..])
    else [Placed(s[0], line)] + Places(u, line, s[1..])
  }

  predicate Sub<T(==)>(a: seq<T>, b: seq<T>) {
    a == [] || (b != [] && ((a[0] == b[0] && Sub(a[1..], b[1..])) || Sub(a, b[1..])))
  }

  lemma {:induction false} SubTail<T>(a: seq<T>, b: seq<T>)
    requires a != [] && Sub(a, b)
    ensures Sub(a[1..], b) && b != [] && Sub(a[1..], b[1..])
    decreases |b|
  {
    if !(a[0] == b[0] && Sub(a[1..], b[1..])) {
      SubTail(a, b[1..]);
    }
  }

  lemma {:induction false} SubTransitive<T>(a: seq<T>, b: seq<T>, c: seq<T>)
    requires Sub(a, b) && Sub(b, c)
    ensures Sub(a, c)
    decreases |c|, |b|
  {
    if a != [] {
      if b[0] == c[0] && Sub(b[1..], c[1..]) {
        if a[0] == b[0] && Sub(a[1..], b[1..]) {
          SubTransitive(a[1..], b[1..], c[1..]);
        } else {
          SubTransitive(a, b[1..], c[1..]);
        }
      } else {
        SubTransitive(a, b, c[1..]);
      }
    }
  }

  lemma {:induction false} SubRefl<T>(a: seq<T>)
    ensures Sub(a, a)
  {
    if a != [] { SubRefl(a[1..]); }
  }

  lemma {:induction false} PlacesAfterSpace(u: Classes, line: nat, lead: string, s: string)
    requires forall c :: c in lead ==> u.space(c)
    ensures Places(u, line, lead + s) == Places(u, line + LineCount(lead), s)
    decreases |lead|
  {
    if lead == [] {
      assert lead + s == s;
    } else {
      assert lead[0] in lead && (lead + s)[1..] == lead[1..] + s;
      PlacesAfterSpace(u, line + (if lead[0] == '\n' then 1 else 0), lead[1..], s);
    }
  }

  lemma {:induction false} PlacesSqueezed(u: Classes, prev: bool, line: nat, s: string)
    requires Sane(u)
    ensures Places(u, line, Squeezed(u, prev, s)) == Places(u, line, s)
    decreases |s|
  {
    hide Squeezed, SpaceRun, LineCount;
    if s == [] {
      SqueezedNothing(u, prev);
    } else if u.space(s[0]) {
      var k := SpaceRun(u, s);
      SqueezedSpace(u, prev, s, k);
      var n := LineCount(s[..k]);
      var gap := if prev && k < |s| && Word(u, s[k]) then " " else "";
      var rest := Squeezed(u, false, s[k..]);
      PlacesAfterSpace(u, line, s[..k], s[k..]);
      assert s[..k] + s[k..] == s;
      PlacesAfterSpace(u, line, gap, Lines(n) + rest);
      GapHasNoLine(gap);
      PlacesAfterSpace(u, line, Lines(n), rest);
      LinesCounted(n);
      PlacesSqueezed(u, false, line + n, s[k..]);
    } else {
      SqueezedText(u, prev, s);
      assert Squeezed(u, prev, s)[1..] == Squeezed(u, Word(u, s[0]), s[1..]);
      PlacesSqueezed(u, Word(u, s[0]), line, s[1..]);
    }
  }

  lemma GapHasNoLine(gap: string)
    requires gap == " " || gap == ""
    ensures LineCount(gap) == 0
  {
  }

  lemma {:induction false} PlacesStripped(u: Classes, prev: bool, line: nat, s: string)
    requires Sane(u)
    ensures Sub(Places(u, line, StripRaw(u, prev, s)), Places(u, line, s))
    decreases |s|
  {
    if s != [] {
      if RawAt(prev, s) {
        PlacesStripped(u, false, line, s[2..]);
        assert s[1..][1..] == s[2..];
        var x := Places(u, line, s[2..]);
        assert !u.space('r') by { assert Word(u, 'r'); }
        assert Places(u, line, s[1..]) == [Placed('#', line)] + x;
        assert Places(u, line, s) == [Placed('r', line), Placed('#', line)] + x;
        SubLonger(Places(u, line, StripRaw(u, false, s[2..])), [Placed('r', line), Placed('#', line)], x);
      } else {
        assert StripRaw(u, prev, s)[1..] == StripRaw(u, Word(u, s[0]), s[1..]);
        PlacesStripped(u, Word(u, s[0]), line + (if s[0] == '\n' then 1 else 0), s[1..]);
        PlacesStripped(u, Word(u, s[0]), line, s[1..]);
      }
    }
  }

  lemma {:induction false} SubLonger<T>(a: seq<T>, more: seq<T>, b: seq<T>)
    requires Sub(a, b)
    ensures Sub(a, more + b)
  {
    if more == [] {
      assert more + b == b;
    } else {
      SubLonger(a, more[1..], b);
      assert (more + b)[1..] == more[1..] + b;
    }
  }

  lemma {:induction false} PlacesDropped(u: Classes, line: nat, s: string)
    requires Sane(u)
    ensures Sub(Places(u, line, DropFormat(u, s)), Places(u, line, s))
    decreases |s|
  {
    if s != [] {
      PlacesDropped(u, line + (if s[0] == '\n' then 1 else 0), s[1..]);
      PlacesDropped(u, line, s[1..]);
      var d := DropFormat(u, s[1..]);
      if u.format(s[0]) {
        assert !u.space(s[0]) && DropFormat(u, s) == d;
        SubLonger(Places(u, line, d), [Placed(s[0], line)], Places(u, line, s[1..]));
      } else {
        assert DropFormat(u, s)[1..] == d;
      }
    }
  }

  /** Canonicalizing drops characters but never moves one to another line. */
  lemma CanonKeepsLines(u: Classes, line: nat, s: string)
    requires Sane(u)
    ensures Sub(Places(u, line, Canon(u, s)), Places(u, line, s))
  {
    hide DropFormat, StripRaw, Squeezed, Places, Sub;
    var d := DropFormat(u, s);
    PlacesSqueezed(u, false, line, StripRaw(u, false, d));
    PlacesStripped(u, false, line, d);
    PlacesDropped(u, line, s);
    SubTransitive(Places(u, line, Canon(u, s)), Places(u, line, d), Places(u, line, s));
  }
}

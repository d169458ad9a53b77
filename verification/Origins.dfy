// Where the characters of a canonical text come from: the passes on characters
// that carry their place and line in the source.
module Origins {
  import opened Canonical
  import opened Scanning
  import RustLexer

  /** A character with its place and its line. */
  datatype Origin = Origin(c: char, at: nat, line: nat)

  function Marked(at: nat, line: nat, s: string): seq<Origin>
    decreases |s|
  {
    if s == [] then []
    else [Origin(s[0], at, line)] + Marked(at + 1, line + (if s[0] == '\n' then 1 else 0), s[1..])
  }

  function Chars(t: seq<Origin>): string {
    seq(|t|, i requires 0 <= i < |t| => t[i].c)
  }

  function WithoutFormat(u: Classes, t: seq<Origin>): seq<Origin> {
    if t == [] then [] else (if u.format(t[0].c) then [] else [t[0]]) + WithoutFormat(u, t[1..])
  }

  function WithoutRaw(u: Classes, prev: bool, t: seq<Origin>): seq<Origin>
    decreases |t|
  {
    if t == [] then []
    else if RawAt(prev, Chars(t)) then WithoutRaw(u, false, t[2..])
    else [t[0]] + WithoutRaw(u, Word(u, t[0].c), t[1..])
  }

  function Visible(u: Classes, t: seq<Origin>): seq<Origin> {
    if t == [] then [] else (if u.space(t[0].c) then [] else [t[0]]) + Visible(u, t[1..])
  }

  /** The origins of the visible characters of `Canon(u, s)`. */
  function OriginsOf(u: Classes, line: nat, s: string): seq<Origin> {
    Visible(u, WithoutRaw(u, false, WithoutFormat(u, Marked(0, line, s))))
  }

  function Shown(t: seq<Origin>): seq<Placed> {
    seq(|t|, i requires 0 <= i < |t| => Placed(t[i].c, t[i].line))
  }

  // ---------------------------------------------------------------------
  // The passes do with marks what they do without
  // ---------------------------------------------------------------------

  /** The lines count the line breaks. */
  ghost predicate InStep(t: seq<Origin>, line: nat)
    decreases |t|
  {
    t != [] ==> t[0].line == line && InStep(t[1..], line + if t[0].c == '\n' then 1 else 0)
  }

  lemma CharsTail(t: seq<Origin>)
    requires t != []
    ensures Chars(t)[0] == t[0].c && Chars(t)[1..] == Chars(t[1..])
  {
  }

  lemma {:induction false} MarkedInStep(at: nat, line: nat, s: string)
    ensures InStep(Marked(at, line, s), line) && Chars(Marked(at, line, s)) == s
    decreases |s|
  {
    if s != [] {
      var next := line + if s[0] == '\n' then 1 else 0;
      MarkedInStep(at + 1, next, s[1..]);
      var t := Marked(at, line, s);
      assert t[1..] == Marked(at + 1, next, s[1..]);
      CharsTail(t);
      assert s == [s[0]] + s[1..];
    }
  }

  lemma CharsFirst(x: Origin, t: seq<Origin>)
    ensures Chars([x] + t) == [x.c] + Chars(t)
  {
  }

  lemma {:induction false} FormatInStep(u: Classes, t: seq<Origin>, line: nat)
    requires Sane(u) && InStep(t, line)
    ensures InStep(WithoutFormat(u, t), line) && Chars(WithoutFormat(u, t)) == DropFormat(u, Chars(t))
    decreases |t|
  {
    hide Chars;
    if t == [] {
      NoChars();
    } else {
      assert !u.format('\n') by { assert u.space('\n'); }
      FormatInStep(u, t[1..], line + if t[0].c == '\n' then 1 else 0);
      CharsTail(t);
      assert Chars(t) == [t[0].c] + Chars(t[1..]) by { CharsFirst(t[0], t[1..]); assert t == [t[0]] + t[1..]; }
      var rest := WithoutFormat(u, t[1..]);
      if u.format(t[0].c) {
        assert WithoutFormat(u, t) == rest;
      } else {
        assert WithoutFormat(u, t)[1..] == rest;
        CharsFirst(t[0], rest);
      }
    }
  }

  lemma NoChars()
    ensures Chars([]) == ""
  {
  }

  lemma {:induction false} RawInStep(u: Classes, prev: bool, t: seq<Origin>, line: nat)
    requires InStep(t, line)
    ensures InStep(WithoutRaw(u, prev, t), line) && Chars(WithoutRaw(u, prev, t)) == StripRaw(u, prev, Chars(t))
    decreases |t|
  {
    hide Chars;
    if t == [] {
      NoChars();
    } else {
      CharsTail(t);
      if RawAt(prev, Chars(t)) {
        RawChars(t);
        RawInStep(u, false, t[2..], line);
      } else {
        RawInStep(u, Word(u, t[0].c), t[1..], line + if t[0].c == '\n' then 1 else 0);
        var rest := WithoutRaw(u, Word(u, t[0].c), t[1..]);
        CharsFirst(t[0], rest);
        assert WithoutRaw(u, prev, t)[1..] == rest;
        CharsSome(t);
      }
    }
  }

  lemma CharsSome(t: seq<Origin>)
    ensures |Chars(t)| == |t|
  {
  }

  lemma RawChars(t: seq<Origin>)
    requires |Chars(t)| > 2 && Chars(t)[0] == 'r' && Chars(t)[1] == '#'
    ensures |t| > 2 && t[0].c == 'r' && t[1].c == '#' && Chars(t)[2..] == Chars(t[2..])
    ensures t[1..][1..] == t[2..]
  {
  }

  lemma {:induction false} PlacesShown(u: Classes, t: seq<Origin>, line: nat)
    requires Sane(u) && InStep(t, line)
    ensures Places(u, line, Chars(t)) == Shown(Visible(u, t))
    decreases |t|
  {
    if t != [] {
      CharsTail(t);
      var next := line + if t[0].c == '\n' then 1 else 0;
      PlacesShown(u, t[1..], next);
      assert u.space('\n');
      hide Chars;
      CharsSome(t);
      var rest := Visible(u, t[1..]);
      assert Shown([t[0]] + rest) == [Placed(t[0].c, t[0].line)] + Shown(rest);
    }
  }

  /** The visible characters of a canonical text are those marked, on their lines. */
  lemma CanonShown(u: Classes, line: nat, s: string)
    requires Sane(u)
    ensures Places(u, line, Canon(u, s)) == Shown(OriginsOf(u, line, s))
  {
    hide *;
    MarkedInStep(0, line, s);
    var t := Marked(0, line, s);
    FormatInStep(u, t, line);
    var d := WithoutFormat(u, t);
    RawInStep(u, false, d, line);
    PlacesShown(u, WithoutRaw(u, false, d), line);
    PlacesSqueezed(u, false, line, StripRaw(u, false, DropFormat(u, s)));
    CanonIs(u, s);
    OriginsAre(u, line, s);
  }

  lemma CanonIs(u: Classes, s: string)
    ensures Canon(u, s) == Squeezed(u, false, StripRaw(u, false, DropFormat(u, s)))
  {
  }

  lemma OriginsAre(u: Classes, line: nat, s: string)
    ensures OriginsOf(u, line, s) == Visible(u, WithoutRaw(u, false, WithoutFormat(u, Marked(0, line, s))))
  {
  }

  // ---------------------------------------------------------------------
  // The marks tell the truth
  // ---------------------------------------------------------------------

  /** The characters stand in the text where they say, on the lines they say, in order. */
  ghost predicate Faithful(t: seq<Origin>, line: nat, s: string) {
    && (forall k :: 0 <= k < |t| ==> Stands(t[k], line, s))
    && (forall i, j :: 0 <= i < j < |t| ==> t[i].at < t[j].at)
  }

  ghost predicate Stands(o: Origin, line: nat, s: string) {
    o.at < |s| && s[o.at] == o.c && o.line == line + LineCount(s[..o.at])
  }

  lemma FaithfulTail(t: seq<Origin>, n: nat, line: nat, s: string)
    requires Faithful(t, line, s) && n <= |t|
    ensures Faithful(t[n..], line, s)
  {
  }

  lemma FaithfulFirst(x: Origin, t: seq<Origin>, line: nat, s: string)
    requires Stands(x, line, s) && Faithful(t, line, s) && (t != [] ==> x.at < t[0].at)
    ensures Faithful([x] + t, line, s)
  {
    hide Stands;
    var r := [x] + t;
    forall i, j | 0 <= i < j < |r| ensures r[i].at < r[j].at {
      assert r[j] == t[j - 1];
      if i > 0 { assert r[i] == t[i - 1]; } else if j > 1 { assert t[0].at < t[j - 1].at; }
    }
  }

  lemma {:induction false} MarkedFaithful(before: string, line: nat, s: string)
    ensures Faithful(Marked(|before|, line + LineCount(before), s), line, before + s)
    ensures s != [] ==> Marked(|before|, line + LineCount(before), s)[0].at == |before|
    decreases |s|
  {
    hide Faithful, Stands, LineCount;
    if s == [] {
      NothingFaithful(line, before + s);
    } else {
      var all := before + s;
      assert before + [s[0]] + s[1..] == all && [s[0]][1..] == "";
      LineCountConcat(before, [s[0]]);
      LineCountOne(s[0]);
      MarkedFaithful(before + [s[0]], line, s[1..]);
      var x := Origin(s[0], |before|, line + LineCount(before));
      assert Stands(x, line, all) by { MarkStands(before, line, s); }
      FaithfulFirst(x, Marked(|before| + 1, line + LineCount(before + [s[0]]), s[1..]), line, all);
    }
  }

  lemma NothingFaithful(line: nat, s: string)
    ensures Faithful([], line, s)
  {
  }

  lemma LineCountOne(c: char)
    ensures LineCount([c]) == if c == '\n' then 1 else 0
  {
    assert [c][1..] == "";
  }

  lemma MarkStands(before: string, line: nat, s: string)
    requires s != []
    ensures Stands(Origin(s[0], |before|, line + LineCount(before)), line, before + s)
  {
    assert (before + s)[..|before|] == before;
  }

  /** A part of the marks, in their order. */
  ghost predicate PartOf(r: seq<Origin>, t: seq<Origin>, line: nat, s: string) {
    Faithful(r, line, s) && (r != [] ==> t != [] && t[0].at <= r[0].at)
  }

  lemma PartLater(r: seq<Origin>, t: seq<Origin>, n: nat, line: nat, s: string)
    requires Faithful(t, line, s) && 0 < n <= |t| && PartOf(r, t[n..], line, s)
    ensures PartOf(r, t, line, s)
  {
    hide Stands;
    if r != [] { assert t[0].at < t[n].at == t[n..][0].at; }
  }

  lemma PartFirst(r: seq<Origin>, t: seq<Origin>, line: nat, s: string)
    requires Faithful(t, line, s) && t != [] && PartOf(r, t[1..], line, s)
    ensures PartOf([t[0]] + r, t, line, s)
  {
    hide Stands;
    if r != [] { assert t[0].at < t[1].at == t[1..][0].at; }
    FaithfulFirst(t[0], r, line, s);
  }

  lemma PartNothing(t: seq<Origin>, line: nat, s: string)
    ensures PartOf([], t, line, s)
  {
  }

  lemma {:induction false} FormatPart(u: Classes, t: seq<Origin>, line: nat, s: string)
    requires Faithful(t, line, s)
    ensures PartOf(WithoutFormat(u, t), t, line, s)
    decreases |t|
  {
    hide Faithful, PartOf;
    if t == [] {
      PartNothing(t, line, s);
    } else {
      FaithfulTail(t, 1, line, s);
      FormatPart(u, t[1..], line, s);
      if u.format(t[0].c) {
        assert WithoutFormat(u, t) == WithoutFormat(u, t[1..]);
        PartLater(WithoutFormat(u, t[1..]), t, 1, line, s);
      } else {
        PartFirst(WithoutFormat(u, t[1..]), t, line, s);
      }
    }
  }

  lemma {:induction false} RawPart(u: Classes, prev: bool, t: seq<Origin>, line: nat, s: string)
    requires Faithful(t, line, s)
    ensures PartOf(WithoutRaw(u, prev, t), t, line, s)
    decreases |t|
  {
    hide Faithful, PartOf;
    if t == [] {
      PartNothing(t, line, s);
    } else if RawAt(prev, Chars(t)) {
      FaithfulTail(t, 2, line, s);
      RawPart(u, false, t[2..], line, s);
      PartLater(WithoutRaw(u, false, t[2..]), t, 2, line, s);
    } else {
      FaithfulTail(t, 1, line, s);
      RawPart(u, Word(u, t[0].c), t[1..], line, s);
      PartFirst(WithoutRaw(u, Word(u, t[0].c), t[1..]), t, line, s);
    }
  }

  lemma {:induction false} VisiblePart(u: Classes, t: seq<Origin>, line: nat, s: string)
    requires Faithful(t, line, s)
    ensures PartOf(Visible(u, t), t, line, s) && forall o :: o in Visible(u, t) ==> !u.space(o.c)
    decreases |t|
  {
    hide Faithful, PartOf;
    if t == [] {
      PartNothing(t, line, s);
    } else {
      FaithfulTail(t, 1, line, s);
      VisiblePart(u, t[1..], line, s);
      if u.space(t[0].c) {
        assert Visible(u, t) == Visible(u, t[1..]);
        PartLater(Visible(u, t[1..]), t, 1, line, s);
      } else {
        PartFirst(Visible(u, t[1..]), t, line, s);
      }
    }
  }

  lemma OriginsFaithful(u: Classes, line: nat, s: string)
    ensures Faithful(OriginsOf(u, line, s), line, s) && forall o :: o in OriginsOf(u, line, s) ==> !u.space(o.c)
  {
    MarkedFaithful("", line, s);
    assert "" + s == s && LineCount("") == 0;
    hide Faithful, WithoutFormat, WithoutRaw, Visible, Marked, LineCount;
    var t := Marked(0, line, s);
    FormatPart(u, t, line, s);
    var d := WithoutFormat(u, t);
    RawPart(u, false, d, line, s);
    VisiblePart(u, WithoutRaw(u, false, d), line, s);
  }

  // ---------------------------------------------------------------------
  // Behind the mask
  // ---------------------------------------------------------------------

  lemma {:induction false} BlankedLines(m: string, s: string, n: nat)
    requires Blanked(m, s) && n <= |s|
    ensures LineCount(m[..n]) == LineCount(s[..n])
  {
    if n > 0 {
      BlankedLines(m, s, n - 1);
      LineCountConcat(m[..n - 1], [m[n - 1]]);
      LineCountConcat(s[..n - 1], [s[n - 1]]);
      LineCountOne(m[n - 1]);
      LineCountOne(s[n - 1]);
      assert m[..n] == m[..n - 1] + [m[n - 1]] && s[..n] == s[..n - 1] + [s[n - 1]];
      assert m[n - 1] == s[n - 1] || (m[n - 1] == ' ' && s[n - 1] != '\n');
    }
  }

  lemma BlankedFaithful(u: Classes, t: seq<Origin>, line: nat, m: string, s: string)
    requires Sane(u) && Blanked(m, s) && Faithful(t, line, m) && forall o :: o in t ==> !u.space(o.c)
    ensures Faithful(t, line, s)
  {
    forall k | 0 <= k < |t| ensures Stands(t[k], line, s) {
      assert t[k] in t && Stands(t[k], line, m);
      assert t[k].c != ' ' by { assert u.space(' '); }
      BlankedLines(m, s, t[k].at);
    }
  }

  /** Every visible character that is read comes from one place of the source, in
      order, and stands on the same line there. */
  lemma ReadFromSource(u: Classes, source: string)
    requires Sane(u)
    ensures var o := OriginsOf(u, 1, RustLexer.Masked(source));
      Places(u, 1, Canon(u, RustLexer.Masked(source))) == Shown(o) && Faithful(o, 1, source)
  {
    RustLexer.MaskFrame(source);
    hide Faithful, RustLexer.Masked, OriginsOf, Canon, Places;
    var m := RustLexer.Masked(source);
    CanonShown(u, 1, m);
    OriginsFaithful(u, 1, m);
    BlankedFaithful(u, OriginsOf(u, 1, m), 1, m, source);
  }
}

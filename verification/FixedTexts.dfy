// Texts the canonicalizer leaves alone, and how they may be put together. The
// attribute reader canonicalizes again at every level of nesting, so the printed
// form of an attribute has to be such a text.
module FixedTexts {
  import opened Canonical

  ghost predicate Fixed(u: Classes, s: string) {
    && (forall c :: c in s ==> !u.format(c))
    && !HasRaw(u, false, s)
    && Squeezed(u, false, s) == s
  }

  lemma FixedIsCanon(u: Classes, s: string)
    requires Fixed(u, s)
    ensures Canon(u, s) == s
  {
    hide DropFormat, StripRaw, Squeezed, HasRaw;
    DroppedFormat(u, s);
    StripRawShrinks(u, false, s);
  }

  /** A character that parts two texts: no word, no space, no part of a raw prefix. */
  ghost predicate Separator(u: Classes, c: char) {
    !Word(u, c) && !u.space(c) && c != '#'
  }

  lemma {:induction false} RawAround(u: Classes, prev: bool, s: string, c: char, t: string)
    requires Sane(u) && !Word(u, c) && c != '#'
    ensures HasRaw(u, prev, s + [c] + t) <==> HasRaw(u, prev, s) || HasRaw(u, false, t)
    decreases |s|
  {
    var all := s + [c] + t;
    assert Word(u, 'r') && !IdStart(c) by { assert IdStart(c) ==> Word(u, c); }
    if s == [] {
      assert all == [c] + t && all[1..] == t;
    } else {
      assert all[1..] == s[1..] + [c] + t;
      RawAround(u, Word(u, s[0]), s[1..], c, t);
      assert RawAt(prev, all) <==> RawAt(prev, s);
    }
  }

  lemma SpaceRunPrefix(u: Classes, s: string, t: string)
    requires s != [] && !u.space(s[|s| - 1])
    ensures SpaceRun(u, s + t) == SpaceRun(u, s) < |s|
  {
    var k := SpaceRun(u, s);
    SpaceRunIs(u, s + t, k);
  }

  /** Behind a character that is kept, squeezing starts over. */
  lemma {:induction false} SqueezedSuffix(u: Classes, prev: bool, s: string, t: string)
    requires Sane(u) && s != [] && !u.space(s[|s| - 1])
    ensures Squeezed(u, prev, s + t) == Squeezed(u, prev, s) + Squeezed(u, Word(u, s[|s| - 1]), t)
    decreases |s|
  {
    hide Squeezed, SpaceRun, LineCount, Word;
    var k := SpaceRun(u, s);
    SpaceRunPrefix(u, s, t);
    SqueezedMark(u, prev, s, k);
    SqueezedMark(u, prev, s + t, k);
    assert (s + t)[..k] == s[..k] && (s + t)[k + 1..] == s[k + 1..] + t;
    if k + 1 < |s| {
      SqueezedSuffix(u, Word(u, s[k]), s[k + 1..], t);
    } else {
      assert s[k + 1..] == "" && "" + t == t;
      SqueezedNothing(u, Word(u, s[k]));
    }
  }

  /** A separator is written down without a gap before it. */
  lemma {:induction false} SqueezedToSeparator(u: Classes, prev: bool, s: string, c: char)
    requires Sane(u) && Separator(u, c)
    ensures Squeezed(u, prev, s + [c]) == Squeezed(u, prev, s) + [c]
    decreases |s|
  {
    hide Squeezed, SpaceRun, LineCount, Word;
    var k := SpaceRun(u, s);
    if k < |s| {
      SpaceRunIs(u, s + [c], k);
      SqueezedMark(u, prev, s, k);
      SqueezedMark(u, prev, s + [c], k);
      assert (s + [c])[..k] == s[..k] && (s + [c])[k + 1..] == s[k + 1..] + [c];
      SqueezedToSeparator(u, Word(u, s[k]), s[k + 1..], c);
    } else {
      SpaceRunIs(u, s + [c], k);
      SqueezedMark(u, prev, s + [c], k);
      assert (s + [c])[..k] == s && (s + [c])[k + 1..] == "";
      SqueezedNothing(u, Word(u, c));
      ShapeBlank(u, prev, s);
    }
  }

  lemma FixedAround(u: Classes, s: string, c: char, t: string)
    requires Sane(u) && Fixed(u, s) && Fixed(u, t) && Separator(u, c) && !u.format(c)
    ensures Fixed(u, s + [c] + t)
  {
    hide Squeezed, HasRaw, Sane;
    RawAround(u, false, s, c, t);
    SqueezedToSeparator(u, false, s, c);
    SqueezedSuffix(u, false, s + [c], t);
  }

  lemma {:induction false} AllLinesFixed(u: Classes, n: nat)
    requires Sane(u)
    ensures Fixed(u, Lines(n))
  {
    hide Squeezed, SpaceRun;
    RawAfterSpace(u, false, Lines(n), "");
    assert Lines(n) + "" == Lines(n);
    SpaceRunIs(u, Lines(n), n);
    LinesCounted(n);
    ShapeBlank(u, false, Lines(n));
  }

  lemma FixedAfterLines(u: Classes, n: nat, s: string)
    requires Sane(u) && Fixed(u, s) && s != [] && !u.space(s[0])
    ensures Fixed(u, Lines(n) + s)
  {
    hide Squeezed, HasRaw, SpaceRun;
    RawAfterSpace(u, false, Lines(n), s);
    var all := Lines(n) + s;
    if n == 0 {
      assert all == s;
    } else {
      SpaceRunIs(u, all, n);
      SqueezedSpace(u, false, all, n);
      assert all[..n] == Lines(n) && all[n..] == s;
      LinesCounted(n);
    }
  }

  lemma FixedBeforeLines(u: Classes, s: string, n: nat)
    requires Sane(u) && Fixed(u, s) && s != [] && !u.space(s[|s| - 1])
    ensures Fixed(u, s + Lines(n))
  {
    hide Squeezed, HasRaw, SpaceRun;
    SqueezedSuffix(u, false, s, Lines(n));
    SpaceRunIs(u, Lines(n), n);
    LinesCounted(n);
    ShapeBlank(u, Word(u, s[|s| - 1]), Lines(n));
    AllLinesFixed(u, n);
    if n == 0 {
      assert s + Lines(n) == s;
    } else {
      AllLinesFixed(u, n - 1);
      RawAround(u, false, s, '\n', Lines(n - 1));
      assert s + Lines(n) == s + ['\n'] + Lines(n - 1);
    }
  }

  lemma {:induction false} NameFixed(u: Classes, prev: bool, s: string)
    requires Sane(u) && forall c :: c in s ==> ' ' < c < '\U{7F}' && c != '#'
    ensures !HasRaw(u, prev, s) && Squeezed(u, prev, s) == s
    decreases |s|
  {
    if s != [] {
      assert s[0] in s && forall c :: c in s[1..] ==> c in s;
      NameFixed(u, Word(u, s[0]), s[1..]);
      if |s| > 1 { assert s[1] in s; }
      assert s == [s[0]] + s[1..];
    }
  }

  lemma PlainFormat(u: Classes, s: string)
    requires Sane(u) && forall c :: c in s ==> ' ' < c < '\U{7F}'
    ensures DropFormat(u, s) == s
  {
    DroppedFormat(u, s);
  }

  /** The raw prefix of a name goes. */
  lemma RawNameStripped(u: Classes, name: string)
    requires Sane(u) && name != "" && forall c :: c in name ==> IdStart(c)
    ensures Canon(u, "r#" + name) == name
  {
    var s := "r#" + name;
    forall c | c in s ensures ' ' < c < '\U{7F}' {
      assert c == 'r' || c == '#' || c in name;
    }
    PlainFormat(u, s);
    NameFixed(u, false, name);
    assert name[0] in name && s[2..] == name && s[2] == name[0];
    hide DropFormat, HasRaw, Squeezed;
    StripRawShrinks(u, false, name);
  }

  lemma StripStep(u: Classes, prev: bool, c: char, rest: string)
    requires !RawAt(prev, [c] + rest)
    ensures StripRaw(u, prev, [c] + rest) == [c] + StripRaw(u, Word(u, c), rest)
  {
    assert ([c] + rest)[1..] == rest;
  }

  /** Inside a word the same characters stay. */
  lemma RawStays(u: Classes, before: char, name: string)
    requires Sane(u) && IdStart(before) && name != "" && forall c :: c in name ==> IdStart(c)
    ensures StripRaw(u, false, [before] + ("r#" + name)) == [before] + ("r#" + name)
  {
    assert Word(u, before) && Word(u, 'r') && !Word(u, '#');
    NameFixed(u, false, name);
    StripRawShrinks(u, false, name);
    hide StripRaw, Sane, HasRaw, Squeezed, Word;
    StripStep(u, true, '#', name);
    StripStep(u, true, 'r', "#" + name);
    assert "r" + ("#" + name) == "r#" + name;
    assert ([before] + ("r#" + name))[1] == 'r';
    StripStep(u, false, before, "r#" + name);
  }
}

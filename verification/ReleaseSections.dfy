// The check of a published section: its two ledger blocks must read as the
// ledger renders them, and the text around them is free.
module ReleaseSections {
  import opened Options
  import opened Texts
  import opened Trimming
  import opened KnownIssues

  predicate LineBreak(c: char) {
    c == '\n'
  }

  /** `str.splitlines`, where a line feed is the only line boundary. */
  function Lines(text: string): seq<string> {
    var lines := Split(text, '\n');
    if lines[|lines| - 1] == "" then lines[..|lines| - 1] else lines
  }

  predicate IsHead(line: string) {
    |line| >= 4 && line[0] == '#' && line[1] == '#' && line[2] == '#' && line[3] == ' '
  }

  /** The ledger block that a line opens. */
  function Opens(space: CharClass, line: string): Option<Kind> {
    if !IsHead(line) then None
    else
      var name := TrimRight(space, TrimLeft(space, line[3..]));
      if name == NameOf(KnownIssue) then Some(KnownIssue)
      else if name == NameOf(NotInRelease) then Some(NotInRelease)
      else None
  }

  /** The lines up to the next subsection, without their trailing whitespace. */
  function Body(space: CharClass, lines: seq<string>): seq<string> {
    if lines == [] || IsHead(lines[0]) then [] else [TrimRight(space, lines[0])] + Body(space, lines[1..])
  }

  function BlockText(body: seq<string>): string {
    TrimLeft(LineBreak, TrimRight(LineBreak, Join(body, '\n')))
  }

  /** The lines of a block: those behind the last subsection of its name. */
  function Found(space: CharClass, lines: seq<string>, kind: Kind): Option<seq<string>> {
    if lines == [] then None
    else
      var later := Found(space, lines[1..], kind);
      if later.Some? then later
      else if Opens(space, lines[0]) == Some(kind) then Some(Body(space, lines[1..]))
      else None
  }

  function TextOf(body: Option<seq<string>>): Option<string> {
    if body.None? then None else Some(BlockText(body.value))
  }

  // ---------------------------------------------------------------------
  // Extracting
  // ---------------------------------------------------------------------

  /** What a block will be, from the lines it has and those to come. */
  function Coming(space: CharClass, lines: seq<string>, kind: Kind, has: Option<seq<string>>,
                  open: bool): Option<seq<string>> {
    var later := Found(space, lines, kind);
    if later.Some? then later
    else if has.Some? then Some(has.value + if open then Body(space, lines) else [])
    else None
  }

  function Has<T>(found: map<Kind, T>, kind: Kind): Option<T> {
    if kind in found then Some(found[kind]) else None
  }

  /** A head closes the open block and may open one. */
  lemma ComingHead(space: CharClass, lines: seq<string>, kind: Kind, has: Option<seq<string>>, open: bool)
    requires lines != [] && IsHead(lines[0]) && (open ==> has.Some?)
    ensures var begins := Opens(space, lines[0]) == Some(kind);
      Coming(space, lines, kind, has, open)
        == Coming(space, lines[1..], kind, if begins then Some([]) else has, begins)
  {
    hide Opens, IsHead;
    if has.Some? { assert has.value + [] == has.value; }
    assert [] + Body(space, lines[1..]) == Body(space, lines[1..]);
  }

  /** Any other line goes to the open block. */
  lemma ComingLine(space: CharClass, lines: seq<string>, kind: Kind, has: Option<seq<string>>, open: bool)
    requires lines != [] && !IsHead(lines[0]) && (open ==> has.Some?)
    ensures Coming(space, lines, kind, has, open)
         == Coming(space, lines[1..], kind, if open then Some(has.value + [TrimRight(space, lines[0])]) else has, open)
  {
    hide TrimRight, IsHead;
    if open {
      var line := TrimRight(space, lines[0]);
      assert has.value + ([line] + Body(space, lines[1..])) == has.value + [line] + Body(space, lines[1..]);
    }
  }

  lemma ComingEnds(space: CharClass, kind: Kind, has: Option<seq<string>>, open: bool)
    ensures Coming(space, [], kind, has, open) == has
    ensures !open ==> forall lines :: Coming(space, lines, kind, None, open) == Found(space, lines, kind)
  {
    if has.Some? { assert has.value + [] == has.value; }
  }

  /** `extract_blocks`: the two blocks, each from the last subsection of its name. */
  method ExtractBlocks(space: CharClass, body: seq<string>) returns (blocks: map<Kind, string>)
    ensures forall kind :: Has(blocks, kind) == TextOf(Found(space, body, kind))
  {
    var found: map<Kind, seq<string>> := map[];
    var current: Option<Kind> := None;
    forall kind: Kind { ComingEnds(space, kind, None, false); }
    for i := 0 to |body|
      invariant current.Some? ==> current.value in found
      invariant forall kind ::
        Coming(space, body[i..], kind, Has(found, kind), current == Some(kind)) == Found(space, body, kind)
    {
      hide Coming, Found, Opens, IsHead, TrimRight;
      var line := body[i];
      ghost var before, was := found, current;
      assert body[i..][0] == line && body[i..][1..] == body[i + 1..];
      if IsHead(line) {
        forall kind: Kind { ComingHead(space, body[i..], kind, Has(before, kind), was == Some(kind)); }
        current := Opens(space, line);
        if current.Some? { found := found[current.value := []]; }
      } else {
        forall kind: Kind { ComingLine(space, body[i..], kind, Has(before, kind), was == Some(kind)); }
        if current.Some? { found := found[current.value := found[current.value] + [TrimRight(space, line)]]; }
      }
    }
    forall kind: Kind { ComingEnds(space, kind, Has(found, kind), current == Some(kind)); }
    blocks := map kind | kind in found :: BlockText(found[kind]);
  }

  // ---------------------------------------------------------------------
  // Checking
  // ---------------------------------------------------------------------

  /** `difflib.unified_diff` of two blocks' lines, with its headers for the kind. */
  type Differ = (seq<string>, seq<string>, Kind) -> seq<string>

  ghost predicate SaneDiffer(differ: Differ) {
    forall a, b, kind :: differ(a, b, kind) == [] <==> a == b
  }

  function Prefixed(sign: char, lines: seq<string>): seq<string> {
    if lines == [] then [] else [[sign] + lines[0]] + Prefixed(sign, lines[1..])
  }

  /** What is said of one block. */
  function BlockDiff(differ: Differ, kind: Kind, want: Option<string>, got: Option<string>): seq<string> {
    if want.None? && got.None? then []
    else if want.None? then
      ["CHANGELOG has an unexpected '### " + NameOf(kind) + "' block:"] + Prefixed('+', Lines(got.value))
    else if got.None? then
      ["CHANGELOG is missing the '### " + NameOf(kind) + "' block; render gives:"] + Prefixed('-', Lines(want.value))
    else if want != got then differ(Lines(got.value), Lines(want.value), kind)
    else []
  }

  /** What is said of a section. */
  function SectionDiff(space: CharClass, differ: Differ, rendered: string, section: Option<seq<string>>): seq<string> {
    if section.None? then ["CHANGELOG has no section for this release"]
    else
      BlockDiff(differ, NotInRelease, TextOf(Found(space, Lines(rendered), NotInRelease)),
                TextOf(Found(space, section.value, NotInRelease)))
      + BlockDiff(differ, KnownIssue, TextOf(Found(space, Lines(rendered), KnownIssue)),
                  TextOf(Found(space, section.value, KnownIssue)))
  }

  ghost predicate SameBlock(space: CharClass, lines: seq<string>, others: seq<string>, kind: Kind) {
    TextOf(Found(space, lines, kind)) == TextOf(Found(space, others, kind))
  }

  ghost predicate Passes(space: CharClass, rendered: string, section: Option<seq<string>>) {
    && section.Some?
    && SameBlock(space, section.value, Lines(rendered), NotInRelease)
    && SameBlock(space, section.value, Lines(rendered), KnownIssue)
  }

  /** `check_release` for a rendered release. */
  method CheckRelease(space: CharClass, differ: Differ, rendered: string, section: Option<seq<string>>)
    returns (diff: seq<string>)
    requires SaneDiffer(differ)
    ensures diff == SectionDiff(space, differ, rendered, section)
    ensures diff == [] <==> Passes(space, rendered, section)
  {
    DiffIff(space, differ, rendered, section);
    if section.None? { return ["CHANGELOG has no section for this release"]; }
    hide Found, TextOf, Lines, BlockDiff, SaneDiffer, Passes;
    var actual := ExtractBlocks(space, section.value);
    var expected := ExtractBlocks(space, Lines(rendered));
    diff := Compare(differ, NotInRelease, expected, actual);
    var more := Compare(differ, KnownIssue, expected, actual);
    diff := diff + more;
  }

  /** One turn of the loop over the two names. */
  method Compare(differ: Differ, kind: Kind, want: map<Kind, string>, got: map<Kind, string>)
    returns (diff: seq<string>)
    ensures diff == BlockDiff(differ, kind, Has(want, kind), Has(got, kind))
  {
    if kind !in want && kind !in got { return []; }
    if kind !in want {
      return ["CHANGELOG has an unexpected '### " + NameOf(kind) + "' block:"] + Prefixed('+', Lines(got[kind]));
    }
    if kind !in got {
      return ["CHANGELOG is missing the '### " + NameOf(kind) + "' block; render gives:"]
        + Prefixed('-', Lines(want[kind]));
    }
    diff := if want[kind] != got[kind] then differ(Lines(got[kind]), Lines(want[kind]), kind) else [];
  }

  lemma {:induction false} LastChunk(s: string)
    requires s != "" && s[|s| - 1] != '\n'
    ensures var c := Split(s, '\n'); c[|c| - 1] != ""
  {
    if |s| > 1 { LastChunk(s[1..]); }
  }

  /** Texts that do not end in a line break are told apart by their lines. */
  lemma LinesDiffer(s: string, t: string)
    requires s != "" ==> s[|s| - 1] != '\n'
    requires t != "" ==> t[|t| - 1] != '\n'
    requires Lines(s) == Lines(t)
    ensures s == t
  {
    if s != "" { LastChunk(s); }
    if t != "" { LastChunk(t); }
    JoinedSplit(s, '\n');
    JoinedSplit(t, '\n');
  }

  lemma {:induction false} TrimmedRight(drop: CharClass, s: string)
    ensures var r := TrimRight(drop, s); r != "" ==> !drop(r[|r| - 1])
  {
    if s != "" && drop(s[|s| - 1]) { TrimmedRight(drop, s[..|s| - 1]); }
  }

  lemma {:induction false} TrimLeftEnd(drop: CharClass, s: string)
    ensures var r := TrimLeft(drop, s); r != "" ==> s != "" && r[|r| - 1] == s[|s| - 1]
  {
    if s != "" && drop(s[0]) { TrimLeftEnd(drop, s[1..]); }
  }

  lemma BlockTextEnd(body: seq<string>)
    ensures var t := BlockText(body); t != "" ==> t[|t| - 1] != '\n'
  {
    hide TrimLeft, TrimRight, Join;
    var text := Join(body, '\n');
    TrimmedRight(LineBreak, text);
    TrimLeftEnd(LineBreak, TrimRight(LineBreak, text));
  }

  lemma BlockDiffIff(differ: Differ, kind: Kind, want: Option<seq<string>>, got: Option<seq<string>>)
    requires SaneDiffer(differ)
    ensures BlockDiff(differ, kind, TextOf(want), TextOf(got)) == [] <==> TextOf(want) == TextOf(got)
  {
    hide BlockText, Lines;
    if want.Some? && got.Some? && TextOf(want) != TextOf(got) {
      BlockTextEnd(want.value);
      BlockTextEnd(got.value);
      var w, g := BlockText(want.value), BlockText(got.value);
      if Lines(g) == Lines(w) { LinesDiffer(g, w); }
      assert differ(Lines(g), Lines(w), kind) != [];
    }
  }

  lemma {:induction false} PrefixedAt(sign: char, lines: seq<string>, k: nat)
    requires k < |lines|
    ensures |Prefixed(sign, lines)| == |lines| && Prefixed(sign, lines)[k] == [sign] + lines[k]
  {
    if k > 0 { PrefixedAt(sign, lines[1..], k - 1); }
    if |lines| > 1 { PrefixedAt(sign, lines[1..], 0); }
  }

  /** A block that is not expected is shown with plus signs, one that is missing with
      minus signs, each behind a line that says so. */
  lemma BlockDiffSays(differ: Differ, kind: Kind, block: string, k: nat)
    requires k < |Lines(block)|
    ensures var plus := BlockDiff(differ, kind, None, Some(block));
      |plus| == 1 + |Lines(block)| && plus[1 + k] == "+" + Lines(block)[k]
    ensures var minus := BlockDiff(differ, kind, Some(block), None);
      |minus| == 1 + |Lines(block)| && minus[1 + k] == "-" + Lines(block)[k]
  {
    hide Lines;
    PrefixedAt('+', Lines(block), k);
    PrefixedAt('-', Lines(block), k);
  }

  lemma DiffIff(space: CharClass, differ: Differ, rendered: string, section: Option<seq<string>>)
    requires SaneDiffer(differ)
    ensures SectionDiff(space, differ, rendered, section) == [] <==> Passes(space, rendered, section)
  {
    if section.Some? {
      var want, got := Lines(rendered), section.value;
      BlockDiffIff(differ, NotInRelease, Found(space, want, NotInRelease), Found(space, got, NotInRelease));
      BlockDiffIff(differ, KnownIssue, Found(space, want, KnownIssue), Found(space, got, KnownIssue));
      hide BlockDiff, TextOf, Found, Lines;
    }
  }

  // ---------------------------------------------------------------------
  // A pasted rendering passes
  // ---------------------------------------------------------------------

  /** No line opens a ledger block. */
  ghost predicate NoBlocks(space: CharClass, lines: seq<string>) {
    forall k :: 0 <= k < |lines| ==> Opens(space, lines[k]).None?
  }

  /** Blank lines, and behind them nothing or another subsection. */
  ghost predicate Closed(space: CharClass, more: seq<string>) {
    exists n :: ClosedAt(space, more, n)
  }

  ghost predicate ClosedAt(space: CharClass, more: seq<string>, n: nat) {
    && n <= |more|
    && (forall k :: 0 <= k < n ==> !IsHead(more[k]) && TrimRight(space, more[k]) == "")
    && (n < |more| ==> IsHead(more[n]))
  }

  lemma {:induction false} FoundNothing(space: CharClass, lines: seq<string>, kind: Kind)
    requires NoBlocks(space, lines)
    ensures Found(space, lines, kind).None?
  {
    hide Opens;
    if lines != [] { FoundNothing(space, lines[1..], kind); }
  }

  lemma {:induction false} FoundBehind(space: CharClass, intro: seq<string>, lines: seq<string>, kind: Kind)
    requires NoBlocks(space, intro)
    ensures Found(space, intro + lines, kind) == Found(space, lines, kind)
  {
    hide Opens, Body;
    if intro == [] {
      assert intro + lines == lines;
    } else {
      assert (intro + lines)[1..] == intro[1..] + lines;
      FoundBehind(space, intro[1..], lines, kind);
    }
  }

  function Empties(n: nat): seq<string> {
    seq(n, _ => "")
  }

  lemma {:induction false} ClosedBody(space: CharClass, more: seq<string>, n: nat)
    requires ClosedAt(space, more, n)
    ensures Body(space, more) == Empties(n)
    decreases n
  {
    hide IsHead, TrimRight;
    if n > 0 {
      assert ClosedAt(space, more[1..], n - 1);
      ClosedBody(space, more[1..], n - 1);
      assert [""] + Empties(n - 1) == Empties(n);
    }
  }

  /** What follows a block adds at most empty lines to it. */
  lemma {:induction false} BodyBefore(space: CharClass, lines: seq<string>, more: seq<string>, n: nat) returns (m: nat)
    requires ClosedAt(space, more, n)
    ensures Body(space, lines + more) == Body(space, lines) + Empties(m)
  {
    hide IsHead, TrimRight, ClosedAt;
    if lines == [] {
      assert lines + more == more;
      ClosedBody(space, more, n);
      m := n;
    } else if IsHead(lines[0]) {
      m := 0;
    } else {
      m := BodyBefore(space, lines[1..], more, n);
      assert (lines + more)[1..] == lines[1..] + more;
    }
  }

  lemma {:induction false} JoinMore(body: seq<string>, line: string)
    requires body != []
    ensures Join(body + [line], '\n') == Join(body, '\n') + "\n" + line
  {
    if |body| > 1 {
      assert (body + [line])[1..] == body[1..] + [line];
      JoinMore(body[1..], line);
    } else {
      assert (body + [line])[1..] == [line];
    }
  }

  /** Empty lines at its end do not change a block. */
  lemma {:induction false} BlockTextPadded(body: seq<string>, n: nat)
    ensures BlockText(body + Empties(n)) == BlockText(body)
  {
    if n == 0 {
      assert body + Empties(0) == body;
    } else {
      var shorter := body + Empties(n - 1);
      assert body + Empties(n) == shorter + [""];
      BlockTextPadded(body, n - 1);
      hide Empties, TrimLeft;
      if shorter == [] {
        assert shorter + [""] == [""];
      } else {
        JoinMore(shorter, "");
        var text := Join(shorter, '\n');
        assert Join(shorter + [""], '\n') == text + ['\n'];
        assert (text + ['\n'])[..|text|] == text;
      }
    }
  }

  lemma {:induction false} FoundBefore(space: CharClass, lines: seq<string>, more: seq<string>, n: nat, kind: Kind)
    requires NoBlocks(space, more) && ClosedAt(space, more, n)
    ensures TextOf(Found(space, lines + more, kind)) == TextOf(Found(space, lines, kind))
  {
    hide Opens, Body, BlockText, ClosedAt;
    if lines == [] {
      assert lines + more == more;
      FoundNothing(space, more, kind);
    } else {
      assert (lines + more)[1..] == lines[1..] + more;
      FoundBefore(space, lines[1..], more, n, kind);
      var m := BodyBefore(space, lines[1..], more, n);
      BlockTextPadded(Body(space, lines[1..]), m);
    }
  }

  /** A rendering pasted between other text passes, when no other line opens a
      ledger block and only blank lines stand between it and the next subsection. */
  lemma PastedPasses(space: CharClass, rendered: string, intro: seq<string>, more: seq<string>)
    requires NoBlocks(space, intro) && NoBlocks(space, more) && Closed(space, more)
    ensures Passes(space, rendered, Some(intro + Lines(rendered) + more))
  {
    hide Found, TextOf, Lines, NoBlocks, ClosedAt;
    var n: nat :| ClosedAt(space, more, n);
    forall kind: Kind
      ensures SameBlock(space, intro + Lines(rendered) + more, Lines(rendered), kind)
    {
      assert intro + Lines(rendered) + more == intro + (Lines(rendered) + more);
      FoundBehind(space, intro, Lines(rendered) + more, kind);
      FoundBefore(space, Lines(rendered), more, n, kind);
    }
  }

  // ---------------------------------------------------------------------
  // A passing section shows every bullet
  // ---------------------------------------------------------------------

  /** What every table of whitespace says of the heading texts. */
  ghost predicate Sane(space: CharClass) {
    space(' ') && !space('K') && !space('N') && !space('s') && !space('e')
  }

  function BulletLines(bullets: seq<string>): seq<string> {
    if bullets == [] then [] else Split(bullets[0], '\n') + BulletLines(bullets[1..])
  }

  ghost predicate NoHeads(lines: seq<string>) {
    forall k :: 0 <= k < |lines| ==> !IsHead(lines[k])
  }

  /** The lines of a block as the section must show them, behind an empty one. */
  function Shown(space: CharClass, bullets: seq<string>): seq<string> {
    Body(space, [""] + BulletLines(bullets))
  }

  lemma TrimsToName(space: CharClass, name: string)
    requires name != "" && space(' ') && !space(name[0]) && !space(name[|name| - 1])
    ensures TrimRight(space, TrimLeft(space, [' '] + name)) == name
  {
    assert ([' '] + name)[1..] == name;
    assert TrimLeft(space, name) == name;
  }

  lemma NamesDiffer()
    ensures NameOf(KnownIssue) != NameOf(NotInRelease)
  {
    assert NameOf(KnownIssue)[0] != NameOf(NotInRelease)[0];
  }

  lemma HeadingIs(kind: Kind)
    ensures IsHead(Heading(kind)) && Heading(kind)[3..] == [' '] + NameOf(kind)
  {
    hide NameOf;
  }

  lemma HeadOpens(space: CharClass, kind: Kind)
    requires Sane(space)
    ensures IsHead(Heading(kind)) && Opens(space, Heading(kind)) == Some(kind)
  {
    HeadingIs(kind);
    NameEnds(space, kind);
    TrimsToName(space, NameOf(kind));
    NamesDiffer();
    hide Heading, NameOf, TrimLeft, TrimRight, IsHead;
  }

  lemma NameEnds(space: CharClass, kind: Kind)
    requires Sane(space)
    ensures var name := NameOf(kind); name != "" && !space(name[0]) && !space(name[|name| - 1])
  {
  }

  lemma {:induction false} JoinedLines(bullets: seq<string>)
    requires bullets != []
    ensures Split(Join(bullets, '\n'), '\n') == BulletLines(bullets)
  {
    if |bullets| == 1 {
      assert BulletLines(bullets[1..]) == [];
    } else {
      JoinedLines(bullets[1..]);
      assert Join(bullets, '\n') == bullets[0] + ['\n'] + Join(bullets[1..], '\n');
      SplitConcat(bullets[0], Join(bullets[1..], '\n'), '\n');
    }
  }

  lemma BlockLines(kind: Kind, bullets: seq<string>)
    requires bullets != []
    ensures Split(Heading(kind) + "\n\n" + Join(bullets, '\n') + "\n", '\n')
         == [Heading(kind)] + ([""] + BulletLines(bullets)) + [""]
  {
    var h, j := Heading(kind), Join(bullets, '\n');
    JoinedLines(bullets);
    hide Split, BulletLines, Join, Heading;
    HeadingLine(kind);
    EmptyLine();
    assert h + "\n\n" + j + "\n" == h + ['\n'] + ("" + ['\n'] + (j + ['\n'] + ""));
    SplitConcat(h, "" + ['\n'] + (j + ['\n'] + ""), '\n');
    SplitConcat("", j + ['\n'] + "", '\n');
    SplitConcat(j, "", '\n');
  }

  lemma HeadingLine(kind: Kind)
    ensures Split(Heading(kind), '\n') == [Heading(kind)]
  {
    SplitChunk(Heading(kind), "", '\n');
  }

  lemma EmptyLine()
    ensures Split("", '\n') == [""]
  {
  }

  lemma FoundHead(space: CharClass, head: string, rest: seq<string>, k: Kind)
    ensures Found(space, [head] + rest, k)
         == if Found(space, rest, k).Some? then Found(space, rest, k)
            else if Opens(space, head) == Some(k) then Some(Body(space, rest)) else None
  {
    hide Opens, Body;
    assert ([head] + rest)[1..] == rest;
  }

  /** One block at the head of some lines. */
  lemma FoundBlock(space: CharClass, kind: Kind, body: seq<string>, rest: seq<string>, n: nat, k: Kind)
    requires Sane(space) && NoHeads(body) && ClosedAt(space, rest, n)
    ensures TextOf(Found(space, [Heading(kind)] + body + rest, k))
         == if Found(space, rest, k).Some? then TextOf(Found(space, rest, k))
            else if k == kind then Some(BlockText(Body(space, body))) else None
  {
    HeadOpens(space, kind);
    NoHeadsNoBlocks(space, body);
    hide *;
    assert [Heading(kind)] + body + rest == [Heading(kind)] + (body + rest);
    FoundHead(space, Heading(kind), body + rest, k);
    FoundBehind(space, body, rest, k);
    var m := BodyBefore(space, body, rest, n);
    BlockTextPadded(Body(space, body), m);
    TextOfSome(Body(space, body) + Empties(m));
  }

  lemma TextOfSome(body: seq<string>)
    ensures TextOf(Some(body)) == Some(BlockText(body)) && TextOf(None) == None
  {
  }

  lemma NoHeadsNoBlocks(space: CharClass, body: seq<string>)
    requires NoHeads(body)
    ensures NoBlocks(space, body)
  {
  }

  lemma LinesCut(text: string, lines: seq<string>)
    requires Split(text, '\n') == lines + [""]
    ensures Lines(text) == lines
  {
    assert (lines + [""])[..|lines|] == lines;
  }

  function BlockLinesOf(kind: Kind, bullets: seq<string>): seq<string> {
    if bullets == [] then [] else [Heading(kind)] + ([""] + BulletLines(bullets))
  }

  /** The lines of a rendering: its blocks, with an empty line between two. */
  lemma RenderedLines(gaps: seq<string>, issues: seq<string>)
    ensures Lines(Join(Block(NotInRelease, gaps) + Block(KnownIssue, issues), '\n'))
         == BlockLinesOf(NotInRelease, gaps) + (if gaps != [] && issues != [] then [""] else [])
            + BlockLinesOf(KnownIssue, issues)
  {
    hide Split, BulletLines, Heading, Lines;
    var one, two := Block(NotInRelease, gaps), Block(KnownIssue, issues);
    var a, b := BlockLinesOf(NotInRelease, gaps), BlockLinesOf(KnownIssue, issues);
    if gaps != [] { BlockLines(NotInRelease, gaps); }
    if issues != [] { BlockLines(KnownIssue, issues); }
    if gaps == [] && issues == [] {
      EmptyLine();
      assert [] + [""] == [""];
      LinesCut("", []);
    } else if gaps == [] {
      assert one + two == two;
      LinesCut(two[0], b);
    } else if issues == [] {
      assert one + two == one;
      LinesCut(one[0], a);
    } else {
      assert one + two == [one[0], two[0]];
      assert Join(one + two, '\n') == one[0] + ['\n'] + two[0];
      SplitConcat(one[0], two[0], '\n');
      assert a + [""] + (b + [""]) == a + [""] + b + [""];
      LinesCut(one[0] + ['\n'] + two[0], a + [""] + b);
    }
  }

  lemma NoHeadBefore(lines: seq<string>)
    requires NoHeads(lines)
    ensures NoHeads([""] + lines)
  {
  }

  lemma EndClosed(space: CharClass)
    ensures ClosedAt(space, [], 0)
  {
  }

  lemma HeadClosed(space: CharClass, kind: Kind, rest: seq<string>)
    requires Sane(space)
    ensures ClosedAt(space, [""] + ([Heading(kind)] + rest), 1)
  {
    hide Heading;
    HeadOpens(space, kind);
  }

  lemma FoundEmpty(space: CharClass, lines: seq<string>, k: Kind)
    ensures Found(space, [""] + lines, k) == Found(space, lines, k)
    ensures Found(space, [], k) == None
  {
    assert ([""] + lines)[1..] == lines;
  }

  /** What the blocks of a rendering are, when the wrapper writes no subsection head. */
  lemma RenderedFound(space: CharClass, gaps: seq<string>, issues: seq<string>, rendered: string)
    requires Sane(space) && NoHeads(BulletLines(gaps)) && NoHeads(BulletLines(issues))
    requires rendered == Join(Block(NotInRelease, gaps) + Block(KnownIssue, issues), '\n')
    ensures TextOf(Found(space, Lines(rendered), NotInRelease))
         == if gaps == [] then None else Some(BlockText(Shown(space, gaps)))
    ensures TextOf(Found(space, Lines(rendered), KnownIssue))
         == if issues == [] then None else Some(BlockText(Shown(space, issues)))
  {
    RenderedLines(gaps, issues);
    var b := BlockLinesOf(KnownIssue, issues);
    EndClosed(space);
    hide Found, Lines, ClosedAt, NoHeads, BulletLines, Heading, Body, BlockText, Join, Block, Sane;
    NoHeadBefore(BulletLines(gaps));
    NoHeadBefore(BulletLines(issues));
    forall k: Kind
      ensures TextOf(Found(space, b, k))
           == if issues != [] && k == KnownIssue then Some(BlockText(Shown(space, issues))) else None
    {
      FoundEmpty(space, [], k);
      if issues != [] {
        FoundBlock(space, KnownIssue, [""] + BulletLines(issues), [], 0, k);
        assert b + [] == b;
      }
    }
    if gaps != [] {
      var body, rest := [""] + BulletLines(gaps), if issues == [] then [] else [""] + b;
      var n := if issues == [] then 0 else 1;
      if issues != [] { HeadClosed(space, KnownIssue, [""] + BulletLines(issues)); }
      assert BlockLinesOf(NotInRelease, gaps) + (if issues != [] then [""] else []) + b
          == [Heading(NotInRelease)] + body + rest;
      forall k: Kind ensures Found(space, rest, k) == Found(space, b, k) { FoundEmpty(space, b, k); }
      FoundBlock(space, NotInRelease, body, rest, n, NotInRelease);
      FoundBlock(space, NotInRelease, body, rest, n, KnownIssue);
    } else {
      assert [] + [] + b == b;
    }
  }

  /** A published section passes after any later edits exactly when it did before them. */
  lemma PassesForEver(space: CharClass, wrap: Wrapper, l: Ledger, release: string, edits: seq<Edit>, last: Ledger,
                      section: seq<string>)
    requires Good(l) && release in l.order && History(l, release, edits, last)
    ensures Rendered(wrap, l.items, l.order, release).Some? && Rendered(wrap, last.items, last.order, release).Some?
    ensures Passes(space, Rendered(wrap, l.items, l.order, release).value, Some(section))
       <==> Passes(space, Rendered(wrap, last.items, last.order, release).value, Some(section))
  {
    hide *;
    PublishedForEver(wrap, l, release, edits, last);
  }
}

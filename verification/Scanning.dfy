// One file under the lint ratchet: comments and literals blanked, the text made
// canonical, every attribute found, read and given its line.
module Scanning {
  import opened Options
  import opened Canonical
  import opened Brackets
  import opened Suppressions
  import opened Trimming
  import opened AttributeGrammar
  import RustLexer

  /** What a file adds to the problems of a scan. */
  datatype FileProblem = Unreadable | OpenAttribute(line: nat) | InAttribute(line: nat, problem: Problem)

  datatype LintAt = LintAt(lint: string, line: nat)

  datatype Scan = Scan(hits: seq<LintAt>, problems: seq<FileProblem>)
  {
    function Then(more: Scan): Scan {
      Scan(hits + more.hits, problems + more.problems)
    }
  }

  // ---------------------------------------------------------------------
  // What the loop computes
  // ---------------------------------------------------------------------

  /** `!?` and the whitespace around it. */
  function PastBang(u: Classes, s: string): (r: string)
    ensures |r| <= |s|
  {
    var first := TrimLeft(u.space, s);
    if Begins(first, '!') then TrimLeft(u.space, first[1..]) else first
  }

  /** `#\s*!?\s*\[` at the start of the text, and what stands behind it. */
  function BehindHead(u: Classes, s: string): (rest: Option<string>)
    ensures rest.Some? ==> |rest.value| < |s| && s[0] == '#'
  {
    if !Begins(s, '#') then None
    else
      var bracket := PastBang(u, s[1..]);
      if Begins(bracket, '[') then Some(bracket[1..]) else None
  }

  lemma PastBangIsTail(u: Classes, s: string)
    ensures PastBang(u, s) == s[|s| - |PastBang(u, s)|..]
  {
    var first := TrimLeft(u.space, s);
    TrimLeftIsTail(u, s);
    if Begins(first, '!') { TrimLeftIsTail(u, first[1..]); }
  }

  lemma HeadTail(u: Classes, s: string)
    ensures var rest := BehindHead(u, s);
      rest.Some? ==> s[|s| - |rest.value| - 1] == '[' && s[|s| - |rest.value|..] == rest.value
  {
    hide PastBang;
    if s != [] { PastBangIsTail(u, s[1..]); }
  }

  function AtLine(line: nat, f: Found): Scan {
    Scan(seq(|f.lints|, i requires 0 <= i < |f.lints| => LintAt(f.lints[i], line)),
         seq(|f.problems|, i requires 0 <= i < |f.problems| => InAttribute(line, f.problems[i])))
  }

  /** The attribute whose bracket was opened just before `rest`. */
  function AttributeAt(u: Classes, line: nat, rest: string): Scan
    requires Sane(u)
  {
    var n := Closes(['['], rest);
    if n.None? then Scan([], [OpenAttribute(line)]) else AtLine(line, AttributeFound(u, rest[..n.value - 1]))
  }

  /** Everything found in text that begins on `line`; the search goes on behind
      the bracket, inside the attribute. */
  function ScanOf(u: Classes, line: nat, s: string): Scan
    requires Sane(u)
    decreases |s|
  {
    if s == [] then Scan([], [])
    else
      var rest := BehindHead(u, s);
      if rest.None? then ScanOf(u, line + LineCount(s[..1]), s[1..])
      else
        var n := |s| - |rest.value|;
        AttributeAt(u, line, rest.value).Then(ScanOf(u, line + LineCount(s[..n]), s[n..]))
  }

  // ---------------------------------------------------------------------
  // The program
  // ---------------------------------------------------------------------

  lemma {:induction false} LineCountConcat(s: string, t: string)
    ensures LineCount(s + t) == LineCount(s) + LineCount(t)
  {
    if s == [] {
      assert s + t == t;
    } else {
      assert (s + t)[1..] == s[1..] + t;
      LineCountConcat(s[1..], t);
    }
  }

  lemma LineCountSlice(s: string, i: nat, j: nat)
    requires i <= j <= |s|
    ensures LineCount(s[..j]) == LineCount(s[..i]) + LineCount(s[i..][..j - i])
  {
    assert s[..j] == s[..i] + s[i..][..j - i];
    LineCountConcat(s[..i], s[i..][..j - i]);
  }

  method ReadAttribute(u: Classes, clean: string, opener: nat, line: nat) returns (found: Scan)
    requires Sane(u) && opener < |clean| && clean[opener] == '['
    ensures found == AttributeAt(u, line, clean[opener + 1..])
  {
    hide AttributeFound, Closes;
    var end := MatchBalanced(clean, opener);
    if end.None? {
      return Scan([], [OpenAttribute(line)]);
    }
    var inner := clean[opener + 1..end.value - 1];
    assert clean[opener + 1..][..end.value - 1 - (opener + 1)] == inner;
    var lints, problems := LintsInAttribute(u, inner, []);
    found := AtLine(line, Found(lints, problems));
  }

  /** `scan_file`; no source when the file cannot be read. */
  method ScanFile(u: Classes, source: Option<string>) returns (found: Scan)
    requires Sane(u)
    ensures source.None? ==> found == Scan([], [Unreadable])
    ensures source.Some? ==> found == ScanOf(u, 1, Canon(u, RustLexer.Masked(source.value)))
  {
    hide *;
    if source.None? {
      return Scan([], [Unreadable]);
    }
    var blanked := RustLexer.BlankCommentsAndStrings(source.value);
    var clean := Canonicalize(u, blanked);
    found := Scan([], []);
    var i := 0;
    assert clean[..0] == "" && clean[0..] == clean;
    NoLines();
    ThenNothing(ScanOf(u, 1, clean));
    while i < |clean|
      invariant i <= |clean|
      invariant found.Then(ScanOf(u, 1 + LineCount(clean[..i]), clean[i..])) == ScanOf(u, 1, clean)
    {
      var line := 1 + LineCount(clean[..i]);
      var rest := BehindHead(u, clean[i..]);
      ScanStepAt(u, clean, i);
      if rest.None? {
        i := i + 1;
      } else {
        var next := |clean| - |rest.value|;
        var here := ReadAttribute(u, clean, next - 1, line);
        ThenThen(found, here, ScanOf(u, 1 + LineCount(clean[..next]), clean[next..]));
        found := found.Then(here);
        i := next;
      }
    }
    assert clean[i..] == "";
    ScanNothing(u, 1 + LineCount(clean[..i]));
    ThenNothing(found);
  }

  lemma ThenNothing(a: Scan)
    ensures Scan([], []).Then(a) == a == a.Then(Scan([], []))
  {
  }

  lemma ThenThen(a: Scan, b: Scan, c: Scan)
    ensures a.Then(b).Then(c) == a.Then(b.Then(c))
  {
  }

  lemma ScanStepAt(u: Classes, clean: string, i: nat)
    requires Sane(u) && i < |clean|
    ensures var rest := BehindHead(u, clean[i..]);
      var next := if rest.None? then i + 1 else |clean| - |rest.value|;
      var line := 1 + LineCount(clean[..i]);
      var later := ScanOf(u, 1 + LineCount(clean[..next]), clean[next..]);
      && i < next
      && (rest.Some? ==> clean[next - 1] == '[' && rest.value == clean[next..])
      && ScanOf(u, line, clean[i..]) == if rest.None? then later else AttributeAt(u, line, clean[next..]).Then(later)
  {
    hide *;
    var rest := BehindHead(u, clean[i..]);
    var next := if rest.None? then i + 1 else |clean| - |rest.value|;
    HeadPlace(u, clean, i);
    ScanStep(u, 1 + LineCount(clean[..i]), clean[i..]);
    LineCountSlice(clean, i, next);
    assert clean[i..][next - i..] == clean[next..];
  }

  lemma NoLines()
    ensures LineCount("") == 0
  {
  }

  lemma ScanNothing(u: Classes, line: nat)
    requires Sane(u)
    ensures ScanOf(u, line, "") == Scan([], [])
  {
  }

  lemma HeadPlace(u: Classes, clean: string, i: nat)
    requires i < |clean|
    ensures var rest := BehindHead(u, clean[i..]);
      rest.Some? ==>
        var next := |clean| - |rest.value|;
        i < next && clean[next - 1] == '[' && clean[next..] == rest.value
  {
    hide BehindHead;
    var rest, s := BehindHead(u, clean[i..]), clean[i..];
    HeadTail(u, s);
    if rest.Some? {
      assert s[|s| - |rest.value|..] == clean[|clean| - |rest.value|..];
      assert s[|s| - |rest.value| - 1] == clean[|clean| - |rest.value| - 1];
    }
  }

  lemma ScanStep(u: Classes, line: nat, s: string)
    requires Sane(u) && s != []
    ensures var rest := BehindHead(u, s);
      var n := if rest.None? then 1 else |s| - |rest.value|;
      var later := ScanOf(u, line + LineCount(s[..n]), s[n..]);
      ScanOf(u, line, s) == if rest.None? then later else AttributeAt(u, line, rest.value).Then(later)
  {
    hide BehindHead, AttributeAt, LineCount;
    HeadTail(u, s);
  }

  // ---------------------------------------------------------------------
  // Lines
  // ---------------------------------------------------------------------

  /** Some characters other than line feeds have become spaces. */
  ghost predicate Blanked(m: string, s: string) {
    |m| == |s| && forall k :: 0 <= k < |s| ==> m[k] == s[k] || (m[k] == ' ' && s[k] != '\n')
  }

  lemma {:induction false} BlankedPlaces(u: Classes, line: nat, m: string, s: string)
    requires Sane(u) && Blanked(m, s)
    ensures Sub(Places(u, line, m), Places(u, line, s))
    decreases |s|
  {
    if s != [] {
      assert Blanked(m[1..], s[1..]);
      assert m[0] == s[0] || (m[0] == ' ' && s[0] != '\n');
      var next := line + if s[0] == '\n' then 1 else 0;
      BlankedPlaces(u, next, m[1..], s[1..]);
      if u.space(m[0]) && !u.space(s[0]) {
        assert next == line by { assert u.space('\n'); }
        SubLonger(Places(u, line, m[1..]), [Placed(s[0], line)], Places(u, line, s[1..]));
      }
    }
  }

  /** Every character the reader sees stands on the line it has in the source. */
  lemma ReadLinesAreSourceLines(u: Classes, line: nat, source: string)
    requires Sane(u)
    ensures Sub(Places(u, line, Canon(u, RustLexer.Masked(source))), Places(u, line, source))
  {
    hide Sub, Places, Canon, RustLexer.Masked;
    var m := RustLexer.Masked(source);
    RustLexer.MaskFrame(source);
    BlankedPlaces(u, line, m, source);
    CanonKeepsLines(u, line, m);
    SubTransitive(Places(u, line, Canon(u, m)), Places(u, line, m), Places(u, line, source));
  }

  lemma {:induction false} SubHas<T>(a: seq<T>, b: seq<T>, x: T)
    requires Sub(a, b) && x in a
    ensures x in b
    decreases |b|
  {
    if a[0] == b[0] && Sub(a[1..], b[1..]) {
      if x != a[0] { SubHas(a[1..], b[1..], x); }
    } else {
      SubHas(a, b[1..], x);
    }
  }

  lemma {:induction false} PlacesConcat(u: Classes, line: nat, s: string, t: string)
    requires Sane(u)
    ensures Places(u, line, s + t) == Places(u, line, s) + Places(u, line + LineCount(s), t)
    decreases |s|
  {
    if s == [] {
      assert s + t == t;
    } else {
      assert (s + t)[1..] == s[1..] + t;
      assert u.space('\n');
      PlacesConcat(u, line + (if s[0] == '\n' then 1 else 0), s[1..], t);
    }
  }

  /** The lines a scan reports. */
  ghost predicate Reports(found: Scan, line: nat) {
    || (exists h :: h in found.hits && h.line == line)
    || (exists p :: p in found.problems && !p.Unreadable? && p.line == line)
  }

  lemma {:induction false} ReportedInText(u: Classes, first: nat, s: string, line: nat)
    requires Sane(u) && Reports(ScanOf(u, first, s), line)
    ensures Placed('#', line) in Places(u, first, s)
    decreases |s|
  {
    hide *;
    if s == [] {
      NothingReported(u, first, line);
    } else {
      ScanStep(u, first, s);
      var rest := BehindHead(u, s);
      var n := if rest.None? then 1 else |s| - |rest.value|;
      var next := first + LineCount(s[..n]);
      PlacesConcat(u, first, s[..n], s[n..]);
      assert s[..n] + s[n..] == s;
      if Reports(ScanOf(u, next, s[n..]), line) {
        ReportedInText(u, next, s[n..], line);
      } else {
        ReportsThen(AttributeAt(u, first, rest.value), ScanOf(u, next, s[n..]), line);
        AttributeReports(u, first, rest.value, line);
        HashFirst(u, first, s);
      }
    }
  }

  lemma NothingReported(u: Classes, first: nat, line: nat)
    requires Sane(u)
    ensures !Reports(ScanOf(u, first, ""), line)
  {
  }

  lemma ReportsThen(a: Scan, b: Scan, line: nat)
    requires Reports(a.Then(b), line)
    ensures Reports(a, line) || Reports(b, line)
  {
  }

  lemma AttributeReports(u: Classes, first: nat, rest: string, line: nat)
    requires Sane(u) && Reports(AttributeAt(u, first, rest), line)
    ensures line == first
  {
    hide Closes, AttributeFound;
  }

  lemma HashFirst(u: Classes, first: nat, s: string)
    requires Sane(u)
    ensures s != [] && s[0] == '#' ==> Placed('#', first) in Places(u, first, s)
  {
  }

  /** Every line reported for a source holds a `#` in the source itself. */
  lemma ReportedInSource(u: Classes, source: string, line: nat)
    requires Sane(u) && Reports(ScanOf(u, 1, Canon(u, RustLexer.Masked(source))), line)
    ensures Placed('#', line) in Places(u, 1, source)
  {
    hide ScanOf, Places, Sub, Canon, RustLexer.Masked;
    var clean := Canon(u, RustLexer.Masked(source));
    ReportedInText(u, 1, clean, line);
    ReadLinesAreSourceLines(u, 1, source);
    SubHas(Places(u, 1, clean), Places(u, 1, source), Placed('#', line));
  }
}

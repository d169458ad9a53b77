// Globs of the live map: the recursion over components decides the language
// where `**` stands for any run of components and every other part for one.
module Globs {
  import opened Texts

  /** `fnmatch.fnmatchcase(component, part)`. */
  type OneMatch = (string, string) -> bool

  /** `_match_parts`, from component `pi` and part `gi` on. */
  predicate MatchParts(path: seq<string>, pattern: seq<string>, pi: nat, gi: nat, one: OneMatch)
    requires pi <= |path| && gi <= |pattern|
    decreases |path| - pi + |pattern| - gi
  {
    if gi == |pattern| then pi == |path|
    else if pattern[gi] == "**" then
      MatchParts(path, pattern, pi, gi + 1, one) || (pi < |path| && MatchParts(path, pattern, pi + 1, gi, one))
    else
      pi < |path| && one(path[pi], pattern[gi]) && MatchParts(path, pattern, pi + 1, gi + 1, one)
  }

  // ---------------------------------------------------------------------
  // The language of a pattern
  // ---------------------------------------------------------------------

  predicate Fits(run: seq<string>, part: string, one: OneMatch) {
    part == "**" || (|run| == 1 && one(run[0], part))
  }

  /** The runs, end to end, are the path, and each fits its part. */
  ghost predicate Cuts(runs: seq<seq<string>>, path: seq<string>, pattern: seq<string>, one: OneMatch) {
    Flat(runs) == path && |runs| == |pattern| && forall k :: 0 <= k < |runs| ==> Fits(runs[k], pattern[k], one)
  }

  ghost predicate Language(path: seq<string>, pattern: seq<string>, one: OneMatch) {
    exists runs :: Cuts(runs, path, pattern, one)
  }

  lemma {:induction false} FlatConcat(a: seq<seq<string>>, b: seq<seq<string>>)
    ensures Flat(a + b) == Flat(a) + Flat(b)
  {
    if a == [] {
      assert a + b == b;
    } else {
      assert (a + b)[1..] == a[1..] + b;
      FlatConcat(a[1..], b);
    }
  }

  lemma CutsFirst(run: seq<string>, runs: seq<seq<string>>, path: seq<string>, pattern: seq<string>, one: OneMatch)
    requires pattern != [] && Fits(run, pattern[0], one) && Cuts(runs, path, pattern[1..], one)
    ensures Cuts([run] + runs, run + path, pattern, one)
  {
    assert ([run] + runs)[1..] == runs;
    forall k | 0 <= k < |pattern| ensures Fits(([run] + runs)[k], pattern[k], one) {
      assert k > 0 ==> pattern[k] == pattern[1..][k - 1];
    }
  }

  lemma CutsRest(runs: seq<seq<string>>, path: seq<string>, pattern: seq<string>, one: OneMatch)
    requires pattern != [] && Cuts(runs, path, pattern, one)
    ensures runs != [] && path == runs[0] + Flat(runs[1..]) && Fits(runs[0], pattern[0], one)
    ensures Cuts(runs[1..], Flat(runs[1..]), pattern[1..], one)
  {
  }

  /** Every accepted path has its runs. */
  lemma {:induction false} MatchedCuts(path: seq<string>, pattern: seq<string>, pi: nat, gi: nat, one: OneMatch)
      returns (runs: seq<seq<string>>)
    requires pi <= |path| && gi <= |pattern| && MatchParts(path, pattern, pi, gi, one)
    ensures Cuts(runs, path[pi..], pattern[gi..], one)
    decreases |path| - pi + |pattern| - gi
  {
    hide Cuts;
    if gi == |pattern| {
      runs := [];
      NothingCut(path[pi..], pattern[gi..], one);
    } else if pattern[gi] != "**" {
      var rest := MatchedCuts(path, pattern, pi + 1, gi + 1, one);
      runs := [[path[pi]]] + rest;
      assert path[pi..] == [path[pi]] + path[pi + 1..] && pattern[gi..][1..] == pattern[gi + 1..];
      CutsFirst([path[pi]], rest, path[pi + 1..], pattern[gi..], one);
    } else if MatchParts(path, pattern, pi, gi + 1, one) {
      var rest := MatchedCuts(path, pattern, pi, gi + 1, one);
      runs := [[]] + rest;
      assert path[pi..] == [] + path[pi..] && pattern[gi..][1..] == pattern[gi + 1..];
      CutsFirst([], rest, path[pi..], pattern[gi..], one);
    } else {
      var rest := MatchedCuts(path, pattern, pi + 1, gi, one);
      CutsRest(rest, path[pi + 1..], pattern[gi..], one);
      runs := [[path[pi]] + rest[0]] + rest[1..];
      assert path[pi..] == ([path[pi]] + rest[0]) + Flat(rest[1..]);
      CutsFirst([path[pi]] + rest[0], rest[1..], Flat(rest[1..]), pattern[gi..], one);
    }
  }

  lemma NothingCut(path: seq<string>, pattern: seq<string>, one: OneMatch)
    requires path == [] && pattern == []
    ensures Cuts([], path, pattern, one)
  {
  }

  /** Any runs make the recursion accept. */
  lemma {:induction false} CutsMatched(runs: seq<seq<string>>, path: seq<string>, pattern: seq<string>, pi: nat,
                                       gi: nat, one: OneMatch)
    requires pi <= |path| && gi <= |pattern| && Cuts(runs, path[pi..], pattern[gi..], one)
    ensures MatchParts(path, pattern, pi, gi, one)
    decreases |path| - pi + |pattern| - gi
  {
    if gi < |pattern| {
      hide Cuts;
      CutsRest(runs, path[pi..], pattern[gi..], one);
      assert pattern[gi..][1..] == pattern[gi + 1..];
      if runs[0] == [] {
        assert path[pi..] == Flat(runs[1..]);
        CutsMatched(runs[1..], path, pattern, pi, gi + 1, one);
      } else {
        assert path[pi..][0] == runs[0][0] && path[pi + 1..] == path[pi..][1..];
        if pattern[gi] != "**" {
          assert path[pi + 1..] == Flat(runs[1..]);
          CutsMatched(runs[1..], path, pattern, pi + 1, gi + 1, one);
        } else {
          assert path[pi + 1..] == runs[0][1..] + Flat(runs[1..]);
          CutsFirst(runs[0][1..], runs[1..], Flat(runs[1..]), pattern[gi..], one);
          CutsMatched([runs[0][1..]] + runs[1..], path, pattern, pi + 1, gi, one);
        }
      }
    }
  }

  /** The recursion decides the language. */
  lemma MatchIff(path: seq<string>, pattern: seq<string>, one: OneMatch)
    ensures MatchParts(path, pattern, 0, 0, one) <==> Language(path, pattern, one)
  {
    hide MatchParts;
    assert path[0..] == path && pattern[0..] == pattern;
    if MatchParts(path, pattern, 0, 0, one) {
      var runs := MatchedCuts(path, pattern, 0, 0, one);
    }
    if Language(path, pattern, one) {
      var runs :| Cuts(runs, path, pattern, one);
      CutsMatched(runs, path, pattern, 0, 0, one);
    }
  }

  /** The first pattern has the path up to place `k`, the second the rest. */
  ghost predicate MeetAt(path: seq<string>, k: int, p: seq<string>, q: seq<string>, one: OneMatch) {
    0 <= k <= |path| && Language(path[..k], p, one) && Language(path[k..], q, one)
  }

  lemma CutsApart(runs: seq<seq<string>>, path: seq<string>, p: seq<string>, q: seq<string>, one: OneMatch)
    requires Cuts(runs, path, p + q, one)
    ensures |p| <= |runs|
    ensures var k := |Flat(runs[..|p|])|;
      k <= |path| && Cuts(runs[..|p|], path[..k], p, one) && Cuts(runs[|p|..], path[k..], q, one)
  {
    var first, second := runs[..|p|], runs[|p|..];
    assert runs == first + second;
    FlatConcat(first, second);
    assert forall i :: 0 <= i < |p| ==> (p + q)[i] == p[i] && first[i] == runs[i];
    assert forall i :: 0 <= i < |q| ==> (p + q)[|p| + i] == q[i] && second[i] == runs[|p| + i];
  }

  lemma CutsTogether(first: seq<seq<string>>, second: seq<seq<string>>, path: seq<string>, k: nat, p: seq<string>,
                     q: seq<string>, one: OneMatch)
    requires k <= |path| && Cuts(first, path[..k], p, one) && Cuts(second, path[k..], q, one)
    ensures Cuts(first + second, path, p + q, one)
  {
    FlatConcat(first, second);
    assert path == path[..k] + path[k..];
  }

  /** A path is in the language of two patterns end to end iff it has a place
      with the first pattern before it and the second after it. */
  lemma LanguageConcat(path: seq<string>, p: seq<string>, q: seq<string>, one: OneMatch)
    ensures Language(path, p + q, one)
       <==> exists k :: MeetAt(path, k, p, q, one)
  {
    hide Cuts, Flat;
    if Language(path, p + q, one) {
      var runs :| Cuts(runs, path, p + q, one);
      CutsApart(runs, path, p, q, one);
      assert MeetAt(path, |Flat(runs[..|p|])|, p, q, one);
    }
    if k :| MeetAt(path, k, p, q, one) {
      var first :| Cuts(first, path[..k], p, one);
      var second :| Cuts(second, path[k..], q, one);
      CutsTogether(first, second, path, k, p, q, one);
    }
  }

  // ---------------------------------------------------------------------
  // Texts
  // ---------------------------------------------------------------------

  function RealChunks(chunks: seq<string>): (r: seq<string>)
    ensures forall c :: c in r <==> c in chunks && c != "" && c != "."
  {
    if chunks == [] then []
    else (if chunks[0] == "" || chunks[0] == "." then [] else [chunks[0]]) + RealChunks(chunks[1..])
  }

  /** The components of `Path(path).as_posix()` for a relative path. */
  function Components(path: string): (r: seq<string>)
    ensures r != []
  {
    var kept := RealChunks(Split(path, '/'));
    if kept == [] then ["."] else kept
  }

  predicate Absolute(path: string) {
    path != "" && path[0] == '/'
  }

  /** `matches`. */
  predicate Matches(path: string, pattern: string, one: OneMatch) {
    && !Absolute(path)
    && Components(path)[0] != ".."
    && MatchParts(Components(path), Split(pattern, '/'), 0, 0, one)
  }

  predicate MatchesAny(path: string, globs: seq<string>, one: OneMatch) {
    exists k :: 0 <= k < |globs| && Matches(path, globs[k], one)
  }

  /** A relative path that does not climb matches a pattern iff the pattern's
      language has its components; no other path matches. */
  lemma MatchesIff(path: string, pattern: string, one: OneMatch)
    ensures Matches(path, pattern, one)
       <==> !Absolute(path) && Components(path)[0] != ".." && Language(Components(path), Split(pattern, '/'), one)
  {
    MatchIff(Components(path), Split(pattern, '/'), one);
  }

  /** The components of a path are those it was written from, without the empty
      and dot ones, so other spellings of a path match the same patterns. */
  lemma SpellingIgnored(chunks: seq<string>, others: seq<string>, pattern: string, one: OneMatch)
    requires chunks != [] && others != [] && chunks[0] != "" && others[0] != ""
    requires RealChunks(chunks) == RealChunks(others)
    requires forall c :: c in chunks || c in others ==> '/' !in c
    ensures Matches(Join(chunks, '/'), pattern, one) == Matches(Join(others, '/'), pattern, one)
  {
    SplitJoined(chunks, '/');
    SplitJoined(others, '/');
    assert chunks[0] in chunks && others[0] in others;
    assert chunks[0][0] in chunks[0] && others[0][0] in others[0];
    assert Join(chunks, '/')[0] == chunks[0][0] && Join(others, '/')[0] == others[0][0];
  }

  /** A pattern of two halves matches a path iff the path's components split between them. */
  lemma MatchesHalves(path: string, p: string, q: string, one: OneMatch)
    requires !Absolute(path) && Components(path)[0] != ".."
    ensures Matches(path, p + "/" + q, one)
       <==> exists k :: MeetAt(Components(path), k, Split(p, '/'), Split(q, '/'), one)
  {
    hide MatchParts, Language, MeetAt, Components, Split;
    MatchesIff(path, p + "/" + q, one);
    SplitConcat(p, q, '/');
    LanguageConcat(Components(path), Split(p, '/'), Split(q, '/'), one);
  }

  lemma LanguageEnd(rest: seq<string>, parts: seq<string>, one: OneMatch)
    requires parts == ["**"]
    ensures Language(rest, parts, one)
  {
    assert Flat([rest]) == rest + Flat([]);
    assert Cuts([rest], rest, parts, one);
  }

  /** Whatever lies below a path that a pattern accepts is accepted by the pattern with `**` added. */
  lemma BelowMatches(path: seq<string>, below: seq<string>, pattern: seq<string>, one: OneMatch)
    requires MatchParts(path, pattern, 0, 0, one)
    ensures MatchParts(path + below, pattern + ["**"], 0, 0, one)
  {
    hide MatchParts, Language;
    MatchIff(path, pattern, one);
    LanguageEnd(below, ["**"], one);
    var all := path + below;
    assert all[..|path|] == path && all[|path|..] == below;
    assert MeetAt(all, |path|, pattern, ["**"], one);
    LanguageConcat(all, pattern, ["**"], one);
    MatchIff(all, pattern + ["**"], one);
  }
}

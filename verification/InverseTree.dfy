// The reader of cargo's depth-prefixed inverse trees. A tree is printed in
// preorder, one line a node; the reader keeps a stack and writes a path whenever
// a line does not descend. Reading is proved to invert printing.
module InverseTree {
  import opened Options

  type Path = seq<string>

  /** A line after the line pattern has been applied to it. */
  datatype Line = Blank | Node(depth: nat, name: string) | Malformed

  // ---------------------------------------------------------------------
  // The reader
  // ---------------------------------------------------------------------

  /** The rest of the loop; nothing is the `ValueError`. */
  function Read(stack: Path, paths: seq<Path>, lines: seq<Line>): Option<seq<Path>>
    decreases |lines|
  {
    if lines == [] then Some(if stack != [] then paths + [stack] else paths)
    else
      match lines[0]
      case Blank => Read(stack, paths, lines[1..])
      case Malformed => None
      case Node(depth, name) =>
        if depth > |stack| then None
        else Read(stack[..depth] + [name], if depth < |stack| then paths + [stack] else paths, lines[1..])
  }

  method InversePaths(lines: seq<Line>) returns (result: Option<seq<Path>>)
    ensures result == Read([], [], lines)
  {
    var stack: Path, paths: seq<Path> := [], [];
    for i := 0 to |lines|
      invariant Read(stack, paths, lines[i..]) == Read([], [], lines)
    {
      assert lines[i..][1..] == lines[i + 1..];
      match lines[i] {
        case Blank =>
        case Malformed => return None;
        case Node(depth, name) =>
          if depth > |stack| {
            return None;
          }
          if depth < |stack| {
            paths := paths + [stack];
          }
          stack := stack[..depth] + [name];
      }
    }
    if stack != [] {
      paths := paths + [stack];
    }
    return Some(paths);
  }

  lemma {:induction false} BlanksIgnored(stack: Path, paths: seq<Path>, lines: seq<Line>)
    ensures Read(stack, paths, lines) == Read(stack, paths, Nodes(lines))
    decreases |lines|
  {
    if lines != [] {
      assert !lines[0].Blank? ==> Nodes(lines)[1..] == Nodes(lines[1..]);
      assert lines[0].Blank? ==> Nodes(lines) == Nodes(lines[1..]);
      if lines[0].Node? && lines[0].depth <= |stack| {
        var d := lines[0].depth;
        BlanksIgnored(stack[..d] + [lines[0].name], if d < |stack| then paths + [stack] else paths, lines[1..]);
      }
      BlanksIgnored(stack, paths, lines[1..]);
    }
  }

  function Nodes(lines: seq<Line>): seq<Line> {
    if lines == [] then [] else (if lines[0].Blank? then [] else [lines[0]]) + Nodes(lines[1..])
  }

  // ---------------------------------------------------------------------
  // Forests
  // ---------------------------------------------------------------------

  /** A first tree, with its children, and the trees after it. */
  datatype Forest = Empty | Grow(name: string, kids: Forest, rest: Forest)

  function Print(f: Forest, depth: nat): seq<Line> {
    match f
    case Empty => []
    case Grow(name, kids, rest) => [Node(depth, name)] + (Print(kids, depth + 1) + Print(rest, depth))
  }

  /** Root-to-leaf paths, in order. */
  function Paths(f: Forest, prefix: Path): (r: seq<Path>)
    ensures f.Grow? ==> r != []
  {
    match f
    case Empty => []
    case Grow(name, kids, rest) =>
      (if kids.Empty? then [prefix + [name]] else Paths(kids, prefix + [name])) + Paths(rest, prefix)
  }

  lemma {:induction false} PathsExtend(f: Forest, prefix: Path)
    ensures forall x :: x in Paths(f, prefix) ==> |prefix| < |x| && x[..|prefix|] == prefix
  {
    if f.Grow? {
      PathsExtend(f.kids, prefix + [f.name]);
      PathsExtend(f.rest, prefix);
      forall x | x in Paths(f.kids, prefix + [f.name]) ensures |prefix| < |x| && x[..|prefix|] == prefix {
        assert x[..|prefix| + 1][..|prefix|] == prefix;
      }
    }
  }

  function Init(s: seq<Path>): seq<Path>
    requires s != []
  {
    s[..|s| - 1]
  }

  function Last(s: seq<Path>): Path
    requires s != []
  {
    s[|s| - 1]
  }

  /** The leaf that the next line at this depth will complete. */
  function Pending(stack: Path, depth: nat): seq<Path> {
    if |stack| > depth then [stack] else []
  }

  lemma ReadNode(stack: Path, paths: seq<Path>, depth: nat, name: string, below: seq<Line>)
    requires depth <= |stack|
    ensures Read(stack, paths, [Node(depth, name)] + below)
         == Read(stack[..depth] + [name], paths + Pending(stack, depth), below)
  {
    assert ([Node(depth, name)] + below)[1..] == below;
    assert paths + [] == paths;
  }

  /** The paths of the first tree of a forest. */
  function FirstPaths(f: Forest, prefix: Path): (r: seq<Path>)
    requires f.Grow?
    ensures r != [] && Paths(f, prefix) == r + Paths(f.rest, prefix)
  {
    if f.kids.Empty? then [prefix + [f.name]] else Paths(f.kids, prefix + [f.name])
  }

  lemma LastExtends(f: Forest, prefix: Path)
    requires f.Grow?
    ensures var x := Last(FirstPaths(f, prefix)); |prefix| < |x| && x[..|prefix|] == prefix
  {
    PathsExtend(f, prefix);
    assert Last(FirstPaths(f, prefix)) in Paths(f, prefix);
  }

  lemma {:induction false} ReadTree(f: Forest, prefix: Path, stack: Path, paths: seq<Path>, after: seq<Line>)
    requires f.Grow? && |prefix| <= |stack| && stack[..|prefix|] == prefix
    ensures var d, first := |prefix|, FirstPaths(f, prefix);
      Read(stack, paths, [Node(d, f.name)] + (Print(f.kids, d + 1) + after))
      == Read(Last(first), paths + Pending(stack, d) + Init(first), after)
    decreases f, 0
  {
    hide Read, Print, Paths;
    var d, here := |prefix|, prefix + [f.name];
    var written := paths + Pending(stack, d);
    ReadNode(stack, paths, d, f.name, Print(f.kids, d + 1) + after);
    if f.kids.Empty? {
      assert written + [] == written;
      assert Print(f.kids, d + 1) + after == after by { PrintEmpty(d + 1); assert [] + after == after; }
    } else {
      ReadPrinted(f.kids, here, here, written, after);
      assert [] + Paths(f.kids, here) == Paths(f.kids, here);
    }
  }

  lemma PrintEmpty(depth: nat)
    ensures Print(Empty, depth) == []
  {
  }

  /** Reading a printed forest writes all its paths but the last, which stays on the stack. */
  lemma {:induction false} ReadPrinted(f: Forest, prefix: Path, stack: Path, paths: seq<Path>, more: seq<Line>)
    requires f.Grow? && |prefix| <= |stack| && stack[..|prefix|] == prefix
    ensures var all := Pending(stack, |prefix|) + Paths(f, prefix);
      Read(stack, paths, Print(f, |prefix|) + more) == Read(Last(all), paths + Init(all), more)
    decreases f, 1
  {
    var d := |prefix|;
    var pending, first := Pending(stack, d), FirstPaths(f, prefix);
    var written := paths + pending + Init(first);
    var after := Print(f.rest, d) + more;
    assert Print(f, d) + more == [Node(d, f.name)] + (Print(f.kids, d + 1) + after);
    hide Read, Print, Paths;
    ReadTree(f, prefix, stack, paths, after);
    LastJoins(paths, pending, first, Paths(f.rest, prefix));
    if f.rest.Empty? {
      assert after == more by { PrintEmpty(d); assert [] + more == more; }
      NoPaths(prefix);
    } else {
      LastExtends(f, prefix);
      ReadPrinted(f.rest, prefix, Last(first), written, more);
    }
  }

  lemma NoPaths(prefix: Path)
    ensures Paths(Empty, prefix) == []
  {
  }

  lemma LastJoins(paths: seq<Path>, pending: seq<Path>, first: seq<Path>, rest: seq<Path>)
    requires first != []
    ensures var done := paths + pending + Init(first);
      && Last([Last(first)] + rest) == Last(pending + (first + rest))
      && done + Init([Last(first)] + rest) == paths + Init(pending + (first + rest))
      && (rest == [] ==>
            Last(first) == Last(pending + (first + rest)) && done == paths + Init(pending + (first + rest)))
  {
    var init, tail := Init(first), [Last(first)] + rest;
    assert first == init + [Last(first)];
    assert pending + (first + rest) == (pending + init) + tail;
    InitJoins(pending + init, tail);
    assert paths + pending + init + Init(tail) == paths + ((pending + init) + Init(tail));
    if rest == [] {
      assert tail == [Last(first)] && Init(tail) == [];
      assert paths + pending + init + [] == paths + pending + init;
    }
  }

  lemma InitJoins(a: seq<Path>, b: seq<Path>)
    requires b != []
    ensures Init(a + b) == a + Init(b) && Last(a + b) == Last(b)
  {
  }

  lemma ReadDone(stack: Path, paths: seq<Path>)
    requires stack != []
    ensures Read(stack, paths, []) == Some(paths + [stack])
  {
  }

  lemma NothingAround(paths: seq<Path>, lines: seq<Line>)
    ensures Pending([], 0) + paths == paths && [] + paths == paths && lines + [] == lines
  {
  }

  lemma ReadAll(f: Forest)
    requires f.Grow?
    ensures var all := Paths(f, []);
      Read([], [], Print(f, 0)) == Read(Last(all), Init(all), [])
  {
    hide *;
    ReadPrinted(f, [], [], [], []);
    NothingAround(Paths(f, []), Print(f, 0));
    NothingAround(Init(Paths(f, [])), []);
  }

  lemma LastIsPath(f: Forest)
    requires f.Grow?
    ensures Last(Paths(f, [])) != []
  {
    hide Paths;
    PathsExtend(f, []);
    assert Last(Paths(f, [])) in Paths(f, []);
  }

  lemma InitLast(all: seq<Path>)
    requires all != []
    ensures Init(all) + [Last(all)] == all
  {
  }

  /** Reading inverts printing, for every forest. */
  lemma ReadInvertsPrint(f: Forest)
    ensures Read([], [], Print(f, 0)) == Some(Paths(f, []))
  {
    if f.Grow? {
      hide *;
      var all := Paths(f, []);
      ReadAll(f);
      LastIsPath(f);
      ReadDone(Last(all), Init(all));
      InitLast(all);
    }
  }

  // ---------------------------------------------------------------------
  // What is accepted
  // ---------------------------------------------------------------------

  /** No line descends by more than one. */
  predicate Legal(lines: seq<Line>, limit: nat)
    decreases |lines|
  {
    lines != [] ==> lines[0].Node? && lines[0].depth <= limit && Legal(lines[1..], lines[0].depth + 1)
  }

  lemma {:induction false} ReadAccepts(stack: Path, paths: seq<Path>, lines: seq<Line>)
    requires forall x :: x in lines ==> !x.Blank?
    ensures Read(stack, paths, lines).Some? <==> Legal(lines, |stack|)
    decreases |lines|
  {
    if lines != [] && lines[0].Node? && lines[0].depth <= |stack| {
      var d := lines[0].depth;
      ReadAccepts(stack[..d] + [lines[0].name], if d < |stack| then paths + [stack] else paths, lines[1..]);
    }
  }

  /** The forest a legal listing spells at a depth, and the lines behind it. */
  function Parse(lines: seq<Line>, depth: nat): (r: (Forest, seq<Line>))
    requires Legal(lines, depth)
    ensures |r.1| <= |lines| && Legal(r.1, depth) && (r.1 != [] ==> r.1[0].depth < depth)
    decreases |lines|
  {
    if lines == [] || lines[0].depth < depth then (Empty, lines)
    else
      var (kids, after) := Parse(lines[1..], depth + 1);
      var (rest, last) := Parse(after, depth);
      (Grow(lines[0].name, kids, rest), last)
  }

  lemma {:induction false} PrintParsed(lines: seq<Line>, depth: nat)
    requires Legal(lines, depth)
    ensures Print(Parse(lines, depth).0, depth) + Parse(lines, depth).1 == lines
    decreases |lines|
  {
    if lines != [] && lines[0].depth >= depth {
      var kids := Parse(lines[1..], depth + 1);
      var rest := Parse(kids.1, depth);
      assert Parse(lines, depth) == (Grow(lines[0].name, kids.0, rest.0), rest.1);
      assert lines == [Node(depth, lines[0].name)] + lines[1..];
      PrintParsed(lines[1..], depth + 1);
      PrintParsed(kids.1, depth);
      hide Print, Parse;
      PrintGrow(lines[0].name, kids.0, rest.0, depth, rest.1);
    } else {
      PrintEmpty(depth);
      assert [] + lines == lines;
    }
  }

  lemma PrintGrow(name: string, kids: Forest, rest: Forest, depth: nat, more: seq<Line>)
    ensures Print(Grow(name, kids, rest), depth) + more
         == [Node(depth, name)] + (Print(kids, depth + 1) + (Print(rest, depth) + more))
  {
  }

  lemma {:induction false} ParsePrinted(f: Forest, depth: nat, more: seq<Line>)
    requires Legal(more, depth) && (more != [] ==> more[0].depth < depth)
    ensures Legal(Print(f, depth) + more, depth) && Parse(Print(f, depth) + more, depth) == (f, more)
    decreases f
  {
    match f
    case Empty =>
      assert [] + more == more;
    case Grow(name, kids, rest) =>
      var siblings := Print(rest, depth) + more;
      var all := Print(f, depth) + more;
      assert all[1..] == Print(kids, depth + 1) + siblings;
      ParsePrinted(rest, depth, more);
      SiblingsLegal(rest, depth, more);
      ParsePrinted(kids, depth + 1, siblings);
  }

  lemma SiblingsLegal(rest: Forest, depth: nat, more: seq<Line>)
    requires Legal(more, depth) && (more != [] ==> more[0].depth < depth)
    requires Legal(Print(rest, depth) + more, depth)
    ensures var siblings := Print(rest, depth) + more;
      Legal(siblings, depth + 1) && (siblings != [] ==> siblings[0].depth < depth + 1)
  {
  }

  lemma {:induction false} NodesHaveNoBlank(lines: seq<Line>)
    ensures forall x :: x in Nodes(lines) ==> !x.Blank?
  {
    if lines != [] { NodesHaveNoBlank(lines[1..]); }
  }

  /** A listing is accepted exactly when, blank lines aside, it is the preorder of some forest. */
  lemma AcceptedIffPrinted(lines: seq<Line>)
    ensures Read([], [], lines).Some? <==> exists f :: Print(f, 0) == Nodes(lines)
  {
    var nodes := Nodes(lines);
    BlanksIgnored([], [], lines);
    NodesHaveNoBlank(lines);
    ReadAccepts([], [], nodes);
    if Legal(nodes, 0) {
      PrintParsed(nodes, 0);
      var f := Parse(nodes, 0).0;
      assert Print(f, 0) == nodes by { assert Print(f, 0) + [] == Print(f, 0); }
    }
    if f :| Print(f, 0) == nodes {
      ParsePrinted(f, 0, []);
      assert Print(f, 0) + [] == Print(f, 0);
    }
  }

  /** ... and of only one. */
  lemma PrintedOnce(f: Forest, g: Forest)
    requires Print(f, 0) == Print(g, 0)
    ensures f == g
  {
    ParsePrinted(f, 0, []);
    ParsePrinted(g, 0, []);
    assert Print(f, 0) + [] == Print(f, 0) && Print(g, 0) + [] == Print(g, 0);
  }

  // ---------------------------------------------------------------------
  // Origins
  // ---------------------------------------------------------------------

  datatype Verdict =
    | Allowed(paths: seq<Path>)
    | BadTree
    | Unexpected
    | Disallowed(path: Path)
    | WorkspaceFeeds(path: Path)

  predicate ThroughWindow(dependency: string, product: string, path: Path) {
    |path| >= 3 && path[..3] == [dependency, "sctk-adwaita", "winit"] && path[|path| - 1] == product
  }

  predicate Foreign(workspace: set<string>, path: Path) {
    forall k :: 0 < k < |path| - 1 ==> path[k] !in workspace
  }

  /** The path is the first that is not the window one, or passes a workspace crate. */
  predicate FirstBad(paths: seq<Path>, i: nat, product: string, dependency: string, workspace: set<string>) {
    && i < |paths| && !(ThroughWindow(dependency, product, paths[i]) && Foreign(workspace, paths[i]))
    && forall k :: 0 <= k < i ==> ThroughWindow(dependency, product, paths[k]) && Foreign(workspace, paths[k])
  }

  ghost predicate IsFirstBad(paths: seq<Path>, path: Path, product: string, dependency: string,
                             workspace: set<string>) {
    exists i: nat :: FirstBad(paths, i, product, dependency, workspace) && paths[i] == path
  }

  lemma WindowIs(dependency: string, product: string, path: Path)
    ensures ThroughWindow(dependency, product, path) <==>
      && |path| >= 3 && path[0] == dependency && path[1] == "sctk-adwaita" && path[2] == "winit"
      && path[|path| - 1] == product
  {
    if |path| >= 3 { assert path[..3] == [path[0], path[1], path[2]]; }
  }

  /** `check_origin`: every path to an allowed dependency is the window one and
      passes no workspace crate; an absent dependency is always allowed. */
  method CheckOrigin(product: string, dependency: string, lines: seq<Line>, workspace: set<string>) returns (v: Verdict)
    ensures v.BadTree? <==> Read([], [], lines).None?
    ensures v.Allowed? <==>
      var paths := Read([], [], lines);
      paths.Some? && (paths.value == []
        || (product == "panel" && (dependency == "tiny-skia" || dependency == "ab_glyph")
            && forall x :: x in paths.value ==> ThroughWindow(dependency, product, x) && Foreign(workspace, x)))
    ensures v.Allowed? ==> Some(v.paths) == Read([], [], lines)
    ensures v.Unexpected? <==>
      && Read([], [], lines).Some? && Read([], [], lines).value != []
      && !(product == "panel" && (dependency == "tiny-skia" || dependency == "ab_glyph"))
    // Otherwise the first path that is not allowed is named, with what is wrong with it.
    ensures v.Disallowed? || v.WorkspaceFeeds? ==>
      Read([], [], lines).Some? && IsFirstBad(Read([], [], lines).value, v.path, product, dependency, workspace)
    ensures v.Disallowed? ==> !ThroughWindow(dependency, product, v.path)
    ensures v.WorkspaceFeeds? ==> ThroughWindow(dependency, product, v.path) && !Foreign(workspace, v.path)
  {
    var read := InversePaths(lines);
    if read.None? {
      return BadTree;
    }
    var paths := read.value;
    hide Read, ThroughWindow, Foreign;
    if paths == [] {
      return Allowed([]);
    }
    if product != "panel" || !(dependency == "tiny-skia" || dependency == "ab_glyph") {
      return Unexpected;
    }
    for i := 0 to |paths|
      invariant forall k :: 0 <= k < i ==> ThroughWindow(dependency, product, paths[k]) && Foreign(workspace, paths[k])
    {
      assert FirstBad(paths, i, product, dependency, workspace)
        <==> !(ThroughWindow(dependency, product, paths[i]) && Foreign(workspace, paths[i]));
      if !ThroughWindow(dependency, product, paths[i]) {
        return Disallowed(paths[i]);
      }
      if !Foreign(workspace, paths[i]) {
        return WorkspaceFeeds(paths[i]);
      }
    }
    return Allowed(paths);
  }
}

// The live plan: every changed path is sorted into one class, and the cells of
// the rows that cover a live path are picked, once per command. The plan is
// proved to depend on the sets of paths and rows alone.
module LivePlan {
  import opened Options
  import opened Globs
  import opened Orders

  datatype Cell = Cell(name: string, command: string, selector: string)

  datatype Row = Row(globs: seq<string>, cells: seq<Cell>)

  datatype Config = Config(live: seq<string>, notLive: seq<string>, exceptions: seq<string>, cover: seq<Row>)

  datatype Plan = Plan(cells: seq<Cell>, uncovered: seq<string>, unclassified: seq<string>, notLive: seq<string>)

  predicate NameLess(a: Cell, b: Cell) {
    TextLess(a.name, b.name)
  }

  // ---------------------------------------------------------------------
  // Cells
  // ---------------------------------------------------------------------

  predicate Agree(a: Cell, b: Cell) {
    (a.name == b.name ==> a == b) && (a.command == b.command ==> a.selector == b.selector)
  }

  /** One cell per name, and one selector per command. */
  ghost predicate Consistent(cells: set<Cell>) {
    forall a, b :: a in cells && b in cells ==> Agree(a, b)
  }

  /** Every command of the set, with its cell of least name. */
  ghost predicate LeastPerCommand(cells: set<Cell>, m: map<string, Cell>) {
    && (forall k :: k in m ==> m[k] in cells && m[k].command == k)
    && (forall c :: c in cells ==> c.command in m && !NameLess(c, m[c.command]))
  }

  /** The update shared by `_cell_registry` and `make_plan`. */
  function WithCell(m: map<string, Cell>, cell: Cell): map<string, Cell> {
    if cell.command !in m || NameLess(cell, m[cell.command]) then m[cell.command := cell] else m
  }

  lemma WithCellLeast(cells: set<Cell>, m: map<string, Cell>, cell: Cell)
    requires LeastPerCommand(cells, m)
    ensures LeastPerCommand(cells + {cell}, WithCell(m, cell))
  {
    var after := WithCell(m, cell);
    forall c | c in cells + {cell} ensures c.command in after && !NameLess(c, after[c.command]) {
      TextLessTotal(c.name, cell.name);
      if c in cells && NameLess(c, cell) && NameLess(cell, m[c.command]) {
        TextLessTransitive(c.name, cell.name, m[c.command].name);
      }
    }
  }

  function CellSet(rows: seq<Row>): (r: set<Cell>)
    ensures forall c :: c in r <==> exists row :: row in rows && c in row.cells
  {
    set row, c | row in rows && c in row.cells :: c
  }

  datatype Registry = Registry(cells: map<string, Cell>, names: map<string, Cell>)

  /** What the registry holds after some of the cells. */
  ghost predicate Registered(seen: set<Cell>, r: Registry) {
    && Consistent(seen) && LeastPerCommand(seen, r.cells)
    && (forall n :: n in r.names ==> r.names[n] in seen && r.names[n].name == n)
    && (forall c :: c in seen ==> c.name in r.names)
  }

  lemma CellSetNext(rows: seq<Row>, i: nat)
    requires i < |rows|
    ensures CellSet(rows[..i + 1]) == CellSet(rows[..i]) + Members(rows[i].cells)
  {
    assert rows[..i + 1] == rows[..i] + [rows[i]];
  }

  predicate NoConflict(r: Registry, cell: Cell) {
    && (cell.name in r.names ==> r.names[cell.name] == cell)
    && (cell.command in r.cells ==> r.cells[cell.command].selector == cell.selector)
  }

  lemma SeenIsStored(seen: set<Cell>, r: Registry, c: Cell)
    requires Registered(seen, r) && c in seen
    ensures c.name in r.names && r.names[c.name] == c
    ensures c.command in r.cells && r.cells[c.command].selector == c.selector
  {
    assert Agree(r.names[c.name], c) && Agree(r.cells[c.command], c);
  }

  lemma StoredIsSeen(seen: set<Cell>, r: Registry)
    requires Registered(seen, r)
    ensures forall n :: n in r.names ==> r.names[n] in seen && r.names[n].name == n
    ensures forall k :: k in r.cells ==> r.cells[k] in seen && r.cells[k].command == k
  {
  }

  lemma AgreesWithAll(seen: set<Cell>, cell: Cell)
    requires Consistent(seen) && forall c :: c in seen ==> Agree(c, cell)
    ensures Consistent(seen + {cell})
  {
    forall a, b | a in seen + {cell} && b in seen + {cell} ensures Agree(a, b) {
      if a == cell && b in seen { assert Agree(b, cell); }
    }
  }

  /** The two checks of the loop see every conflict with an earlier cell. */
  lemma ConflictsSeen(seen: set<Cell>, r: Registry, cell: Cell)
    requires Registered(seen, r)
    ensures Consistent(seen + {cell}) <==> NoConflict(r, cell)
  {
    hide Registered;
    StoredIsSeen(seen, r);
    if Consistent(seen + {cell}) {
      assert cell.name in r.names ==> Agree(r.names[cell.name], cell);
      assert cell.command in r.cells ==> Agree(r.cells[cell.command], cell);
    }
    if NoConflict(r, cell) {
      hide Consistent;
      forall c | c in seen ensures Agree(c, cell) {
        SeenIsStored(seen, r, c);
      }
      assert Consistent(seen) by { RegisteredIsConsistent(seen, r); }
      AgreesWithAll(seen, cell);
    }
  }

  lemma RegisteredIsConsistent(seen: set<Cell>, r: Registry)
    requires Registered(seen, r)
    ensures Consistent(seen)
  {
  }

  /** One turn of the registry's loop; nothing is a `MapError`. */
  method AddCell(r: Registry, cell: Cell, ghost seen: set<Cell>) returns (after: Option<Registry>)
    requires Registered(seen, r)
    ensures after.Some? <==> Consistent(seen + {cell})
    ensures after.Some? ==> Registered(seen + {cell}, after.value)
  {
    hide Consistent, LeastPerCommand;
    ConflictsSeen(seen, r, cell);
    if cell.name in r.names && r.names[cell.name] != cell {
      return None;
    }
    if cell.command in r.cells && r.cells[cell.command].selector != cell.selector {
      return None;
    }
    WithCellLeast(seen, r.cells, cell);
    return Some(Registry(WithCell(r.cells, cell), r.names[cell.name := cell]));
  }

  lemma FewerConsistent(few: set<Cell>, all: set<Cell>)
    requires few <= all && Consistent(all)
    ensures Consistent(few)
  {
  }

  /** The registry's inner loop. */
  method AddCells(r: Registry, cells: seq<Cell>, ghost seen: set<Cell>) returns (after: Option<Registry>)
    requires Registered(seen, r)
    ensures after.Some? <==> Consistent(seen + Members(cells))
    ensures after.Some? ==> Registered(seen + Members(cells), after.value)
  {
    hide Consistent, LeastPerCommand;
    var now := r;
    ghost var goal := seen + Members(cells);
    assert seen + Members(cells[..0]) == seen;
    for j := 0 to |cells|
      invariant Registered(seen + Members(cells[..j]), now)
    {
      ghost var done := seen + Members(cells[..j]);
      MembersNext(cells, j);
      assert seen + Members(cells[..j + 1]) == done + {cells[j]} <= goal;
      if Consistent(goal) { FewerConsistent(done + {cells[j]}, goal); }
      var next := AddCell(now, cells[j], done);
      if next.None? { return None; }
      now := next.value;
    }
    MembersAll(cells);
    return Some(now);
  }

  /** `_cell_registry`: accepted iff no name and no selector conflicts, and then
      every command has its cell of least name. */
  method CellRegistry(cover: seq<Row>) returns (cells: Option<map<string, Cell>>)
    ensures cells.Some? <==> Consistent(CellSet(cover))
    ensures cells.Some? ==> LeastPerCommand(CellSet(cover), cells.value)
  {
    var r := Registry(map[], map[]);
    for i := 0 to |cover|
      invariant Registered(CellSet(cover[..i]), r)
    {
      hide Consistent, LeastPerCommand, Registered;
      CellSetNext(cover, i);
      CellSetGrows(cover, i + 1);
      if Consistent(CellSet(cover)) { FewerConsistent(CellSet(cover[..i + 1]), CellSet(cover)); }
      var next := AddCells(r, cover[i].cells, CellSet(cover[..i]));
      if next.None? { return None; }
      r := next.value;
    }
    assert cover[..|cover|] == cover;
    return Some(r.cells);
  }

  lemma CellSetGrows(rows: seq<Row>, i: nat)
    requires i <= |rows|
    ensures CellSet(rows[..i]) <= CellSet(rows)
  {
  }

  // ---------------------------------------------------------------------
  // The plan
  // ---------------------------------------------------------------------

  predicate Excluded(path: string, config: Config, one: OneMatch) {
    MatchesAny(path, config.notLive, one) && !MatchesAny(path, config.exceptions, one)
  }

  predicate Live(path: string, config: Config, one: OneMatch) {
    !Excluded(path, config, one) && MatchesAny(path, config.live, one)
  }

  predicate Covers(row: Row, path: string, one: OneMatch) {
    MatchesAny(path, row.globs, one)
  }

  predicate Covered(path: string, config: Config, one: OneMatch) {
    exists row :: row in config.cover && Covers(row, path, one)
  }

  /** The cells of every row that covers a live path. */
  function Selected(paths: set<string>, config: Config, one: OneMatch): (r: set<Cell>)
    ensures r <= CellSet(config.cover)
  {
    set path, row, c | path in paths && Live(path, config, one) && row in config.cover && Covers(row, path, one)
                       && c in row.cells :: c
  }

  /** Of the cells with one command, those that no other precedes by name. */
  ghost function Picked(cells: set<Cell>): set<Cell> {
    set c | c in cells && forall d :: d in cells && d.command == c.command ==> !NameLess(d, c)
  }

  ghost function ExcludedOf(paths: set<string>, config: Config, one: OneMatch): set<string> {
    set p | p in paths && Excluded(p, config, one)
  }

  ghost function LiveOf(paths: set<string>, config: Config, one: OneMatch): set<string> {
    set p | p in paths && Live(p, config, one)
  }

  ghost function UnclassifiedOf(paths: set<string>, config: Config, one: OneMatch): set<string> {
    set p | p in paths && !Excluded(p, config, one) && !Live(p, config, one)
  }

  ghost function UncoveredOf(paths: set<string>, config: Config, one: OneMatch): set<string> {
    set p | p in paths && Live(p, config, one) && !Covered(p, config, one)
  }

  ghost predicate IsPlan(plan: Plan, paths: set<string>, config: Config, one: OneMatch) {
    && Lists(plan.notLive, ExcludedOf(paths, config, one), TextLess)
    && Lists(plan.unclassified, UnclassifiedOf(paths, config, one), TextLess)
    && Lists(plan.uncovered, UncoveredOf(paths, config, one), TextLess)
    && Lists(plan.cells, Picked(Selected(paths, config, one)), NameLess)
  }

  /** A live path's cells join those picked before. */
  method AddPath(m: map<string, Cell>, rows: seq<Row>, ghost seen: set<Cell>) returns (after: map<string, Cell>)
    requires LeastPerCommand(seen, m)
    ensures LeastPerCommand(seen + CellSet(rows), after)
  {
    hide LeastPerCommand, WithCell, CellSet;
    after := m;
    ghost var done := seen;
    assert CellSet(rows[..0]) == {};
    for i := 0 to |rows|
      invariant done == seen + CellSet(rows[..i]) && LeastPerCommand(done, after)
    {
      ghost var before := done;
      CellSetNext(rows, i);
      for j := 0 to |rows[i].cells|
        invariant done == before + Members(rows[i].cells[..j]) && LeastPerCommand(done, after)
      {
        MembersNext(rows[i].cells, j);
        WithCellLeast(done, after, rows[i].cells[j]);
        after := WithCell(after, rows[i].cells[j]);
        done := done + {rows[i].cells[j]};
      }
      MembersAll(rows[i].cells);
    }
    assert rows[..|rows|] == rows;
  }

  function CoveringRows(rows: seq<Row>, path: string, one: OneMatch): (r: seq<Row>)
    ensures forall row :: row in r <==> row in rows && Covers(row, path, one)
  {
    if rows == [] then []
    else (if Covers(rows[0], path, one) then [rows[0]] else []) + CoveringRows(rows[1..], path, one)
  }

  /** A new path joins exactly one class. */
  lemma ClassNext(seen: set<string>, path: string, config: Config, one: OneMatch)
    ensures var all := seen + {path};
      && ExcludedOf(all, config, one)
         == ExcludedOf(seen, config, one) + (if Excluded(path, config, one) then {path} else {})
      && LiveOf(all, config, one) == LiveOf(seen, config, one) + (if Live(path, config, one) then {path} else {})
      && UnclassifiedOf(all, config, one) == UnclassifiedOf(seen, config, one)
           + (if !Excluded(path, config, one) && !Live(path, config, one) then {path} else {})
  {
  }

  lemma ListsNext(r: seq<string>, s: set<string>, x: string)
    requires Lists(r, s, TextLess) && forall y :: y in s ==> TextLess(y, x)
    ensures Lists(r + [x], s + {x}, TextLess)
  {
    forall i | 0 <= i < |r| ensures TextLess(r[i], x) {
      assert r[i] in r;
    }
  }

  /** The first loop of `make_plan`: a class for every path. */
  method Classify(paths: seq<string>, config: Config, one: OneMatch)
      returns (live: seq<string>, notLive: seq<string>, unclassified: seq<string>)
    requires Ascending(paths, TextLess)
    ensures Lists(notLive, ExcludedOf(Members(paths), config, one), TextLess)
    ensures Lists(unclassified, UnclassifiedOf(Members(paths), config, one), TextLess)
    ensures Lists(live, LiveOf(Members(paths), config, one), TextLess)
  {
    live, notLive, unclassified := [], [], [];
    for i := 0 to |paths|
      invariant Lists(notLive, ExcludedOf(Members(paths[..i]), config, one), TextLess)
      invariant Lists(unclassified, UnclassifiedOf(Members(paths[..i]), config, one), TextLess)
      invariant Lists(live, LiveOf(Members(paths[..i]), config, one), TextLess)
    {
      hide Lists, TextLess, MatchesAny;
      var path := paths[i];
      ghost var seen := Members(paths[..i]);
      MembersNext(paths, i);
      ClassNext(seen, path, config, one);
      assert forall y :: y in seen ==> TextLess(y, path);
      if Excluded(path, config, one) {
        ListsNext(notLive, ExcludedOf(seen, config, one), path);
        notLive := notLive + [path];
      } else if MatchesAny(path, config.live, one) {
        ListsNext(live, LiveOf(seen, config, one), path);
        live := live + [path];
      } else {
        ListsNext(unclassified, UnclassifiedOf(seen, config, one), path);
        unclassified := unclassified + [path];
      }
    }
    MembersAll(paths);
  }

  lemma SelectedNext(seen: set<string>, path: string, config: Config, one: OneMatch)
    requires Live(path, config, one)
    ensures var rows := CoveringRows(config.cover, path, one);
      && Selected(seen + {path}, config, one) == Selected(seen, config, one) + CellSet(rows)
      && UncoveredOf(seen + {path}, config, one) == UncoveredOf(seen, config, one) + (if rows == [] then {path} else {})
  {
    hide Live, Covers, CoveringRows;
    var rows := CoveringRows(config.cover, path, one);
    if rows != [] { assert rows[0] in rows; }
  }

  lemma OnlyLiveMatters(paths: set<string>, config: Config, one: OneMatch)
    ensures Selected(LiveOf(paths, config, one), config, one) == Selected(paths, config, one)
    ensures UncoveredOf(LiveOf(paths, config, one), config, one) == UncoveredOf(paths, config, one)
  {
    hide Live, Covers;
  }

  lemma CellsRank(cells: set<Cell>)
    requires Consistent(cells)
    ensures Ranks(cells, NameLess)
  {
    forall a, b | a in cells && b in cells
      ensures (a == b || NameLess(a, b) || NameLess(b, a)) && (NameLess(a, b) ==> !NameLess(b, a))
    {
      TextLessTotal(a.name, b.name);
      assert Agree(a, b);
    }
    forall a, b, c | NameLess(a, b) && NameLess(b, c) ensures NameLess(a, c) {
      TextLessTransitive(a.name, b.name, c.name);
    }
  }

  lemma LeastIsPicked(cells: set<Cell>, m: map<string, Cell>)
    requires Consistent(cells) && LeastPerCommand(cells, m)
    ensures m.Values == Picked(cells)
  {
    forall c | c in Picked(cells) ensures c in m.Values {
      var d := m[c.command];
      TextLessTotal(c.name, d.name);
      assert Agree(c, d);
    }
  }

  lemma ListsMembers(r: seq<string>, s: set<string>)
    requires Lists(r, s, TextLess)
    ensures Members(r) == s && Ascending(r, TextLess)
  {
  }

  /** The second loop of `make_plan`: the cells of the rows that cover a live path. */
  method Choose(live: seq<string>, config: Config, one: OneMatch)
      returns (selected: map<string, Cell>, uncovered: seq<string>)
    requires Ascending(live, TextLess) && forall p :: p in live ==> Live(p, config, one)
    ensures LeastPerCommand(Selected(Members(live), config, one), selected)
    ensures Lists(uncovered, UncoveredOf(Members(live), config, one), TextLess)
  {
    selected, uncovered := map[], [];
    for i := 0 to |live|
      invariant LeastPerCommand(Selected(Members(live[..i]), config, one), selected)
      invariant Lists(uncovered, UncoveredOf(Members(live[..i]), config, one), TextLess)
    {
      hide LeastPerCommand, Lists, Live, TextLess, CellSet, CoveringRows;
      var path := live[i];
      ghost var seen := Members(live[..i]);
      MembersNext(live, i);
      SelectedNext(seen, path, config, one);
      var rows := CoveringRows(config.cover, path, one);
      if rows == [] {
        assert forall y :: y in seen ==> TextLess(y, path);
        ListsNext(uncovered, UncoveredOf(seen, config, one), path);
        uncovered := uncovered + [path];
        NoRows(rows);
        assert Selected(seen, config, one) + CellSet(rows) == Selected(seen, config, one);
      } else {
        selected := AddPath(selected, rows, Selected(seen, config, one));
        assert UncoveredOf(seen, config, one) + {} == UncoveredOf(seen, config, one);
      }
    }
    MembersAll(live);
  }

  lemma NoRows(rows: seq<Row>)
    requires rows == []
    ensures CellSet(rows) == {}
  {
  }

  /** `make_plan` on a map that the registry accepts. */
  method MakePlan(paths: seq<string>, config: Config, one: OneMatch) returns (plan: Plan)
    requires Consistent(CellSet(config.cover))
    ensures IsPlan(plan, Members(paths), config, one)
  {
    hide *;
    TextsRank(Members(paths));
    var unique := Sorted(Members(paths), TextLess);
    ListsMembers(unique, Members(paths));
    var live, notLive, unclassified := Classify(unique, config, one);
    ListsMembers(live, LiveOf(Members(paths), config, one));
    LiveAreLive(Members(paths), live, config, one);
    OnlyLiveMatters(Members(paths), config, one);
    var selected, uncovered := Choose(live, config, one);
    ghost var chosen := Selected(Members(paths), config, one);
    FewerConsistent(chosen, CellSet(config.cover));
    LeastIsPicked(chosen, selected);
    CellsRank(chosen);
    FewerRank(Picked(chosen), chosen);
    var cells := Sorted(selected.Values, NameLess);
    plan := Plan(cells, uncovered, unclassified, notLive);
    PlanMade(plan, Members(paths), config, one);
  }

  lemma LiveAreLive(paths: set<string>, live: seq<string>, config: Config, one: OneMatch)
    requires Members(live) == LiveOf(paths, config, one)
    ensures forall p :: p in live ==> Live(p, config, one)
  {
    forall p | p in live ensures Live(p, config, one) {
      assert p in Members(live);
    }
  }

  lemma FewerRank(few: set<Cell>, all: set<Cell>)
    requires few == Picked(all) && Ranks(all, NameLess)
    ensures Ranks(few, NameLess)
  {
    hide NameLess;
    assert few <= all;
  }

  lemma PlanMade(plan: Plan, paths: set<string>, config: Config, one: OneMatch)
    requires Lists(plan.notLive, ExcludedOf(paths, config, one), TextLess)
    requires Lists(plan.unclassified, UnclassifiedOf(paths, config, one), TextLess)
    requires Lists(plan.uncovered, UncoveredOf(paths, config, one), TextLess)
    requires Lists(plan.cells, Picked(Selected(paths, config, one)), NameLess)
    ensures IsPlan(plan, paths, config, one)
  {
  }

  // ---------------------------------------------------------------------
  // What the plan says
  // ---------------------------------------------------------------------

  /** One of the globs matches the path. */
  ghost predicate Hit(path: string, globs: seq<string>, one: OneMatch) {
    exists g :: g in globs && Matches(path, g, one)
  }

  lemma HitIff(path: string, globs: seq<string>, one: OneMatch)
    ensures Hit(path, globs, one) <==> MatchesAny(path, globs, one)
  {
    hide Matches;
    if g :| g in globs && Matches(path, g, one) {
      var k :| 0 <= k < |globs| && globs[k] == g;
    }
  }

  /** A covering row has this cell, and the path is live: neither excluded nor outside. */
  ghost predicate Wanted(c: Cell, path: string, config: Config, one: OneMatch) {
    && (Hit(path, config.notLive, one) ==> Hit(path, config.exceptions, one)) && Hit(path, config.live, one)
    && exists row :: row in config.cover && Hit(path, row.globs, one) && c in row.cells
  }

  /** What stands in each list of a plan, in terms of the globs alone. */
  lemma PlanSays(plan: Plan, paths: set<string>, config: Config, one: OneMatch, p: string)
    requires IsPlan(plan, paths, config, one)
    ensures p in plan.notLive <==>
      p in paths && Hit(p, config.notLive, one) && !Hit(p, config.exceptions, one)
    ensures p in plan.unclassified <==>
      p in paths && (Hit(p, config.notLive, one) ==> Hit(p, config.exceptions, one)) && !Hit(p, config.live, one)
    ensures p in plan.uncovered <==>
      && p in paths && (Hit(p, config.notLive, one) ==> Hit(p, config.exceptions, one)) && Hit(p, config.live, one)
      && forall row :: row in config.cover ==> !Hit(p, row.globs, one)
  {
    HitIff(p, config.notLive, one);
    HitIff(p, config.exceptions, one);
    HitIff(p, config.live, one);
    forall row: Row ensures Hit(p, row.globs, one) == Covers(row, p, one) { HitIff(p, row.globs, one); }
    hide MatchesAny, Hit, Selected, Picked;
  }

  /** A cell is in the plan iff a path wants it and no path wants one of the same
      command with a name before its own. */
  lemma PlanCells(plan: Plan, paths: set<string>, config: Config, one: OneMatch, c: Cell)
    requires IsPlan(plan, paths, config, one)
    ensures c in plan.cells <==>
      && (exists p :: p in paths && Wanted(c, p, config, one))
      && forall p, d :: p in paths && Wanted(d, p, config, one) && d.command == c.command ==> !TextLess(d.name, c.name)
  {
    forall d, p ensures Wanted(d, p, config, one) <==>
      Live(p, config, one) && exists row :: row in config.cover && Covers(row, p, one) && d in row.cells
    {
      WantedIff(d, p, config, one);
    }
    hide Wanted, Live, Covers, TextLess;
    forall d ensures d in Selected(paths, config, one) <==> exists p :: p in paths && Wanted(d, p, config, one) {
    }
  }

  lemma WantedIff(c: Cell, path: string, config: Config, one: OneMatch)
    ensures Wanted(c, path, config, one) <==>
      Live(path, config, one) && exists row :: row in config.cover && Covers(row, path, one) && c in row.cells
  {
    HitIff(path, config.notLive, one);
    HitIff(path, config.exceptions, one);
    HitIff(path, config.live, one);
    forall row: Row ensures Hit(path, row.globs, one) == Covers(row, path, one) { HitIff(path, row.globs, one); }
    hide MatchesAny, Hit;
  }

  lemma {:induction false} LeastExists(cells: set<Cell>) returns (m: map<string, Cell>)
    ensures LeastPerCommand(cells, m)
    decreases |cells|
  {
    if cells == {} {
      m := map[];
    } else {
      var c :| c in cells;
      var rest := LeastExists(cells - {c});
      WithCellLeast(cells - {c}, rest, c);
      m := WithCell(rest, c);
      assert cells == (cells - {c}) + {c};
    }
  }

  /** The plan has the cell's command, under a name no later than the cell's. */
  predicate Planned(plan: Plan, c: Cell) {
    exists d :: d in plan.cells && d.command == c.command && !NameLess(c, d)
  }

  /** Every command of a covering row is in the plan, once, under its least name. */
  lemma OncePerCommand(plan: Plan, paths: set<string>, config: Config, one: OneMatch)
    requires Consistent(CellSet(config.cover)) && IsPlan(plan, paths, config, one)
    ensures forall c :: c in Selected(paths, config, one) ==> Planned(plan, c)
    ensures forall i, j :: 0 <= i < j < |plan.cells| ==> plan.cells[i].command != plan.cells[j].command
  {
    var chosen := Selected(paths, config, one);
    FewerConsistent(chosen, CellSet(config.cover));
    var m := LeastExists(chosen);
    LeastIsPicked(chosen, m);
    forall c | c in chosen ensures Planned(plan, c) {
      assert m[c.command] in m.Values;
      assert m[c.command] in plan.cells;
    }
    forall i, j | 0 <= i < j < |plan.cells| ensures plan.cells[i].command != plan.cells[j].command {
      assert plan.cells[i] in plan.cells && plan.cells[j] in plan.cells;
      assert NameLess(plan.cells[i], plan.cells[j]);
    }
  }

  lemma SameGlobs(path: string, a: seq<string>, b: seq<string>, one: OneMatch)
    requires forall g :: g in a <==> g in b
    ensures MatchesAny(path, a, one) == MatchesAny(path, b, one)
  {
    hide Matches;
    if k :| 0 <= k < |a| && Matches(path, a[k], one) { assert a[k] in b; }
    if k :| 0 <= k < |b| && Matches(path, b[k], one) { assert b[k] in a; }
  }

  /** The same map up to the order of its globs and rows. */
  ghost predicate SameMap(a: Config, b: Config) {
    && (forall g :: g in a.live <==> g in b.live)
    && (forall g :: g in a.notLive <==> g in b.notLive)
    && (forall g :: g in a.exceptions <==> g in b.exceptions)
    && (forall row :: row in a.cover <==> row in b.cover)
  }

  lemma SameClasses(paths: set<string>, a: Config, b: Config, one: OneMatch)
    requires SameMap(a, b)
    ensures ExcludedOf(paths, a, one) == ExcludedOf(paths, b, one)
    ensures UnclassifiedOf(paths, a, one) == UnclassifiedOf(paths, b, one)
    ensures UncoveredOf(paths, a, one) == UncoveredOf(paths, b, one)
    ensures Selected(paths, a, one) == Selected(paths, b, one)
  {
    hide MatchesAny;
    forall p ensures Excluded(p, a, one) == Excluded(p, b, one) && Live(p, a, one) == Live(p, b, one) {
      SameGlobs(p, a.live, b.live, one);
      SameGlobs(p, a.notLive, b.notLive, one);
      SameGlobs(p, a.exceptions, b.exceptions, one);
    }
  }

  /** The plan depends on the set of paths and the sets of globs and rows alone. */
  lemma PlanIsCanonical(p: Plan, q: Plan, paths: set<string>, a: Config, b: Config, one: OneMatch)
    requires Consistent(CellSet(a.cover)) && SameMap(a, b)
    requires IsPlan(p, paths, a, one) && IsPlan(q, paths, b, one)
    ensures p == q
  {
    hide Consistent, Lists, Ranks, Picked, SameMap, CellSet;
    SameClasses(paths, a, b, one);
    TextsRank(ExcludedOf(paths, a, one));
    TextsRank(UnclassifiedOf(paths, a, one));
    TextsRank(UncoveredOf(paths, a, one));
    var chosen := Selected(paths, a, one);
    FewerConsistent(chosen, CellSet(a.cover));
    CellsRank(chosen);
    FewerRank(Picked(chosen), chosen);
    ListsOnce(p.notLive, q.notLive, ExcludedOf(paths, a, one), TextLess);
    ListsOnce(p.unclassified, q.unclassified, UnclassifiedOf(paths, a, one), TextLess);
    ListsOnce(p.uncovered, q.uncovered, UncoveredOf(paths, a, one), TextLess);
    ListsOnce(p.cells, q.cells, Picked(chosen), NameLess);
  }

  /** Every path stands in one list at most, nothing else does, and a path in
      none of them is live and has every command of its rows in the plan. */
  lemma EveryPathPlaced(plan: Plan, paths: set<string>, config: Config, one: OneMatch, path: string)
    requires Consistent(CellSet(config.cover)) && IsPlan(plan, paths, config, one)
    ensures !(path in plan.notLive && path in plan.unclassified)
    ensures !(path in plan.notLive && path in plan.uncovered)
    ensures !(path in plan.unclassified && path in plan.uncovered)
    ensures path in plan.notLive + plan.unclassified + plan.uncovered ==> path in paths
    ensures path in paths && path !in plan.notLive + plan.unclassified + plan.uncovered ==>
      && Live(path, config, one) && Covered(path, config, one)
      && forall row, c :: row in config.cover && Covers(row, path, one) && c in row.cells ==>
           Planned(plan, c)
  {
    OncePerCommand(plan, paths, config, one);
    hide MatchesAny, Consistent, Picked;
    if path in paths && path !in plan.notLive + plan.unclassified + plan.uncovered {
      forall row, c | row in config.cover && Covers(row, path, one) && c in row.cells
        ensures Planned(plan, c)
      {
        assert c in Selected(paths, config, one);
      }
    }
  }
}

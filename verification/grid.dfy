/** The grid's state and its primitive operations: bounds-checked lookup,
    the notifying setters seen from the grid (each change appends the cell
    to the insertion-ordered dirty set and raises `updated`), the typed
    setter over the ten writable fields, the column-major cell order,
    construction, and the count of true flags that every narrowing lowers. */
module Grids {
  import opened Base
  import opened Config
  import opened Cells

  datatype Pos = Pos(x: int, y: int)

  /** `grid[x][y]` holds the cell at column `x`, row `y`. `dirty` is the
      `updatedCells` set in insertion order; `conflicts` is
      `cellsThatCausedBacktracking`, keyed by position. */
  datatype Grid = Grid(
    settings: Settings,
    cols: seq<seq<Cell>>,
    dirty: seq<Pos>,
    conflicts: map<Pos, nat>,
    updated: bool)

  predicate InGrid(g: Grid, x: int, y: int) {
    0 <= x < g.settings.width && 0 <= y < g.settings.height
  }

  predicate Shaped(g: Grid) {
    && |g.cols| == g.settings.width
    && forall x :: 0 <= x < |g.cols| ==> |g.cols[x]| == g.settings.height
  }

  predicate Distinct(d: seq<Pos>) {
    forall i, j :: 0 <= i < j < |d| ==> d[i] != d[j]
  }

  predicate DirtyInGrid(g: Grid) {
    forall i :: 0 <= i < |g.dirty| ==> InGrid(g, g.dirty[i].x, g.dirty[i].y)
  }

  ghost predicate WellFormed(g: Grid) {
    && Valid(g.settings)
    && Shaped(g)
    && (forall x, y :: InGrid(g, x, y) ==> g.cols[x][y].x == x && g.cols[x][y].y == y)
    && DirtyInGrid(g)
    && Distinct(g.dirty)
  }

  function At(g: Grid, x: int, y: int): Cell
    requires Shaped(g) && InGrid(g, x, y)
  {
    g.cols[x][y]
  }

  /** `cell(x, y)`: the cell, or `null` outside the grid. */
  function Lookup(g: Grid, x: int, y: int): (r: Option<Cell>)
    requires Shaped(g)
    ensures r.Some? <==> InGrid(g, x, y)
    ensures r.Some? ==> r.value == At(g, x, y)
  {
    if 0 <= x && 0 <= y && x < g.settings.width && y < g.settings.height
    then Some(g.cols[x][y]) else None
  }

  /** A flag of the cell at `(x, y)`, false when there is no cell there. */
  function FlagAt(g: Grid, x: int, y: int, n: FlagName): bool
    requires Shaped(g)
  {
    match Lookup(g, x, y)
    case Some(c) => Flag(c.flags, n)
    case None => false
  }

  /** `Set.add`: an element already present keeps its place. */
  function AddDirty(d: seq<Pos>, p: Pos): (r: seq<Pos>)
    ensures p in r
    ensures forall q :: q in r <==> q in d || q == p
    ensures Distinct(d) ==> Distinct(r)
    ensures |r| <= |d| + 1
    ensures p in d ==> r == d
  {
    if p in d then d else d + [p]
  }

  /** The grid's `onUpdated` callback: queue the cell once and raise
      `updated`. */
  function Notify(g: Grid, p: Pos): (r: Grid)
    ensures r.updated && p in r.dirty
    ensures forall q :: q in r.dirty <==> q in g.dirty || q == p
    ensures Distinct(g.dirty) ==> Distinct(r.dirty)
    ensures r.settings == g.settings && r.cols == g.cols && r.conflicts == g.conflicts
  {
    g.(dirty := AddDirty(g.dirty, p), updated := true)
  }

  function Put(g: Grid, x: int, y: int, c: Cell): (r: Grid)
    requires Shaped(g) && InGrid(g, x, y)
    ensures Shaped(r) && r.settings == g.settings && r.dirty == g.dirty
    ensures r.conflicts == g.conflicts && r.updated == g.updated
    ensures At(r, x, y) == c
    ensures forall i, j :: InGrid(g, i, j) && (i != x || j != y) ==> At(r, i, j) == At(g, i, j)
  {
    g.(cols := g.cols[x := g.cols[x][y := c]])
  }

  /** `setCellProp(x, y, flag, v)`, and equally `cell.flag = v` on a cell of
      the grid: out of bounds nothing happens; otherwise the guarded setter
      runs and, when the value changes, the cell is notified. */
  function SetFlagAt(g: Grid, x: int, y: int, n: FlagName, v: bool): (r: Grid)
    requires Shaped(g)
    ensures Shaped(r) && r.settings == g.settings && r.conflicts == g.conflicts
    ensures !InGrid(g, x, y) ==> r == g
    ensures InGrid(g, x, y) ==> At(r, x, y) == SetFlag(At(g, x, y), n, v).cell
    ensures InGrid(g, x, y) && Flag(At(g, x, y).flags, n) == v ==> r == g
    ensures InGrid(g, x, y) && Flag(At(g, x, y).flags, n) != v ==>
      r.dirty == AddDirty(g.dirty, Pos(x, y)) && r.updated
    ensures forall i, j :: InGrid(g, i, j) && (i != x || j != y) ==> At(r, i, j) == At(g, i, j)
  {
    if !InGrid(g, x, y) then g
    else
      var w := SetFlag(At(g, x, y), n, v);
      if w.notified then Notify(Put(g, x, y, w.cell), Pos(x, y)) else g
  }

  /** The measurement pass's writes, guarded the same way. */
  function SetMeasureAt(g: Grid, x: int, y: int, n: MeasureName, v: ExtNat): (r: Grid)
    requires Shaped(g)
    ensures Shaped(r) && r.settings == g.settings && r.conflicts == g.conflicts
    ensures !InGrid(g, x, y) ==> r == g
    ensures InGrid(g, x, y) ==> At(r, x, y) == SetMeasure(At(g, x, y), n, v).cell
    ensures InGrid(g, x, y) && Measure(At(g, x, y).meas, n) == v ==> r == g
    ensures InGrid(g, x, y) && Measure(At(g, x, y).meas, n) != v ==>
      r.dirty == AddDirty(g.dirty, Pos(x, y)) && r.updated
    ensures forall i, j :: InGrid(g, i, j) && (i != x || j != y) ==> At(r, i, j) == At(g, i, j)
  {
    if !InGrid(g, x, y) then g
    else
      var w := SetMeasure(At(g, x, y), n, v);
      if w.notified then Notify(Put(g, x, y, w.cell), Pos(x, y)) else g
  }

  /** The two measured fields `setCellProp` accepts. */
  datatype SettableRun = RightDownRun | BottomAcrossRun

  function RunField(r: SettableRun): MeasureName {
    match r
    case RightDownRun => LettersRightDown
    case BottomAcrossRun => LettersBottomAcross
  }

  /** The ten writable fields of `setCellProp`, each with a value of the
      type its field takes. */
  datatype Prop = FlagProp(flag: FlagName, b: bool) | RunProp(run: SettableRun, v: ExtNat)

  /** `setCellProp(x, y, prop, value)`. */
  function SetCellProp(g: Grid, x: int, y: int, p: Prop): (r: Grid)
    requires WellFormed(g)
    ensures WellFormed(r) && r.settings == g.settings && r.conflicts == g.conflicts
    ensures !InGrid(g, x, y) ==> r == g
    ensures InGrid(g, x, y) && p.FlagProp? ==>
      && Flag(At(r, x, y).flags, p.flag) == p.b
      && (forall m :: m != p.flag ==> Flag(At(r, x, y).flags, m) == Flag(At(g, x, y).flags, m))
      && At(r, x, y).meas == At(g, x, y).meas
    ensures InGrid(g, x, y) && p.RunProp? ==>
      && Measure(At(r, x, y).meas, RunField(p.run)) == p.v
      && (forall m :: m != RunField(p.run) ==> Measure(At(r, x, y).meas, m) == Measure(At(g, x, y).meas, m))
      && At(r, x, y).flags == At(g, x, y).flags
    ensures InGrid(g, x, y) ==> At(r, x, y).x == x && At(r, x, y).y == y
    ensures forall i, j :: InGrid(g, i, j) && (i != x || j != y) ==> At(r, i, j) == At(g, i, j)
    ensures r != g ==> r.updated && r.dirty == AddDirty(g.dirty, Pos(x, y))
    ensures r == g <==> !InGrid(g, x, y) || CurrentValue(At(g, x, y), p)
  {
    match p
    case FlagProp(n, b) => SetFlagAt(g, x, y, n, b)
    case RunProp(run, v) => SetMeasureAt(g, x, y, RunField(run), v)
  }

  /** Whether the cell already holds the value `p` would write. */
  predicate CurrentValue(c: Cell, p: Prop) {
    match p
    case FlagProp(n, b) => Flag(c.flags, n) == b
    case RunProp(run, v) => Measure(c.meas, RunField(run)) == v
  }

  // Counting true flags.

  function ColumnCount(col: seq<Cell>): nat {
    if col == [] then 0 else ColumnCount(col[..|col| - 1]) + TrueFlags(col[|col| - 1].flags)
  }

  function GridCount(cols: seq<seq<Cell>>): nat {
    if cols == [] then 0 else GridCount(cols[..|cols| - 1]) + ColumnCount(cols[|cols| - 1])
  }

  /** Total number of true flags on the grid. */
  function TrueCount(g: Grid): nat {
    GridCount(g.cols)
  }

  lemma {:induction false} ColumnCountUpdate(col: seq<Cell>, y: nat, c: Cell)
    requires y < |col|
    ensures ColumnCount(col[y := c]) + TrueFlags(col[y].flags) == ColumnCount(col) + TrueFlags(c.flags)
    decreases |col|
  {
    var n := |col|;
    var col' := col[y := c];
    if y == n - 1 {
      assert col'[..n - 1] == col[..n - 1];
    } else {
      assert col'[..n - 1] == col[..n - 1][y := c];
      ColumnCountUpdate(col[..n - 1], y, c);
    }
  }

  lemma {:induction false} GridCountUpdate(cols: seq<seq<Cell>>, x: nat, col: seq<Cell>)
    requires x < |cols|
    ensures GridCount(cols[x := col]) + ColumnCount(cols[x]) == GridCount(cols) + ColumnCount(col)
    decreases |cols|
  {
    var n := |cols|;
    var cols' := cols[x := col];
    if x == n - 1 {
      assert cols'[..n - 1] == cols[..n - 1];
    } else {
      assert cols'[..n - 1] == cols[..n - 1][x := col];
      GridCountUpdate(cols[..n - 1], x, col);
    }
  }

  /** Replacing one cell changes the count by the difference of the two
      cells' counts. */
  lemma PutCount(g: Grid, x: int, y: int, c: Cell)
    requires Shaped(g) && InGrid(g, x, y)
    ensures TrueCount(Put(g, x, y, c)) + TrueFlags(At(g, x, y).flags) == TrueCount(g) + TrueFlags(c.flags)
  {
    ColumnCountUpdate(g.cols[x], y, c);
    GridCountUpdate(g.cols, x, g.cols[x][y := c]);
  }

  lemma {:induction false} ColumnCountLe(a: seq<Cell>, b: seq<Cell>)
    requires |a| == |b|
    requires forall i :: 0 <= i < |a| ==> FlagsLe(a[i].flags, b[i].flags)
    ensures ColumnCount(a) <= ColumnCount(b)
    decreases |a|
  {
    if a != [] {
      var n := |a|;
      ColumnCountLe(a[..n - 1], b[..n - 1]);
      TrueFlagsLe(a[n - 1].flags, b[n - 1].flags);
    }
  }

  lemma {:induction false} GridCountLe(a: seq<seq<Cell>>, b: seq<seq<Cell>>)
    requires |a| == |b|
    requires forall i :: 0 <= i < |a| ==> |a[i]| == |b[i]|
    requires forall i, j :: 0 <= i < |a| && 0 <= j < |a[i]| ==> FlagsLe(a[i][j].flags, b[i][j].flags)
    ensures GridCount(a) <= GridCount(b)
    decreases |a|
  {
    if a != [] {
      var n := |a|;
      GridCountLe(a[..n - 1], b[..n - 1]);
      ColumnCountLe(a[n - 1], b[n - 1]);
    }
  }

  /** Every flag of `r` that is set is set in `g` too, on a grid of the
      same shape and settings. */
  ghost predicate FlagsBelow(r: Grid, g: Grid) {
    && r.settings == g.settings && Shaped(r) && Shaped(g)
    && forall x, y :: InGrid(g, x, y) ==> FlagsLe(At(r, x, y).flags, At(g, x, y).flags)
  }

  lemma FlagsBelowCount(r: Grid, g: Grid)
    requires FlagsBelow(r, g)
    ensures TrueCount(r) <= TrueCount(g)
  {
    forall i, j | 0 <= i < |r.cols| && 0 <= j < |r.cols[i]|
      ensures FlagsLe(r.cols[i][j].flags, g.cols[i][j].flags)
    {
      assert InGrid(g, i, j);
    }
    GridCountLe(r.cols, g.cols);
  }

  /** Only the cells matter to `FlagsBelow`. */
  lemma FlagsBelowSameCells(r: Grid, m: Grid, g: Grid)
    requires r.cols == m.cols && r.settings == m.settings && FlagsBelow(m, g)
    ensures FlagsBelow(r, g)
  {
    forall x, y | InGrid(g, x, y)
      ensures FlagsLe(At(r, x, y).flags, At(g, x, y).flags)
    {
      assert At(r, x, y) == At(m, x, y);
    }
  }

  lemma FlagsBelowTrans(a: Grid, b: Grid, c: Grid)
    requires FlagsBelow(a, b) && FlagsBelow(b, c)
    ensures FlagsBelow(a, c)
  {
    forall x, y | InGrid(c, x, y)
      ensures FlagsLe(At(a, x, y).flags, At(c, x, y).flags)
    {
      assert FlagsLe(At(a, x, y).flags, At(b, x, y).flags);
      assert FlagsLe(At(b, x, y).flags, At(c, x, y).flags);
    }
  }

  /** A step of narrowing: it only clears flags (never sets one, never
      touches a measured value, the conflict counts or the shape), and
      either changes nothing at all or lowers the count of true flags and
      raises `updated`. */
  ghost predicate Narrows(g: Grid, r: Grid) {
    && WellFormed(g) && WellFormed(r)
    && r.settings == g.settings && r.conflicts == g.conflicts
    && FlagsBelow(r, g)
    && (forall x, y :: InGrid(g, x, y) ==> At(r, x, y).meas == At(g, x, y).meas)
    && (r == g || (TrueCount(r) < TrueCount(g) && r.updated))
  }

  lemma NarrowsTrans(a: Grid, b: Grid, c: Grid)
    requires Narrows(a, b) && Narrows(b, c)
    ensures Narrows(a, c)
  {
    FlagsBelowTrans(c, b, a);
  }

  /** Lowering one flag of the cell at `(x, y)` through its setter: the only
      kind of write a rule makes. */
  function Clear(g: Grid, x: int, y: int, n: FlagName): (r: Grid)
    requires WellFormed(g)
    ensures Narrows(g, r)
    ensures !InGrid(g, x, y) ==> r == g
    ensures InGrid(g, x, y) ==> At(r, x, y) == SetFlag(At(g, x, y), n, false).cell
    ensures InGrid(g, x, y) && Flag(At(g, x, y).flags, n) ==> r.dirty == AddDirty(g.dirty, Pos(x, y))
    ensures forall i, j :: InGrid(g, i, j) && (i != x || j != y) ==> At(r, i, j) == At(g, i, j)
  {
    ClearNarrows(g, x, y, n);
    SetFlagAt(g, x, y, n, false)
  }

  lemma ClearNarrows(g: Grid, x: int, y: int, n: FlagName)
    requires WellFormed(g)
    ensures Narrows(g, SetFlagAt(g, x, y, n, false))
  {
    var r := SetFlagAt(g, x, y, n, false);
    if r != g {
      PutCount(g, x, y, At(r, x, y));
      TrueFlagsClear(At(g, x, y).flags, n);
    }
  }

  // The cells in `cells` order: column by column, top to bottom.

  function Flatten(cols: seq<seq<Cell>>): seq<Cell> {
    if cols == [] then [] else Flatten(cols[..|cols| - 1]) + cols[|cols| - 1]
  }

  /** `grid.cells`. */
  function CellsOf(g: Grid): seq<Cell> {
    Flatten(g.cols)
  }

  lemma {:induction false} FlattenMembers(cols: seq<seq<Cell>>, c: Cell)
    ensures c in Flatten(cols) <==>
      exists x, y :: 0 <= x < |cols| && 0 <= y < |cols[x]| && cols[x][y] == c
  {
    if cols != [] {
      var n := |cols| - 1;
      FlattenMembers(cols[..n], c);
      if c in cols[n] {
        var y :| 0 <= y < |cols[n]| && cols[n][y] == c;
        assert cols[n][y] == c;
      }
      if exists x, y :: 0 <= x < |cols| && 0 <= y < |cols[x]| && cols[x][y] == c {
        var x, y :| 0 <= x < |cols| && 0 <= y < |cols[x]| && cols[x][y] == c;
        if x < n {
          assert cols[..n][x][y] == c;
        }
      }
    }
  }

  /** `grid.cells` lists exactly the cells of the grid. */
  lemma CellsOfGrid(g: Grid, c: Cell)
    requires Shaped(g)
    ensures c in CellsOf(g) <==> exists x, y :: InGrid(g, x, y) && At(g, x, y) == c
  {
    FlattenMembers(g.cols, c);
    if c in CellsOf(g) {
      var x, y :| 0 <= x < |g.cols| && 0 <= y < |g.cols[x]| && g.cols[x][y] == c;
      assert InGrid(g, x, y) && At(g, x, y) == c;
    }
  }

  /** The flags a cell at `(x, y)` has once the first `row` cells of the
      first row have lost their right-across arrow and the first `col` cells
      of the first column their bottom-down arrow. */
  predicate BuiltFlags(c: Cell, x: int, y: int, row: int, col: int)
    requires x >= 0 && y >= 0
  {
    forall n :: Flag(c.flags, n) <==>
      && Flag(NewCell(x, y).flags, n)
      && !(n == RightAcross && y == 0 && x < row)
      && !(n == BottomDown && x == 0 && y < col)
  }

  ghost predicate Building(g: Grid, s: Settings, row: int, col: int) {
    && WellFormed(g) && g.settings == s && g.conflicts == map[]
    && (forall i, j :: InGrid(g, i, j) ==> At(g, i, j).meas == InitialMeasures)
    && (forall i, j :: InGrid(g, i, j) ==> BuiltFlags(At(g, i, j), i, j, row, col))
  }

  function FreshCells(s: Settings): (cols: seq<seq<Cell>>)
    requires Valid(s)
    ensures Building(Grid(s, cols, [], map[], false), s, 0, 0)
  {
    var cols := seq(s.width, x requires 0 <= x < s.width =>
      seq(s.height, y requires 0 <= y < s.height => NewCell(x, y)));
    assert forall i, j :: 0 <= i < s.width && 0 <= j < s.height ==> cols[i][j] == NewCell(i, j);
    cols
  }

  /** Clearing the right-across arrow of the next first-row cell. */
  lemma RowStep(g: Grid, x: int)
    requires Building(g, g.settings, x, 0) && 0 <= x < g.settings.width
    ensures var r := SetFlagAt(g, x, 0, RightAcross, false);
      Building(r, g.settings, x + 1, 0) && r.updated
  {
    var r := SetFlagAt(g, x, 0, RightAcross, false);
    assert BuiltFlags(At(g, x, 0), x, 0, x, 0);
    assert Flag(NewCell(x, 0).flags, RightAcross);
    forall i, j | InGrid(r, i, j)
      ensures At(r, i, j).meas == InitialMeasures && BuiltFlags(At(r, i, j), i, j, x + 1, 0)
    {
      assert BuiltFlags(At(g, i, j), i, j, x, 0);
      if i != x || j != 0 {
        assert At(r, i, j) == At(g, i, j);
      }
    }
    assert forall k :: 0 <= k < |r.dirty| ==> r.dirty[k] in r.dirty;
  }

  /** Clearing the bottom-down arrow of the next first-column cell. */
  lemma ColumnStep(g: Grid, y: int)
    requires Building(g, g.settings, g.settings.width, y) && 0 <= y < g.settings.height
    ensures var r := SetFlagAt(g, 0, y, BottomDown, false);
      Building(r, g.settings, g.settings.width, y + 1)
  {
    var r := SetFlagAt(g, 0, y, BottomDown, false);
    forall i, j | InGrid(r, i, j)
      ensures At(r, i, j).meas == InitialMeasures && BuiltFlags(At(r, i, j), i, j, g.settings.width, y + 1)
    {
      assert BuiltFlags(At(g, i, j), i, j, g.settings.width, y);
      if i != 0 || j != y {
        assert At(r, i, j) == At(g, i, j);
      }
    }
    assert forall k :: 0 <= k < |r.dirty| ==> r.dirty[k] in r.dirty;
  }

  method ClearFirstRow(g0: Grid) returns (g: Grid)
    requires Building(g0, g0.settings, 0, 0) && !g0.updated
    ensures Building(g, g0.settings, g0.settings.width, 0) && g.updated
  {
    g := g0;
    var x := 0;
    while x < g.settings.width
      invariant 0 <= x <= g.settings.width
      invariant Building(g, g0.settings, x, 0)
      invariant g.updated <==> x > 0
    {
      RowStep(g, x);
      g := SetFlagAt(g, x, 0, RightAcross, false);
      x := x + 1;
    }
  }

  method ClearFirstColumn(g0: Grid) returns (g: Grid)
    requires Building(g0, g0.settings, g0.settings.width, 0) && g0.updated
    ensures Building(g, g0.settings, g0.settings.width, g0.settings.height) && g.updated
  {
    g := g0;
    var y := 0;
    while y < g.settings.height
      invariant 0 <= y <= g.settings.height
      invariant Building(g, g0.settings, g0.settings.width, y)
      invariant g.updated
    {
      ColumnStep(g, y);
      g := SetFlagAt(g, 0, y, BottomDown, false);
      y := y + 1;
    }
  }

  /** `new Grid(settings, render)`: one fresh cell per position; unless words
      may run along the first row and column, every first-row cell loses its
      right-across arrow and every first-column cell its bottom-down arrow;
      the notifications those writes cause are then discarded from the dirty
      set (but `updated` stays raised). */
  method NewGrid(s: Settings) returns (g: Grid)
    requires Valid(s)
    ensures WellFormed(g) && g.settings == s
    ensures g.dirty == [] && g.conflicts == map[]
    ensures g.updated <==> !s.allowWordsAlongFirstRowColumn
    ensures forall x, y :: InGrid(g, x, y) ==> At(g, x, y).meas == InitialMeasures
    ensures forall x, y, n :: InGrid(g, x, y) ==>
      (Flag(At(g, x, y).flags, n) <==>
        && Flag(NewCell(x, y).flags, n)
        && !(n == RightAcross && y == 0 && !s.allowWordsAlongFirstRowColumn)
        && !(n == BottomDown && x == 0 && !s.allowWordsAlongFirstRowColumn))
  {
    g := Grid(s, FreshCells(s), [], map[], false);
    if !s.allowWordsAlongFirstRowColumn {
      g := ClearFirstRow(g);
      g := ClearFirstColumn(g);
      var built := g;
      g := g.(dirty := []);
      forall i, j | InGrid(g, i, j)
        ensures At(g, i, j).meas == InitialMeasures && BuiltFlags(At(g, i, j), i, j, s.width, s.height)
      {
        assert At(g, i, j) == At(built, i, j);
      }
    }
    forall x, y, n | InGrid(g, x, y)
      ensures Flag(At(g, x, y).flags, n) <==>
        && Flag(NewCell(x, y).flags, n)
        && !(n == RightAcross && y == 0 && !s.allowWordsAlongFirstRowColumn)
        && !(n == BottomDown && x == 0 && !s.allowWordsAlongFirstRowColumn)
    {
      assert BuiltFlags(At(g, x, y), x, y,
        if s.allowWordsAlongFirstRowColumn then 0 else s.width,
        if s.allowWordsAlongFirstRowColumn then 0 else s.height);
    }
  }
}

/** The measurement pass: four sweeps over the grid that write the twelve
    measured values of every cell from the cells' flags alone. The pass is
    modelled as the list of writes it makes, in the order it makes them,
    each through the notifying setter; the value of each write is given by
    the line scans. */
module Measuring {
  import opened Base
  import opened Config
  import opened Cells
  import opened Grids
  import opened Scans

  /** The flags of every cell, indexed like the grid: all the pass reads. */
  type Layout = seq<seq<Flags>>

  predicate Fits(s: Settings, L: Layout) {
    |L| == s.width && forall x :: 0 <= x < |L| ==> |L[x]| == s.height
  }

  function LayoutOf(g: Grid): (L: Layout)
    requires Shaped(g)
    ensures Fits(g.settings, L)
    ensures forall x, y :: InGrid(g, x, y) ==> L[x][y] == At(g, x, y).flags
  {
    seq(|g.cols|, x requires 0 <= x < |g.cols| =>
      seq(|g.cols[x]|, y requires 0 <= y < |g.cols[x]| => g.cols[x][y].flags))
  }

  /** Two grids with the same flags everywhere have the same layout. */
  lemma SameLayout(g: Grid, h: Grid)
    requires Shaped(g) && Shaped(h) && g.settings == h.settings
    requires forall x, y :: InGrid(g, x, y) ==> At(g, x, y).flags == At(h, x, y).flags
    ensures LayoutOf(g) == LayoutOf(h)
  {
    var a, b := LayoutOf(g), LayoutOf(h);
    forall x | 0 <= x < |a|
      ensures a[x] == b[x]
    {
      assert forall y :: 0 <= y < |a[x]| ==> InGrid(g, x, y);
    }
  }

  /** A flag of the cell at `(x, y)` read from the layout, false outside the
      grid. */
  function FlagIn(s: Settings, L: Layout, x: int, y: int, n: FlagName): bool
    requires Fits(s, L)
  {
    if 0 <= x < s.width && 0 <= y < s.height then Flag(L[x][y], n) else false
  }

  /** Column `x` as the top sweep reads it. */
  function TopLine(s: Settings, L: Layout, x: int): (line: seq<Slot>)
    requires Valid(s) && Fits(s, L) && 0 <= x < s.width
    ensures |line| == s.height
  {
    seq(s.height, y requires 0 <= y < s.height =>
      Slot(L[x][y].isLetter, L[x][y].isBlock,
           FlagIn(s, L, x - 1, y, RightDown), FlagIn(s, L, x, y - 1, BottomDown),
           L[x][y].bottomDown))
  }

  /** Row `y` as the left sweep reads it. */
  function LeftLine(s: Settings, L: Layout, y: int): (line: seq<Slot>)
    requires Valid(s) && Fits(s, L) && 0 <= y < s.height
    ensures |line| == s.width
  {
    seq(s.width, x requires 0 <= x < s.width =>
      Slot(L[x][y].isLetter, L[x][y].isBlock,
           FlagIn(s, L, x, y - 1, BottomAcross), FlagIn(s, L, x - 1, y, RightAcross),
           L[x][y].rightAcross))
  }

  /** Which cells of column `x` are letters. */
  function Column(s: Settings, L: Layout, x: int): (bs: seq<bool>)
    requires Valid(s) && Fits(s, L) && 0 <= x < s.width
    ensures |bs| == s.height
  {
    seq(s.height, y requires 0 <= y < s.height => L[x][y].isLetter)
  }

  /** Which cells of row `y` are letters. */
  function Row(s: Settings, L: Layout, y: int): (bs: seq<bool>)
    requires Valid(s) && Fits(s, L) && 0 <= y < s.height
    ensures |bs| == s.width
  {
    seq(s.width, x requires 0 <= x < s.width => L[x][y].isLetter)
  }

  /** Which cells of column `x` are letters that cannot be blocks. */
  function FixedColumn(s: Settings, L: Layout, x: int): (bs: seq<bool>)
    requires Valid(s) && Fits(s, L) && 0 <= x < s.width
    ensures |bs| == s.height
  {
    seq(s.height, y requires 0 <= y < s.height => L[x][y].isLetter && !L[x][y].isBlock)
  }

  /** Which cells of row `y` are letters that cannot be blocks. */
  function FixedRow(s: Settings, L: Layout, y: int): (bs: seq<bool>)
    requires Valid(s) && Fits(s, L) && 0 <= y < s.height
    ensures |bs| == s.width
  {
    seq(s.width, x requires 0 <= x < s.width => L[x][y].isLetter && !L[x][y].isBlock)
  }

  lemma LinesCoherent(s: Settings, L: Layout, x: int, y: int)
    requires Valid(s) && Fits(s, L) && 0 <= x < s.width && 0 <= y < s.height
    ensures Coherent(TopLine(s, L, x)) && Coherent(LeftLine(s, L, y))
    ensures Letters(TopLine(s, L, x)) == Column(s, L, x)
    ensures FixedLetters(TopLine(s, L, x)) == FixedColumn(s, L, x)
    ensures Letters(LeftLine(s, L, y)) == Row(s, L, y)
    ensures FixedLetters(LeftLine(s, L, y)) == FixedRow(s, L, y)
  {
  }

  /** One write of the pass: the cell at `(x, y)` (possibly outside the
      grid, where the bounds-checked setter does nothing) and the field. */
  datatype Key = Key(x: int, y: int, m: MeasureName)

  /** The value the pass writes for a key, read from the layout. */
  function Expected(s: Settings, L: Layout, k: Key): ExtNat
    requires Valid(s) && Fits(s, L)
  {
    if !(0 <= k.x < s.width && 0 <= k.y < s.height) then Fin(0)
    else
      var w := WindowWidth(s);
      match k.m
      case ClosestTop => Emitted(TopLine(s, L, k.x), w, k.y).closest
      case DefsTop => Fin(Emitted(TopLine(s, L, k.x), w, k.y).defs)
      case LettersTop => Fin(Emitted(TopLine(s, L, k.x), w, k.y).run)
      case FixedTop => Fin(Emitted(TopLine(s, L, k.x), w, k.y).fixed)
      case ClosestLeft => Emitted(LeftLine(s, L, k.y), w, k.x).closest
      case DefsLeft => Fin(Emitted(LeftLine(s, L, k.y), w, k.x).defs)
      case LettersLeft => Fin(Emitted(LeftLine(s, L, k.y), w, k.x).run)
      case FixedLeft => Fin(Emitted(LeftLine(s, L, k.y), w, k.x).fixed)
      case LettersBottom => Fin(RunFrom(Column(s, L, k.x), k.y + 1))
      case LettersRight => Fin(RunFrom(Row(s, L, k.y), k.x + 1))
      case LettersRightDown =>
        if k.x + 1 < s.width then Fin(RunFrom(Column(s, L, k.x + 1), k.y)) else Fin(0)
      case LettersBottomAcross =>
        if k.y + 1 < s.height then Fin(RunFrom(Row(s, L, k.y + 1), k.x)) else Fin(0)
  }

  // The writes of the four sweeps, in the order the pass makes them.

  predicate IsTop(m: MeasureName) {
    m == ClosestTop || m == DefsTop || m == LettersTop || m == FixedTop
  }

  predicate IsLeft(m: MeasureName) {
    m == ClosestLeft || m == DefsLeft || m == LettersLeft || m == FixedLeft
  }

  function TopColumn(x: int, y: int, h: int): seq<Key>
    decreases h - y
  {
    if y >= h then []
    else
      var here := [Key(x, y, ClosestTop), Key(x, y, DefsTop), Key(x, y, LettersTop), Key(x, y, FixedTop)];
      here + TopColumn(x, y + 1, h)
  }

  function TopSweep(x: int, w: int, h: int): seq<Key>
    decreases w - x
  {
    if x >= w then [] else TopColumn(x, 0, h) + TopSweep(x + 1, w, h)
  }

  /** The bottom sweep of column `x` from row `y` up to row -1: each step
      first writes the right-down run of the cell to the left of the cell
      below, then the bottom run of the cell. */
  function BottomColumn(x: int, y: int): seq<Key>
    requires y >= -1
    decreases y + 1
  {
    [Key(x - 1, y + 1, LettersRightDown)]
      + (if y >= 0 then [Key(x, y, LettersBottom)] + BottomColumn(x, y - 1) else [])
  }

  function BottomSweep(x: int, w: int, h: int): seq<Key>
    requires h >= 0
    decreases w - x
  {
    if x >= w then [] else BottomColumn(x, h - 1) + BottomSweep(x + 1, w, h)
  }

  function LeftRow(y: int, x: int, w: int): seq<Key>
    decreases w - x
  {
    if x >= w then []
    else
      var here := [Key(x, y, ClosestLeft), Key(x, y, DefsLeft), Key(x, y, LettersLeft), Key(x, y, FixedLeft)];
      here + LeftRow(y, x + 1, w)
  }

  function LeftSweep(y: int, w: int, h: int): seq<Key>
    decreases h - y
  {
    if y >= h then [] else LeftRow(y, 0, w) + LeftSweep(y + 1, w, h)
  }

  /** The right sweep of row `y` from column `x` back to column -1: each
      step first writes the bottom-across run of the cell above the cell to
      the right, then the right run of the cell. */
  function RightRow(y: int, x: int): seq<Key>
    requires x >= -1
    decreases x + 1
  {
    [Key(x + 1, y - 1, LettersBottomAcross)]
      + (if x >= 0 then [Key(x, y, LettersRight)] + RightRow(y, x - 1) else [])
  }

  function RightSweep(y: int, w: int, h: int): seq<Key>
    requires w >= 0
    decreases h - y
  {
    if y >= h then [] else RightRow(y, w - 1) + RightSweep(y + 1, w, h)
  }

  function Schedule(s: Settings): seq<Key>
    requires Valid(s)
  {
    TopSweep(0, s.width, s.height) + BottomSweep(0, s.width, s.height)
      + LeftSweep(0, s.width, s.height) + RightSweep(0, s.width, s.height)
  }

  /** The fields the pass writes for the cell at `(x, y)`: all twelve,
      except the right-down run of the last column and the bottom-across
      run of the last row. */
  predicate Covered(s: Settings, x: int, y: int, m: MeasureName) {
    && !(m == LettersRightDown && x == s.width - 1)
    && !(m == LettersBottomAcross && y == s.height - 1)
  }

  lemma InCons<T>(a: T, s: seq<T>, k: T)
    ensures k in [a] + s <==> k == a || k in s
  {
  }

  lemma {:induction false} TopColumnKeys(x: int, y: int, h: int, k: Key)
    ensures k in TopColumn(x, y, h) <==> k.x == x && y <= k.y < h && IsTop(k.m)
    decreases h - y
  {
    if y < h {
      TopColumnKeys(x, y + 1, h, k);
    }
  }

  lemma {:induction false} TopSweepKeys(x: int, w: int, h: int, k: Key)
    ensures k in TopSweep(x, w, h) <==> x <= k.x < w && 0 <= k.y < h && IsTop(k.m)
    decreases w - x
  {
    if x < w {
      TopColumnKeys(x, 0, h, k);
      TopSweepKeys(x + 1, w, h, k);
    }
  }

  lemma {:induction false} LeftRowKeys(y: int, x: int, w: int, k: Key)
    ensures k in LeftRow(y, x, w) <==> k.y == y && x <= k.x < w && IsLeft(k.m)
    decreases w - x
  {
    if x < w {
      LeftRowKeys(y, x + 1, w, k);
    }
  }

  lemma {:induction false} LeftSweepKeys(y: int, w: int, h: int, k: Key)
    ensures k in LeftSweep(y, w, h) <==> y <= k.y < h && 0 <= k.x < w && IsLeft(k.m)
    decreases h - y
  {
    if y < h {
      LeftRowKeys(y, 0, w, k);
      LeftSweepKeys(y + 1, w, h, k);
    }
  }

  lemma {:induction false} BottomColumnKeys(x: int, y: int, k: Key)
    requires y >= -1
    ensures k in BottomColumn(x, y) <==>
      || (k.m == LettersRightDown && k.x == x - 1 && 0 <= k.y <= y + 1)
      || (k.m == LettersBottom && k.x == x && 0 <= k.y <= y)
    decreases y + 1
  {
    var first := Key(x - 1, y + 1, LettersRightDown);
    if y >= 0 {
      var second := Key(x, y, LettersBottom);
      BottomColumnKeys(x, y - 1, k);
      InCons(first, [second] + BottomColumn(x, y - 1), k);
      InCons(second, BottomColumn(x, y - 1), k);
    } else {
      InCons(first, [], k);
    }
  }

  lemma {:induction false} BottomSweepKeys(x: int, w: int, h: int, k: Key)
    requires h >= 0
    ensures k in BottomSweep(x, w, h) <==>
      || (k.m == LettersRightDown && x - 1 <= k.x < w - 1 && 0 <= k.y <= h)
      || (k.m == LettersBottom && x <= k.x < w && 0 <= k.y < h)
    decreases w - x
  {
    if x < w {
      BottomColumnKeys(x, h - 1, k);
      BottomSweepKeys(x + 1, w, h, k);
    }
  }

  lemma {:induction false} RightRowKeys(y: int, x: int, k: Key)
    requires x >= -1
    ensures k in RightRow(y, x) <==>
      || (k.m == LettersBottomAcross && k.y == y - 1 && 0 <= k.x <= x + 1)
      || (k.m == LettersRight && k.y == y && 0 <= k.x <= x)
    decreases x + 1
  {
    var first := Key(x + 1, y - 1, LettersBottomAcross);
    if x >= 0 {
      var second := Key(x, y, LettersRight);
      RightRowKeys(y, x - 1, k);
      InCons(first, [second] + RightRow(y, x - 1), k);
      InCons(second, RightRow(y, x - 1), k);
    } else {
      InCons(first, [], k);
    }
  }

  lemma {:induction false} RightSweepKeys(y: int, w: int, h: int, k: Key)
    requires w >= 0
    ensures k in RightSweep(y, w, h) <==>
      || (k.m == LettersBottomAcross && y - 1 <= k.y < h - 1 && 0 <= k.x <= w)
      || (k.m == LettersRight && y <= k.y < h && 0 <= k.x < w)
    decreases h - y
  {
    if y < h {
      RightRowKeys(y, w - 1, k);
      RightSweepKeys(y + 1, w, h, k);
    }
  }

  /** Every field of every cell is written, except the right-down run of
      the last column and the bottom-across run of the last row, which keep
      whatever value they had. */
  lemma ScheduleKeys(s: Settings, x: int, y: int, m: MeasureName)
    requires Valid(s) && 0 <= x < s.width && 0 <= y < s.height
    ensures Key(x, y, m) in Schedule(s) <==> Covered(s, x, y, m)
  {
    var k := Key(x, y, m);
    TopSweepKeys(0, s.width, s.height, k);
    BottomSweepKeys(0, s.width, s.height, k);
    LeftSweepKeys(0, s.width, s.height, k);
    RightSweepKeys(0, s.width, s.height, k);
  }

  /** Performing the writes `ks` in order, each through the notifying
      setter. */
  function Apply(g: Grid, L: Layout, ks: seq<Key>): (r: Grid)
    requires Shaped(g) && Valid(g.settings) && Fits(g.settings, L)
    ensures Shaped(r) && r.settings == g.settings && r.conflicts == g.conflicts
    decreases |ks|
  {
    if ks == [] then g
    else
      var k := ks[0];
      Apply(SetMeasureAt(g, k.x, k.y, k.m, Expected(g.settings, L, k)), L, ks[1..])
  }

  /** The writes change no flag and no coordinate. */
  lemma {:induction false} ApplyKeepsFlags(g: Grid, L: Layout, ks: seq<Key>)
    requires Shaped(g) && Valid(g.settings) && Fits(g.settings, L)
    ensures forall x, y :: InGrid(g, x, y) ==>
      && At(Apply(g, L, ks), x, y).flags == At(g, x, y).flags
      && At(Apply(g, L, ks), x, y).x == At(g, x, y).x
      && At(Apply(g, L, ks), x, y).y == At(g, x, y).y
    decreases |ks|
  {
    if ks != [] {
      var k := ks[0];
      ApplyKeepsFlags(SetMeasureAt(g, k.x, k.y, k.m, Expected(g.settings, L, k)), L, ks[1..]);
    }
  }

  /** After the writes a field holds the expected value if it was written,
      and its old value otherwise. */
  lemma {:induction false} ApplyMeasures(g: Grid, L: Layout, ks: seq<Key>, x: int, y: int, m: MeasureName)
    requires Shaped(g) && Valid(g.settings) && Fits(g.settings, L) && InGrid(g, x, y)
    ensures Measure(At(Apply(g, L, ks), x, y).meas, m) ==
      if Key(x, y, m) in ks then Expected(g.settings, L, Key(x, y, m))
      else Measure(At(g, x, y).meas, m)
    decreases |ks|
  {
    if ks != [] {
      var k := ks[0];
      ApplyMeasures(SetMeasureAt(g, k.x, k.y, k.m, Expected(g.settings, L, k)), L, ks[1..], x, y, m);
    }
  }

  /** The writes only add cells of the grid to the dirty set, at its end,
      raise `updated` when anything changes, and leave a grid whose written
      fields already hold their values unchanged. */
  lemma {:induction false} ApplyNotifies(g: Grid, L: Layout, ks: seq<Key>)
    requires Shaped(g) && Valid(g.settings) && Fits(g.settings, L)
    ensures g.dirty <= Apply(g, L, ks).dirty
    ensures forall q :: q in Apply(g, L, ks).dirty ==> q in g.dirty || InGrid(g, q.x, q.y)
    ensures Distinct(g.dirty) ==> Distinct(Apply(g, L, ks).dirty)
    ensures g.updated ==> Apply(g, L, ks).updated
    ensures Apply(g, L, ks) != g ==> Apply(g, L, ks).updated
    decreases |ks|
  {
    if ks != [] {
      var k := ks[0];
      ApplyNotifies(SetMeasureAt(g, k.x, k.y, k.m, Expected(g.settings, L, k)), L, ks[1..]);
    }
  }

  /** A cell whose measures the writes change ends up in the dirty set. */
  lemma {:induction false} ApplyQueuesChanged(g: Grid, L: Layout, ks: seq<Key>, x: int, y: int)
    requires Shaped(g) && Valid(g.settings) && Fits(g.settings, L) && InGrid(g, x, y)
    requires At(Apply(g, L, ks), x, y).meas != At(g, x, y).meas
    ensures Pos(x, y) in Apply(g, L, ks).dirty
    decreases |ks|
  {
    var k := ks[0];
    var g1 := SetMeasureAt(g, k.x, k.y, k.m, Expected(g.settings, L, k));
    if At(g1, x, y).meas != At(g, x, y).meas {
      ApplyNotifies(g1, L, ks[1..]);
    } else {
      ApplyQueuesChanged(g1, L, ks[1..], x, y);
    }
  }

  /** A cell the writes add to the dirty set is one whose measures they
      change: a later write of the same field writes the same value again. */
  lemma {:induction false} ApplyQueuedChanged(g: Grid, L: Layout, ks: seq<Key>, x: int, y: int)
    requires Shaped(g) && Valid(g.settings) && Fits(g.settings, L) && InGrid(g, x, y)
    requires Pos(x, y) in Apply(g, L, ks).dirty && Pos(x, y) !in g.dirty
    ensures At(Apply(g, L, ks), x, y).meas != At(g, x, y).meas
    decreases |ks|
  {
    var k := ks[0];
    var g1 := SetMeasureAt(g, k.x, k.y, k.m, Expected(g.settings, L, k));
    if Pos(x, y) in g1.dirty {
      assert k.x == x && k.y == y && Measure(At(g, x, y).meas, k.m) != Expected(g.settings, L, k);
      ApplyMeasures(g, L, ks, x, y, k.m);
    } else {
      ApplyQueuedChanged(g1, L, ks[1..], x, y);
    }
  }

  /** Writes that all find their value already in place change nothing. */
  lemma {:induction false} ApplyIdle(g: Grid, L: Layout, ks: seq<Key>)
    requires Shaped(g) && Valid(g.settings) && Fits(g.settings, L)
    requires forall i :: 0 <= i < |ks| && InGrid(g, ks[i].x, ks[i].y) ==>
      Measure(At(g, ks[i].x, ks[i].y).meas, ks[i].m) == Expected(g.settings, L, ks[i])
    ensures Apply(g, L, ks) == g
    decreases |ks|
  {
    if ks != [] {
      var k := ks[0];
      assert SetMeasureAt(g, k.x, k.y, k.m, Expected(g.settings, L, k)) == g;
      assert forall i :: 0 <= i < |ks[1..]| ==> ks[1..][i] == ks[i + 1];
      ApplyIdle(g, L, ks[1..]);
    }
  }

  /** Every written field holds the value the pass computes from the
      current flags. */
  ghost predicate UpToDate(g: Grid) {
    && WellFormed(g)
    && forall x, y, m :: InGrid(g, x, y) && Covered(g.settings, x, y, m) ==>
         Measure(At(g, x, y).meas, m) == Expected(g.settings, LayoutOf(g), Key(x, y, m))
  }

  /** The grid after the writes of the whole pass. */
  function Swept(g: Grid): (r: Grid)
    requires WellFormed(g)
    ensures Shaped(r) && r.settings == g.settings && r.conflicts == g.conflicts
  {
    Apply(g, LayoutOf(g), Schedule(g.settings))
  }

  lemma SweptShape(g: Grid)
    requires WellFormed(g)
    ensures WellFormed(Swept(g))
    ensures forall x, y :: InGrid(g, x, y) ==> At(Swept(g), x, y).flags == At(g, x, y).flags
    ensures LayoutOf(Swept(g)) == LayoutOf(g)
    ensures g.dirty <= Swept(g).dirty
    ensures g.updated ==> Swept(g).updated
    ensures Swept(g) != g ==> Swept(g).updated
  {
    var L := LayoutOf(g);
    var ks := Schedule(g.settings);
    ApplyKeepsFlags(g, L, ks);
    ApplyNotifies(g, L, ks);
    SameLayout(Swept(g), g);
  }

  /** The pass queues exactly the cells whose measures it changes, on top
      of those already queued. */
  lemma SweptQueues(g: Grid)
    requires WellFormed(g)
    ensures forall x, y :: InGrid(g, x, y) ==>
      (Pos(x, y) in Swept(g).dirty <==> Pos(x, y) in g.dirty || At(Swept(g), x, y).meas != At(g, x, y).meas)
  {
    var L := LayoutOf(g);
    var ks := Schedule(g.settings);
    ApplyNotifies(g, L, ks);
    forall x, y | InGrid(g, x, y)
      ensures Pos(x, y) in Swept(g).dirty <==> Pos(x, y) in g.dirty || At(Swept(g), x, y).meas != At(g, x, y).meas
    {
      if At(Swept(g), x, y).meas != At(g, x, y).meas {
        ApplyQueuesChanged(g, L, ks, x, y);
      }
      if Pos(x, y) in Swept(g).dirty && Pos(x, y) !in g.dirty {
        ApplyQueuedChanged(g, L, ks, x, y);
      }
    }
  }

  lemma SweptValues(g: Grid)
    requires WellFormed(g)
    ensures forall x, y, m :: InGrid(g, x, y) ==>
      Measure(At(Swept(g), x, y).meas, m) ==
        if Covered(g.settings, x, y, m) then Expected(g.settings, LayoutOf(g), Key(x, y, m))
        else Measure(At(g, x, y).meas, m)
  {
    var L := LayoutOf(g);
    var ks := Schedule(g.settings);
    forall x, y, m | InGrid(g, x, y)
      ensures Measure(At(Swept(g), x, y).meas, m) ==
        if Covered(g.settings, x, y, m) then Expected(g.settings, L, Key(x, y, m))
        else Measure(At(g, x, y).meas, m)
    {
      ApplyMeasures(g, L, ks, x, y, m);
      ScheduleKeys(g.settings, x, y, m);
    }
  }

  lemma SweptUpToDate(g: Grid)
    requires WellFormed(g)
    ensures UpToDate(Swept(g))
  {
    SweptShape(g);
    SweptValues(g);
  }

  /** On a grid whose measures are up to date the pass writes nothing. */
  lemma UpToDateIsFixed(g: Grid)
    requires UpToDate(g)
    ensures Swept(g) == g
  {
    var L := LayoutOf(g);
    var ks := Schedule(g.settings);
    forall i | 0 <= i < |ks| && InGrid(g, ks[i].x, ks[i].y)
      ensures Measure(At(g, ks[i].x, ks[i].y).meas, ks[i].m) == Expected(g.settings, L, ks[i])
    {
      ScheduleKeys(g.settings, ks[i].x, ks[i].y, ks[i].m);
      assert ks[i] == Key(ks[i].x, ks[i].y, ks[i].m);
    }
    ApplyIdle(g, L, ks);
  }

  /** A grid the pass leaves as it is. */
  ghost predicate Settled(g: Grid) {
    WellFormed(g) && Swept(g) == g
  }

  /** The pass leaves a grid unchanged exactly when every field it writes
      already holds the value it would write. */
  lemma SettledIsUpToDate(g: Grid)
    requires WellFormed(g)
    ensures Settled(g) <==> UpToDate(g)
  {
    if Settled(g) {
      SweptUpToDate(g);
    }
    if UpToDate(g) {
      UpToDateIsFixed(g);
    }
  }

  /** The queue and the `updated` flag take no part in the measurements. */
  lemma SettledIgnoresQueue(g: Grid, d: seq<Pos>, u: bool)
    requires Settled(g)
    requires WellFormed(g.(dirty := d, updated := u))
    ensures Settled(g.(dirty := d, updated := u))
  {
    var h := g.(dirty := d, updated := u);
    SettledIsUpToDate(g);
    assert LayoutOf(h) == LayoutOf(g);
    SettledIsUpToDate(h);
  }

  /** In particular, lowering `updated` keeps a grid settled. */
  lemma SettledLowered(g: Grid)
    requires Settled(g)
    ensures Settled(g.(updated := false))
  {
    SettledIgnoresQueue(g, g.dirty, false);
  }

  /** `measure()`: no flag changes, and the measures it leaves are the ones
      a second pass would write again. */
  function MeasureGrid(g: Grid): (r: Grid)
    requires WellFormed(g)
    ensures WellFormed(r) && r.settings == g.settings && r.conflicts == g.conflicts
    ensures forall x, y :: InGrid(g, x, y) ==> At(r, x, y).flags == At(g, x, y).flags
    ensures Settled(r)
    ensures g.dirty <= r.dirty
    ensures forall x, y :: InGrid(g, x, y) ==>
      (Pos(x, y) in r.dirty <==> Pos(x, y) in g.dirty || At(r, x, y).meas != At(g, x, y).meas)
    ensures g.updated ==> r.updated
    ensures r != g ==> r.updated
  {
    SweptShape(g);
    SweptQueues(g);
    SweptUpToDate(g);
    UpToDateIsFixed(Swept(g));
    Swept(g)
  }

  /** What `measure()` writes: every written field gets the value computed
      from the flags, and the last column's right-down run and the last
      row's bottom-across run keep theirs. */
  lemma MeasureWrites(g: Grid)
    requires WellFormed(g)
    ensures forall x, y, m :: InGrid(g, x, y) ==>
      Measure(At(MeasureGrid(g), x, y).meas, m) ==
        if Covered(g.settings, x, y, m) then Expected(g.settings, LayoutOf(g), Key(x, y, m))
        else Measure(At(g, x, y).meas, m)
    ensures UpToDate(MeasureGrid(g))
  {
    SweptValues(g);
    SweptUpToDate(g);
  }

  /** On a settled grid the pass writes nothing. */
  lemma SettledIsFixed(g: Grid)
    requires Settled(g)
    ensures MeasureGrid(g) == g
  {
  }

  /** Measuring twice is measuring once. */
  lemma MeasureIdempotent(g: Grid)
    requires WellFormed(g)
    ensures MeasureGrid(MeasureGrid(g)) == MeasureGrid(g)
  {
    SettledIsFixed(MeasureGrid(g));
  }

  /** The measure pass never changes a flag, so it never moves the count
      of true flags. */
  lemma MeasureKeepsCount(g: Grid)
    requires WellFormed(g)
    ensures FlagsBelow(MeasureGrid(g), g) && FlagsBelow(g, MeasureGrid(g))
    ensures TrueCount(MeasureGrid(g)) == TrueCount(g)
  {
    var r := MeasureGrid(g);
    forall x, y | InGrid(g, x, y)
      ensures FlagsLe(At(r, x, y).flags, At(g, x, y).flags)
      ensures FlagsLe(At(g, x, y).flags, At(r, x, y).flags)
    {
      assert At(r, x, y).flags == At(g, x, y).flags;
    }
    SameCount(r, g);
  }

  lemma SameCount(r: Grid, g: Grid)
    requires FlagsBelow(r, g) && FlagsBelow(g, r)
    ensures TrueCount(r) == TrueCount(g)
  {
    FlagsBelowCount(r, g);
    FlagsBelowCount(g, r);
  }

  lemma UpToDateAt(g: Grid, x: int, y: int, m: MeasureName)
    requires UpToDate(g) && InGrid(g, x, y) && Covered(g.settings, x, y, m)
    ensures Measure(At(g, x, y).meas, m) == Expected(g.settings, LayoutOf(g), Key(x, y, m))
  {
  }

  lemma UpToDateRight(g: Grid, x: int, y: int)
    requires UpToDate(g) && InGrid(g, x, y)
    ensures At(g, x, y).meas.lettersRight == Fin(RunFrom(Row(g.settings, LayoutOf(g), y), x + 1))
  {
    UpToDateAt(g, x, y, LettersRight);
  }

  lemma UpToDateBottomAcross(g: Grid, x: int, y: int)
    requires UpToDate(g) && InGrid(g, x, y) && y + 1 < g.settings.height
    ensures At(g, x, y).meas.lettersBottomAcross == Fin(RunFrom(Row(g.settings, LayoutOf(g), y + 1), x))
  {
    UpToDateAt(g, x, y, LettersBottomAcross);
  }

  lemma UpToDateBottom(g: Grid, x: int, y: int)
    requires UpToDate(g) && InGrid(g, x, y)
    ensures At(g, x, y).meas.lettersBottom == Fin(RunFrom(Column(g.settings, LayoutOf(g), x), y + 1))
  {
    UpToDateAt(g, x, y, LettersBottom);
  }

  lemma UpToDateRightDown(g: Grid, x: int, y: int)
    requires UpToDate(g) && InGrid(g, x, y) && x + 1 < g.settings.width
    ensures At(g, x, y).meas.lettersRightDown == Fin(RunFrom(Column(g.settings, LayoutOf(g), x + 1), y))
  {
    UpToDateAt(g, x, y, LettersRightDown);
  }

  /** The four top-down quantities of a cell are the scan's values at it. */
  lemma UpToDateTop(g: Grid, x: int, y: int)
    requires UpToDate(g) && InGrid(g, x, y)
    ensures var e, m := Emitted(TopLine(g.settings, LayoutOf(g), x), WindowWidth(g.settings), y), At(g, x, y).meas;
      && m.closestTop == e.closest && m.defsTop == Fin(e.defs)
      && m.lettersTop == Fin(e.run) && m.fixedTop == Fin(e.fixed)
  {
    UpToDateAt(g, x, y, ClosestTop);
    UpToDateAt(g, x, y, DefsTop);
    UpToDateAt(g, x, y, LettersTop);
    UpToDateAt(g, x, y, FixedTop);
  }

  /** The same for the four left-to-right quantities. */
  lemma UpToDateLeft(g: Grid, x: int, y: int)
    requires UpToDate(g) && InGrid(g, x, y)
    ensures var e, m := Emitted(LeftLine(g.settings, LayoutOf(g), y), WindowWidth(g.settings), x), At(g, x, y).meas;
      && m.closestLeft == e.closest && m.defsLeft == Fin(e.defs)
      && m.lettersLeft == Fin(e.run) && m.fixedLeft == Fin(e.fixed)
  {
    UpToDateAt(g, x, y, ClosestLeft);
    UpToDateAt(g, x, y, DefsLeft);
    UpToDateAt(g, x, y, LettersLeft);
    UpToDateAt(g, x, y, FixedLeft);
  }

  /** Letters and fixed letters directly above a cell, once the measures
      are up to date. */
  lemma MeasuredAbove(g: Grid, x: int, y: int)
    requires UpToDate(g) && InGrid(g, x, y)
    ensures var s, L, c := g.settings, LayoutOf(g), At(g, x, y).meas;
      && c.lettersTop.Fin? && RunUpTo(Column(s, L, x), y, c.lettersTop.n)
      && c.fixedTop.Fin? && RunUpTo(FixedColumn(s, L, x), y, c.fixedTop.n)
  {
    var s, L := g.settings, LayoutOf(g);
    var line, w := TopLine(s, L, x), WindowWidth(s);
    UpToDateTop(g, x, y);
    LinesCoherent(s, L, x, y);
    ScanRuns(line, w, y);
  }

  /** Definitions within reach above a cell, with `Infinity` as the closest
      one exactly when there are none. */
  lemma MeasuredDefsAbove(g: Grid, x: int, y: int)
    requires UpToDate(g) && InGrid(g, x, y)
    ensures var s, L, c := g.settings, LayoutOf(g), At(g, x, y).meas;
      && c.defsTop == Fin(Sum(Reach(TopLine(s, L, x), WindowWidth(s), y)))
      && (c.closestTop.Inf? <==> c.defsTop == Fin(0))
  {
    var s, L := g.settings, LayoutOf(g);
    var line, w := TopLine(s, L, x), WindowWidth(s);
    UpToDateTop(g, x, y);
    LinesCoherent(s, L, x, y);
    WrittenDefs(line, w, y);
    WrittenClosestInfinite(line, w, y);
  }

  /** The closest definition above a cell is the distance to the latest
      definition of the column's word reaching the cell, whenever a
      definition is within reach, and never reaches the window's width. */
  lemma MeasuredClosestAbove(g: Grid, x: int, y: int)
    requires UpToDate(g) && InGrid(g, x, y)
    ensures var s, c := g.settings, At(g, x, y).meas;
      && (forall n: nat :: c.closestTop == Fin(n) <==>
            c.defsTop != Fin(0) && LatestStart(TopLine(s, LayoutOf(g), x), y, n))
      && (c.closestTop.Fin? ==> c.closestTop.n < WindowWidth(s))
  {
    var s, L := g.settings, LayoutOf(g);
    UpToDateTop(g, x, y);
    LinesCoherent(s, L, x, y);
    WrittenClosest(TopLine(s, L, x), WindowWidth(s), y);
  }

  /** Letters directly below a cell, and letters of the next column from
      the cell's row down. */
  lemma MeasuredBelow(g: Grid, x: int, y: int)
    requires UpToDate(g) && InGrid(g, x, y)
    ensures var s, L, c := g.settings, LayoutOf(g), At(g, x, y).meas;
      && c.lettersBottom.Fin? && RunFromSpec(Column(s, L, x), y + 1, c.lettersBottom.n)
      && (x + 1 < s.width ==>
            c.lettersRightDown.Fin? && RunFromSpec(Column(s, L, x + 1), y, c.lettersRightDown.n))
  {
    var s, L := g.settings, LayoutOf(g);
    UpToDateBottom(g, x, y);
    RunFromCounts(Column(s, L, x), y + 1);
    if x + 1 < s.width {
      UpToDateRightDown(g, x, y);
      RunFromCounts(Column(s, L, x + 1), y);
    }
  }

  /** Letters and fixed letters directly left of a cell. */
  lemma MeasuredLeftOf(g: Grid, x: int, y: int)
    requires UpToDate(g) && InGrid(g, x, y)
    ensures var s, L, c := g.settings, LayoutOf(g), At(g, x, y).meas;
      && c.lettersLeft.Fin? && RunUpTo(Row(s, L, y), x, c.lettersLeft.n)
      && c.fixedLeft.Fin? && RunUpTo(FixedRow(s, L, y), x, c.fixedLeft.n)
  {
    var s, L := g.settings, LayoutOf(g);
    var line, w := LeftLine(s, L, y), WindowWidth(s);
    UpToDateLeft(g, x, y);
    LinesCoherent(s, L, x, y);
    ScanRuns(line, w, x);
  }

  /** Definitions within reach left of a cell, with `Infinity` as the
      closest one exactly when there are none. */
  lemma MeasuredDefsLeftOf(g: Grid, x: int, y: int)
    requires UpToDate(g) && InGrid(g, x, y)
    ensures var s, L, c := g.settings, LayoutOf(g), At(g, x, y).meas;
      && c.defsLeft == Fin(Sum(Reach(LeftLine(s, L, y), WindowWidth(s), x)))
      && (c.closestLeft.Inf? <==> c.defsLeft == Fin(0))
  {
    var s, L := g.settings, LayoutOf(g);
    var line, w := LeftLine(s, L, y), WindowWidth(s);
    UpToDateLeft(g, x, y);
    LinesCoherent(s, L, x, y);
    WrittenDefs(line, w, x);
    WrittenClosestInfinite(line, w, x);
  }

  /** The same for the closest definition left of a cell. */
  lemma MeasuredClosestLeftOf(g: Grid, x: int, y: int)
    requires UpToDate(g) && InGrid(g, x, y)
    ensures var s, c := g.settings, At(g, x, y).meas;
      && (forall n: nat :: c.closestLeft == Fin(n) <==>
            c.defsLeft != Fin(0) && LatestStart(LeftLine(s, LayoutOf(g), y), x, n))
      && (c.closestLeft.Fin? ==> c.closestLeft.n < WindowWidth(s))
  {
    var s, L := g.settings, LayoutOf(g);
    UpToDateLeft(g, x, y);
    LinesCoherent(s, L, x, y);
    WrittenClosest(LeftLine(s, L, y), WindowWidth(s), x);
  }

  /** Letters directly right of a cell, and letters of the next row from
      the cell's column on. */
  lemma MeasuredRightOf(g: Grid, x: int, y: int)
    requires UpToDate(g) && InGrid(g, x, y)
    ensures var s, L, c := g.settings, LayoutOf(g), At(g, x, y).meas;
      && c.lettersRight.Fin? && RunFromSpec(Row(s, L, y), x + 1, c.lettersRight.n)
      && (y + 1 < s.height ==>
            c.lettersBottomAcross.Fin? && RunFromSpec(Row(s, L, y + 1), x, c.lettersBottomAcross.n))
  {
    var s, L := g.settings, LayoutOf(g);
    UpToDateRight(g, x, y);
    RunFromCounts(Row(s, L, y), x + 1);
    if y + 1 < s.height {
      UpToDateBottomAcross(g, x, y);
      RunFromCounts(Row(s, L, y + 1), x);
    }
  }
}

/** The twelve narrowing rules, in the order `solve` tries them. Each rule
    reads one cell (and, for some, its neighbours) and only ever writes
    `false` to a type or arrow flag, through the notifying setters; reads
    always see the writes made earlier in the same rule. */
module Rules {
  import opened Base
  import opened Config
  import opened Cells
  import opened Grids

  /** Outcome of one rule: the grid after it, or the grid at the point where
      it threw. */
  datatype Step = Next(g: Grid) | Threw(g: Grid)

  /** No cell other than the one at `(x, y)` differs. */
  ghost predicate Elsewhere(g: Grid, r: Grid, x: int, y: int)
    requires Shaped(g) && Shaped(r) && g.settings == r.settings
  {
    forall i, j :: InGrid(g, i, j) && (i != x || j != y) ==> At(r, i, j) == At(g, i, j)
  }


  lemma NarrowsRefl(g: Grid)
    requires WellFormed(g)
    ensures Narrows(g, g)
  {
  }

  lemma Chain(a: Grid, b: Grid, c: Grid, x: int, y: int)
    requires Narrows(a, b) && Narrows(b, c) && Elsewhere(a, b, x, y) && Elsewhere(b, c, x, y)
    ensures Narrows(a, c) && Elsewhere(a, c, x, y)
  {
    NarrowsTrans(a, b, c);
  }

  /** Clears flag `n` of the cell at `(x, y)` when `b` holds. */
  function ClearIf(b: bool, g: Grid, x: int, y: int, n: FlagName): (r: Grid)
    requires WellFormed(g) && InGrid(g, x, y)
    ensures Narrows(g, r) && Elsewhere(g, r, x, y)
    ensures At(r, x, y).flags == if b then WithFlag(At(g, x, y).flags, n, false) else At(g, x, y).flags
  {
    if b then Clear(g, x, y, n) else NarrowsRefl(g); g
  }

  // Straight runs of cells, as the rules' `for` loops visit them.

  /** A unit step along an axis, or no step at all. */
  predicate Axis(dx: int, dy: int) {
    -1 <= dx <= 1 && -1 <= dy <= 1 && (dx == 0 || dy == 0)
  }

  /** The coordinates `a0 + t * d` for `0 <= t < count`, on one axis. */
  predicate Seg(a0: int, d: int, count: int, a: int) {
    if d == 0 then count > 0 && a == a0
    else if d > 0 then a0 <= a < a0 + count
    else a0 - count < a <= a0
  }

  /** `(i, j)` is one of the first `count` steps of the line that starts at
      `(x0, y0)` and moves by `(dx, dy)`. */
  predicate OnLine(x0: int, y0: int, dx: int, dy: int, count: int, i: int, j: int) {
    Seg(x0, dx, count, i) && Seg(y0, dy, count, j)
  }

  lemma OnLineStep(x0: int, y0: int, dx: int, dy: int, count: int, i: int, j: int)
    requires Axis(dx, dy) && count > 0
    ensures OnLine(x0, y0, dx, dy, count, i, j) <==>
      (i == x0 && j == y0) || OnLine(x0 + dx, y0 + dy, dx, dy, count - 1, i, j)
  {
  }

  /** A loop clearing flag `n` through `setCellProp` along `count` steps of
      a line: exactly the in-grid cells of the line lose flag `n`. */
  function ClearLine(g: Grid, x0: int, y0: int, dx: int, dy: int, count: nat, n: FlagName): (r: Grid)
    requires WellFormed(g) && Axis(dx, dy)
    ensures Narrows(g, r)
    ensures forall i, j :: InGrid(g, i, j) ==>
      At(r, i, j).flags ==
        if OnLine(x0, y0, dx, dy, count, i, j) then WithFlag(At(g, i, j).flags, n, false)
        else At(g, i, j).flags
    ensures forall i, j :: InGrid(g, i, j) && !OnLine(x0, y0, dx, dy, count, i, j) ==>
      At(r, i, j) == At(g, i, j)
    decreases count
  {
    if count == 0 then NarrowsRefl(g); g
    else
      var g1 := Clear(g, x0, y0, n);
      var r := ClearLine(g1, x0 + dx, y0 + dy, dx, dy, count - 1, n);
      NarrowsTrans(g, g1, r);
      forall i, j | InGrid(g, i, j)
        ensures At(r, i, j).flags ==
          if OnLine(x0, y0, dx, dy, count, i, j) then WithFlag(At(g, i, j).flags, n, false)
          else At(g, i, j).flags
      {
        OnLineStep(x0, y0, dx, dy, count, i, j);
        WithFlagTwice(At(g, i, j).flags, n);
      }
      forall i, j | InGrid(g, i, j) && !OnLine(x0, y0, dx, dy, count, i, j)
        ensures At(r, i, j) == At(g, i, j)
      {
        OnLineStep(x0, y0, dx, dy, count, i, j);
      }
      r
  }

  /** A `ClearLine` done only when `b` holds. */
  function LineIf(b: bool, g: Grid, x0: int, y0: int, dx: int, dy: int, count: nat, n: FlagName): (r: Grid)
    requires WellFormed(g) && (b ==> Axis(dx, dy))
    ensures Narrows(g, r)
    ensures forall i, j :: InGrid(g, i, j) ==>
      At(r, i, j).flags ==
        if b && OnLine(x0, y0, dx, dy, count, i, j) then WithFlag(At(g, i, j).flags, n, false)
        else At(g, i, j).flags
    ensures forall i, j :: InGrid(g, i, j) && !(b && OnLine(x0, y0, dx, dy, count, i, j)) ==>
      At(r, i, j) == At(g, i, j)
  {
    if b then ClearLine(g, x0, y0, dx, dy, count, n) else NarrowsRefl(g); g
  }

  /** Two guarded line clears in a row, both clearing the same flag. */
  function TwoLines(g: Grid, n: FlagName,
                    b1: bool, x1: int, y1: int, dx1: int, dy1: int, c1: nat,
                    b2: bool, x2: int, y2: int, dx2: int, dy2: int, c2: nat): (r: Grid)
    requires WellFormed(g) && (b1 ==> Axis(dx1, dy1)) && (b2 ==> Axis(dx2, dy2))
    ensures Narrows(g, r)
    ensures forall i, j :: InGrid(g, i, j) ==>
      At(r, i, j).flags ==
        if (b1 && OnLine(x1, y1, dx1, dy1, c1, i, j)) || (b2 && OnLine(x2, y2, dx2, dy2, c2, i, j))
        then WithFlag(At(g, i, j).flags, n, false)
        else At(g, i, j).flags
    ensures forall i, j ::
      (InGrid(g, i, j) && !(b1 && OnLine(x1, y1, dx1, dy1, c1, i, j))
        && !(b2 && OnLine(x2, y2, dx2, dy2, c2, i, j))) ==> At(r, i, j) == At(g, i, j)
  {
    var g1 := LineIf(b1, g, x1, y1, dx1, dy1, c1, n);
    var g2 := LineIf(b2, g1, x2, y2, dx2, dy2, c2, n);
    NarrowsTrans(g, g1, g2);
    LinesUnion(g, n, b1, x1, y1, dx1, dy1, c1, b2, x2, y2, dx2, dy2, c2);
    g2
  }

  /** Clearing a flag on one region and then on another clears it on their
      union. */
  lemma UnionFlags(f: Flags, f1: Flags, f2: Flags, n: FlagName, a: bool, b: bool)
    requires f1 == if a then WithFlag(f, n, false) else f
    requires f2 == if b then WithFlag(f1, n, false) else f1
    ensures f2 == if a || b then WithFlag(f, n, false) else f
  {
    if a && b {
      WithFlagTwice(f, n);
    }
  }

  lemma LinesUnion(g: Grid, n: FlagName,
                   b1: bool, x1: int, y1: int, dx1: int, dy1: int, c1: nat,
                   b2: bool, x2: int, y2: int, dx2: int, dy2: int, c2: nat)
    requires WellFormed(g) && (b1 ==> Axis(dx1, dy1)) && (b2 ==> Axis(dx2, dy2))
    ensures var g2 := LineIf(b2, LineIf(b1, g, x1, y1, dx1, dy1, c1, n), x2, y2, dx2, dy2, c2, n);
      forall i, j :: InGrid(g, i, j) ==>
      At(g2, i, j).flags ==
        if (b1 && OnLine(x1, y1, dx1, dy1, c1, i, j)) || (b2 && OnLine(x2, y2, dx2, dy2, c2, i, j))
        then WithFlag(At(g, i, j).flags, n, false)
        else At(g, i, j).flags
    ensures var g2 := LineIf(b2, LineIf(b1, g, x1, y1, dx1, dy1, c1, n), x2, y2, dx2, dy2, c2, n);
      forall i, j ::
      (InGrid(g, i, j) && !(b1 && OnLine(x1, y1, dx1, dy1, c1, i, j))
        && !(b2 && OnLine(x2, y2, dx2, dy2, c2, i, j))) ==> At(g2, i, j) == At(g, i, j)
  {
    var g1 := LineIf(b1, g, x1, y1, dx1, dy1, c1, n);
    var g2 := LineIf(b2, g1, x2, y2, dx2, dy2, c2, n);
    forall i, j | InGrid(g, i, j)
      ensures At(g2, i, j).flags ==
        if (b1 && OnLine(x1, y1, dx1, dy1, c1, i, j)) || (b2 && OnLine(x2, y2, dx2, dy2, c2, i, j))
        then WithFlag(At(g, i, j).flags, n, false)
        else At(g, i, j).flags
    {
      UnionFlags(At(g, i, j).flags, At(g1, i, j).flags, At(g2, i, j).flags, n,
        b1 && OnLine(x1, y1, dx1, dy1, c1, i, j), b2 && OnLine(x2, y2, dx2, dy2, c2, i, j));
    }
  }

  /** Two guarded flag clears in a row on the cell at `(x, y)`. */
  function ClearPair(g: Grid, x: int, y: int, b1: bool, n1: FlagName, b2: bool, n2: FlagName): (r: Grid)
    requires WellFormed(g) && InGrid(g, x, y)
    ensures Narrows(g, r) && Elsewhere(g, r, x, y)
    ensures var f := At(g, x, y).flags;
      var f1 := if b1 then WithFlag(f, n1, false) else f;
      At(r, x, y).flags == if b2 then WithFlag(f1, n2, false) else f1
  {
    var g1 := ClearIf(b1, g, x, y, n1);
    var g2 := ClearIf(b2, g1, x, y, n2);
    Chain(g, g1, g2, x, y);
    g2
  }

  // Rule 1: not enough letters for a word.

  /** A word starting at an arrow needs `minWordLength` letters: a run below
      or to the right that is too short removes the matching arrow, and an
      empty run removes both arrows of the group. */
  function Rule1(g: Grid, x: int, y: int): (r: Grid)
    requires WellFormed(g) && InGrid(g, x, y)
    ensures Narrows(g, r) && Elsewhere(g, r, x, y)
    ensures var m, k, f := At(g, x, y).meas, g.settings.minWordLength, At(g, x, y).flags;
      At(r, x, y).flags == f.(
        bottomDown := f.bottomDown && !m.lettersBottom.Below(k) && !m.lettersBottom.IsZero(),
        rightAcross := f.rightAcross && !m.lettersRight.Below(k) && !m.lettersRight.IsZero(),
        bottomAcross := f.bottomAcross && !m.lettersBottomAcross.Below(k) && !m.lettersBottom.IsZero(),
        rightDown := f.rightDown && !m.lettersRightDown.Below(k) && !m.lettersRight.IsZero())
  {
    var g1 := ShortRuns(g, x, y);
    var g2 := EmptyRuns(g1, x, y);
    Chain(g, g1, g2, x, y);
    g2
  }

  /** The first four checks of rule 1: each arrow whose word would be too
      short. */
  function ShortRuns(g: Grid, x: int, y: int): (r: Grid)
    requires WellFormed(g) && InGrid(g, x, y)
    ensures Narrows(g, r) && Elsewhere(g, r, x, y)
    ensures var m, k, f := At(g, x, y).meas, g.settings.minWordLength, At(g, x, y).flags;
      At(r, x, y).flags == f.(
        bottomDown := f.bottomDown && !m.lettersBottom.Below(k),
        rightAcross := f.rightAcross && !m.lettersRight.Below(k),
        bottomAcross := f.bottomAcross && !m.lettersBottomAcross.Below(k),
        rightDown := f.rightDown && !m.lettersRightDown.Below(k))
  {
    var m, k := At(g, x, y).meas, g.settings.minWordLength;
    var g1 := ClearPair(g, x, y, m.lettersBottom.Below(k), BottomDown, m.lettersRight.Below(k), RightAcross);
    var g2 := ClearPair(g1, x, y, m.lettersBottomAcross.Below(k), BottomAcross,
      m.lettersRightDown.Below(k), RightDown);
    Chain(g, g1, g2, x, y);
    ShortRunsFlags(At(g, x, y).flags, At(g1, x, y).flags, At(g2, x, y).flags,
      m.lettersBottom.Below(k), m.lettersRight.Below(k), m.lettersBottomAcross.Below(k), m.lettersRightDown.Below(k));
    g2
  }

  lemma ShortRunsFlags(f: Flags, f1: Flags, f2: Flags, sb: bool, sr: bool, sba: bool, srd: bool)
    requires f1 == var h := if sb then WithFlag(f, BottomDown, false) else f;
      if sr then WithFlag(h, RightAcross, false) else h
    requires f2 == var h := if sba then WithFlag(f1, BottomAcross, false) else f1;
      if srd then WithFlag(h, RightDown, false) else h
    ensures f2 == f.(bottomDown := f.bottomDown && !sb, rightAcross := f.rightAcross && !sr,
                     bottomAcross := f.bottomAcross && !sba, rightDown := f.rightDown && !srd)
  {
  }

  /** The last two checks of rule 1: both arrows of a group with no letter
      after it. */
  function EmptyRuns(g: Grid, x: int, y: int): (r: Grid)
    requires WellFormed(g) && InGrid(g, x, y)
    ensures Narrows(g, r) && Elsewhere(g, r, x, y)
    ensures var m, f := At(g, x, y).meas, At(g, x, y).flags;
      At(r, x, y).flags == f.(
        bottomAcross := f.bottomAcross && !m.lettersBottom.IsZero(),
        bottomDown := f.bottomDown && !m.lettersBottom.IsZero(),
        rightAcross := f.rightAcross && !m.lettersRight.IsZero(),
        rightDown := f.rightDown && !m.lettersRight.IsZero())
  {
    var m := At(g, x, y).meas;
    var g1 := ClearPair(g, x, y, m.lettersBottom.IsZero(), BottomAcross, m.lettersBottom.IsZero(), BottomDown);
    var g2 := ClearPair(g1, x, y, m.lettersRight.IsZero(), RightAcross, m.lettersRight.IsZero(), RightDown);
    Chain(g, g1, g2, x, y);
    EmptyRunsFlags(At(g, x, y).flags, At(g1, x, y).flags, At(g2, x, y).flags,
      m.lettersBottom.IsZero(), m.lettersRight.IsZero());
    g2
  }

  lemma EmptyRunsFlags(f: Flags, f1: Flags, f2: Flags, zb: bool, zr: bool)
    requires f1 == if zb then WithFlag(WithFlag(f, BottomAcross, false), BottomDown, false) else f
    requires f2 == if zr then WithFlag(WithFlag(f1, RightAcross, false), RightDown, false) else f1
    ensures f2 == f.(bottomAcross := f.bottomAcross && !zb, bottomDown := f.bottomDown && !zb,
                     rightAcross := f.rightAcross && !zr, rightDown := f.rightDown && !zr)
  {
  }

  // Rule 2: arrow-less cells cannot be blocks.

  function Rule2(g: Grid, x: int, y: int): (r: Grid)
    requires WellFormed(g) && InGrid(g, x, y)
    ensures Narrows(g, r) && Elsewhere(g, r, x, y)
    ensures var c := At(g, x, y);
      At(r, x, y).flags == c.flags.(isBlock :=
        c.flags.isBlock && !(g.settings.blockMustHaveDefinition && NumberOfArrows(c) == 0))
  {
    var c := At(g, x, y);
    ClearIf(g.settings.blockMustHaveDefinition && NumberOfArrows(c) == 0, g, x, y, IsBlock)
  }

  // Rule 3: non-blocks cannot have arrows.

  function Rule3(g: Grid, x: int, y: int): (r: Grid)
    requires WellFormed(g) && InGrid(g, x, y)
    ensures Narrows(g, r) && Elsewhere(g, r, x, y)
    ensures var f := At(g, x, y).flags;
      At(r, x, y).flags ==
        if f.isBlock then f
        else f.(rightDown := false, rightAcross := false, bottomDown := false, bottomAcross := false)
    ensures !At(g, x, y).flags.isBlock ==> NumberOfArrows(At(r, x, y)) == 0
  {
    var b := !At(g, x, y).flags.isBlock;
    var g1 := ClearIf(b, g, x, y, RightDown);
    var g2 := ClearIf(b, g1, x, y, RightAcross);
    var g3 := ClearIf(b, g2, x, y, BottomDown);
    var g4 := ClearIf(b, g3, x, y, BottomAcross);
    Chain(g, g1, g2, x, y);
    Chain(g, g2, g3, x, y);
    Chain(g, g3, g4, x, y);
    DropArrows(At(g, x, y).flags, At(g1, x, y).flags, At(g2, x, y).flags, At(g3, x, y).flags,
      At(g4, x, y).flags, b);
    g4
  }

  /** The four writes of rule 3 on the cell's flags. */
  lemma DropArrows(f: Flags, f1: Flags, f2: Flags, f3: Flags, f4: Flags, b: bool)
    requires f1 == if b then WithFlag(f, RightDown, false) else f
    requires f2 == if b then WithFlag(f1, RightAcross, false) else f1
    requires f3 == if b then WithFlag(f2, BottomDown, false) else f2
    requires f4 == if b then WithFlag(f3, BottomAcross, false) else f3
    ensures f4 == if b then f.(rightDown := false, rightAcross := false, bottomDown := false, bottomAcross := false)
      else f
  {
  }

  // Rule 4: a block with exactly one arrow must have that arrow.

  function Rule4(g: Grid, x: int, y: int): (r: Grid)
    requires WellFormed(g) && InGrid(g, x, y)
    ensures Narrows(g, r) && Elsewhere(g, r, x, y)
    ensures var c := At(g, x, y);
      var fires := g.settings.blockMustHaveDefinition && !c.flags.isLetter && NumberOfArrows(c) == 1;
      var below := c.flags.bottomAcross || c.flags.bottomDown;
      && At(r, x, y).flags ==
           (if !fires then c.flags
            else if below then c.flags.(bottomNone := false)
            else c.flags.(rightNone := false))
      && (fires && !below ==> c.flags.rightAcross || c.flags.rightDown)
  {
    var c := At(g, x, y);
    if g.settings.blockMustHaveDefinition && !c.flags.isLetter && NumberOfArrows(c) == 1 then
      if c.flags.bottomAcross || c.flags.bottomDown then ClearIf(true, g, x, y, BottomNone)
      else ClearIf(true, g, x, y, RightNone)
    else
      NarrowsRefl(g);
      g
  }

  // Rule 5: cells no definition crosses cannot be letters.

  function Rule5(g: Grid, x: int, y: int): (r: Grid)
    requires WellFormed(g) && InGrid(g, x, y)
    ensures Narrows(g, r) && Elsewhere(g, r, x, y)
    ensures var c := At(g, x, y);
      At(r, x, y).flags == c.flags.(isLetter := c.flags.isLetter && !NumberOfDefinitions(c).IsZero())
  {
    ClearIf(NumberOfDefinitions(At(g, x, y)).IsZero(), g, x, y, IsLetter)
  }

  // Rule 6: cells with arrows cannot be letters.

  function Rule6(g: Grid, x: int, y: int): (r: Grid)
    requires WellFormed(g) && InGrid(g, x, y)
    ensures Narrows(g, r) && Elsewhere(g, r, x, y)
    ensures var f := At(g, x, y).flags;
      At(r, x, y).flags == f.(isLetter := f.isLetter && (f.bottomNone || f.rightNone))
  {
    var f := At(g, x, y).flags;
    ClearIf(!f.bottomNone && !f.rightNone, g, x, y, IsLetter)
  }

  // Rule 7: an arrow must point to enough letters.

  /** The bottom group is settled on a real arrow (or on nothing), so the
      rule follows it. */
  predicate BottomArrowSettled(c: Cell) {
    ArrowBottomFixed(c) && !c.flags.bottomNone
  }

  predicate RightArrowSettled(c: Cell) {
    ArrowRightFixed(c) && !c.flags.rightNone
  }

  /** The `minWordLength` cells a settled bottom arrow of `(x, y)` points to:
      from the cell below, across or down as the arrow goes. */
  predicate BottomWordCell(c: Cell, k: int, x: int, y: int, i: int, j: int) {
    OnLine(x, y + 1, B2N(c.flags.bottomAcross), B2N(c.flags.bottomDown), k, i, j)
  }

  /** The same for a settled right arrow, from the cell to the right. */
  predicate RightWordCell(c: Cell, k: int, x: int, y: int, i: int, j: int) {
    OnLine(x + 1, y, B2N(c.flags.rightAcross), B2N(c.flags.rightDown), k, i, j)
  }

  /** Every cell a settled arrow's word must cover loses `isBlock`. The
      adjacent cell is dereferenced without a check: when a settled arrow
      points out of the grid the rule throws (after the bottom group's writes
      when it is the right group that points out). */
  function Rule7(g: Grid, x: int, y: int): (r: Step)
    requires WellFormed(g) && InGrid(g, x, y)
    ensures Narrows(g, r.g)
    ensures var c, s := At(g, x, y), g.settings;
      r.Threw? <==>
        (BottomArrowSettled(c) && y + 1 >= s.height) || (RightArrowSettled(c) && x + 1 >= s.width)
    ensures var c, k := At(g, x, y), g.settings.minWordLength;
      r.Next? ==> forall i, j :: InGrid(g, i, j) ==>
        At(r.g, i, j).flags ==
          if (BottomArrowSettled(c) && BottomWordCell(c, k, x, y, i, j))
             || (RightArrowSettled(c) && RightWordCell(c, k, x, y, i, j))
          then WithFlag(At(g, i, j).flags, IsBlock, false)
          else At(g, i, j).flags
  {
    var c := At(g, x, y);
    if BottomArrowSettled(c) && !InGrid(g, x, y + 1) then
      NarrowsRefl(g);
      Threw(g)
    else
      var g1 := BottomWord(g, x, y);
      if RightArrowSettled(c) && !InGrid(g1, x + 1, y) then
        Threw(g1)
      else
        var g2 := RightWord(g1, x, y);
        NarrowsTrans(g, g1, g2);
        TwoWords(g, g1, g2, x, y);
        Next(g2)
  }

  /** The bottom half of rule 7, when it does not throw; the cell itself is
      never among the cells it writes. */
  function BottomWord(g: Grid, x: int, y: int): (r: Grid)
    requires WellFormed(g) && InGrid(g, x, y)
    requires BottomArrowSettled(At(g, x, y)) ==> InGrid(g, x, y + 1)
    ensures Narrows(g, r) && At(r, x, y) == At(g, x, y)
    ensures var c, k := At(g, x, y), g.settings.minWordLength;
      forall i, j :: InGrid(g, i, j) ==>
        At(r, i, j).flags ==
          if BottomArrowSettled(c) && BottomWordCell(c, k, x, y, i, j)
          then WithFlag(At(g, i, j).flags, IsBlock, false)
          else At(g, i, j).flags
  {
    var c := At(g, x, y);
    LineIf(BottomArrowSettled(c), g, x, y + 1, B2N(c.flags.bottomAcross), B2N(c.flags.bottomDown),
      g.settings.minWordLength, IsBlock)
  }

  /** The right half of rule 7, when it does not throw. */
  function RightWord(g: Grid, x: int, y: int): (r: Grid)
    requires WellFormed(g) && InGrid(g, x, y)
    requires RightArrowSettled(At(g, x, y)) ==> InGrid(g, x + 1, y)
    ensures Narrows(g, r)
    ensures var c, k := At(g, x, y), g.settings.minWordLength;
      forall i, j :: InGrid(g, i, j) ==>
        At(r, i, j).flags ==
          if RightArrowSettled(c) && RightWordCell(c, k, x, y, i, j)
          then WithFlag(At(g, i, j).flags, IsBlock, false)
          else At(g, i, j).flags
  {
    var c := At(g, x, y);
    LineIf(RightArrowSettled(c), g, x + 1, y, B2N(c.flags.rightAcross), B2N(c.flags.rightDown),
      g.settings.minWordLength, IsBlock)
  }

  lemma TwoWords(g: Grid, g1: Grid, g2: Grid, x: int, y: int)
    requires WellFormed(g) && InGrid(g, x, y)
    requires BottomArrowSettled(At(g, x, y)) ==> InGrid(g, x, y + 1)
    requires g1 == BottomWord(g, x, y)
    requires RightArrowSettled(At(g, x, y)) ==> InGrid(g1, x + 1, y)
    requires g2 == RightWord(g1, x, y)
    ensures var c, k := At(g, x, y), g.settings.minWordLength;
      forall i, j :: InGrid(g, i, j) ==>
        At(g2, i, j).flags ==
          if (BottomArrowSettled(c) && BottomWordCell(c, k, x, y, i, j))
             || (RightArrowSettled(c) && RightWordCell(c, k, x, y, i, j))
          then WithFlag(At(g, i, j).flags, IsBlock, false)
          else At(g, i, j).flags
  {
    forall i, j | InGrid(g, i, j)
      ensures At(g2, i, j).flags ==
        var c, k := At(g, x, y), g.settings.minWordLength;
        if (BottomArrowSettled(c) && BottomWordCell(c, k, x, y, i, j))
           || (RightArrowSettled(c) && RightWordCell(c, k, x, y, i, j))
        then WithFlag(At(g, i, j).flags, IsBlock, false)
        else At(g, i, j).flags
    {
      var c, k := At(g, x, y), g.settings.minWordLength;
      assert At(g1, x, y) == c;
      UnionFlags(At(g, i, j).flags, At(g1, i, j).flags, At(g2, i, j).flags, IsBlock,
        BottomArrowSettled(c) && BottomWordCell(c, k, x, y, i, j),
        RightArrowSettled(c) && RightWordCell(c, k, x, y, i, j));
    }
  }

  // Rule 8: blocks cannot touch other blocks.

  predicate Adjacent(x: int, y: int, i: int, j: int) {
    (i == x && (j == y - 1 || j == y + 1)) || (j == y && (i == x - 1 || i == x + 1))
  }

  /** A cell that is surely a block makes its four neighbours non-blocks,
      unless blocks may touch. */
  function Rule8(g: Grid, x: int, y: int): (r: Grid)
    requires WellFormed(g) && InGrid(g, x, y)
    ensures Narrows(g, r)
    ensures var f := At(g, x, y).flags;
      var fires := f.isBlock && !f.isLetter && !g.settings.blocksCanTouch;
      forall i, j :: InGrid(g, i, j) ==>
        At(r, i, j).flags ==
          if fires && Adjacent(x, y, i, j) then WithFlag(At(g, i, j).flags, IsBlock, false)
          else At(g, i, j).flags
  {
    var f := At(g, x, y).flags;
    var fires := f.isBlock && !f.isLetter && !g.settings.blocksCanTouch;
    var g1 := TwoLines(g, IsBlock, fires, x, y - 1, 0, 0, 1, fires, x + 1, y, 0, 0, 1);
    var g2 := TwoLines(g1, IsBlock, fires, x, y + 1, 0, 0, 1, fires, x - 1, y, 0, 0, 1);
    NarrowsTrans(g, g1, g2);
    NeighboursUnion(g, x, y, fires);
    g2
  }

  lemma NeighboursUnion(g: Grid, x: int, y: int, fires: bool)
    requires WellFormed(g)
    ensures var g1 := TwoLines(g, IsBlock, fires, x, y - 1, 0, 0, 1, fires, x + 1, y, 0, 0, 1);
      var g2 := TwoLines(g1, IsBlock, fires, x, y + 1, 0, 0, 1, fires, x - 1, y, 0, 0, 1);
      forall i, j :: InGrid(g, i, j) ==>
        At(g2, i, j).flags ==
          if fires && Adjacent(x, y, i, j) then WithFlag(At(g, i, j).flags, IsBlock, false)
          else At(g, i, j).flags
  {
    var g1 := TwoLines(g, IsBlock, fires, x, y - 1, 0, 0, 1, fires, x + 1, y, 0, 0, 1);
    var g2 := TwoLines(g1, IsBlock, fires, x, y + 1, 0, 0, 1, fires, x - 1, y, 0, 0, 1);
    forall i, j | InGrid(g, i, j)
      ensures At(g2, i, j).flags ==
        if fires && Adjacent(x, y, i, j) then WithFlag(At(g, i, j).flags, IsBlock, false)
        else At(g, i, j).flags
    {
      UnionFlags(At(g, i, j).flags, At(g1, i, j).flags, At(g2, i, j).flags, IsBlock,
        fires && ((i == x && j == y - 1) || (i == x + 1 && j == y)),
        fires && ((i == x && j == y + 1) || (i == x - 1 && j == y)));
    }
  }

  // Rule 9: a cell reached by a single definition depends on it.


  lemma FlagAtInGrid(g: Grid, x: int, y: int, n: FlagName)
    requires Shaped(g) && FlagAt(g, x, y, n)
    ensures InGrid(g, x, y)
  {
  }

  /** The cell at `(x, y)` stops being a letter. */
  function DropLetter(g: Grid, x: int, y: int): (r: Grid)
    requires WellFormed(g) && InGrid(g, x, y)
    ensures Narrows(g, r) && Elsewhere(g, r, x, y)
    ensures At(r, x, y).flags == At(g, x, y).flags.(isLetter := false)
  {
    ClearIf(true, g, x, y, IsLetter)
  }

  /** `r` differs from `g` only in the cell at `(x, y)`, which lost flags
      `n1` and `n2`. */
  ghost predicate Settles(g: Grid, r: Grid, x: int, y: int, n1: FlagName, n2: FlagName)
    requires Shaped(g) && Shaped(r) && g.settings == r.settings
  {
    && InGrid(g, x, y) && Elsewhere(g, r, x, y)
    && At(r, x, y).flags == WithFlag(WithFlag(At(g, x, y).flags, n1, false), n2, false)
  }

  /** Both `c.flag = false` writes that settle one arrow group on the cell at
      `(x, y)`. */
  function KeepOnly(g: Grid, x: int, y: int, n1: FlagName, n2: FlagName): (r: Grid)
    requires WellFormed(g) && InGrid(g, x, y)
    ensures Narrows(g, r) && Settles(g, r, x, y, n1, n2)
  {
    var g1 := ClearIf(true, g, x, y, n1);
    var g2 := ClearIf(true, g1, x, y, n2);
    Chain(g, g1, g2, x, y);
    g2
  }


  /** The lookup both directions of rule 9 share: if the first candidate
      `(px, py)` has arrow `pn`, that cell keeps only it (losing `p1` and
      `p2`); otherwise the same for the second candidate `(qx, qy)`;
      otherwise the cell at `(x, y)` loses `isLetter`. */
  ghost predicate FirstOf(g: Grid, r: Grid, x: int, y: int,
                          px: int, py: int, pn: FlagName, p1: FlagName, p2: FlagName,
                          qx: int, qy: int, qn: FlagName, q1: FlagName, q2: FlagName)
    requires Shaped(g) && Shaped(r) && g.settings == r.settings && InGrid(g, x, y)
  {
    && (FlagAt(g, px, py, pn) ==> Settles(g, r, px, py, p1, p2))
    && (!FlagAt(g, px, py, pn) && FlagAt(g, qx, qy, qn) ==> Settles(g, r, qx, qy, q1, q2))
    && (!FlagAt(g, px, py, pn) && !FlagAt(g, qx, qy, qn) ==>
          Elsewhere(g, r, x, y) && At(r, x, y).flags == At(g, x, y).flags.(isLetter := false))
  }

  /** The candidate chain of rule 9 for given candidates, whose effect
      `FirstOf` describes. */
  function KeepFirstOf(g: Grid, x: int, y: int,
                       px: int, py: int, pn: FlagName, p1: FlagName, p2: FlagName,
                       qx: int, qy: int, qn: FlagName, q1: FlagName, q2: FlagName): (r: Grid)
    requires WellFormed(g) && InGrid(g, x, y)
    ensures Narrows(g, r) && FirstOf(g, r, x, y, px, py, pn, p1, p2, qx, qy, qn, q1, q2)
  {
    if FlagAt(g, px, py, pn) then
      FlagAtInGrid(g, px, py, pn);
      KeepOnly(g, px, py, p1, p2)
    else if FlagAt(g, qx, qy, qn) then
      FlagAtInGrid(g, qx, qy, qn);
      KeepOnly(g, qx, qy, q1, q2)
    else
      DropLetter(g, x, y)
  }

  /** The definition above a cell is either the cell `closestTop + 1` rows
      up with its bottom arrow going down, which then keeps only that arrow,
      or the cell left of the row just below it with its right arrow going
      down, which then keeps only that arrow; when neither exists (or
      `closestTop` is infinite, so that neither cell exists) the cell cannot
      be a letter. */
  function FromTop(g: Grid, x: int, y: int): (r: Grid)
    requires WellFormed(g) && InGrid(g, x, y)
    ensures Narrows(g, r)
    ensures forall n :: At(g, x, y).meas.closestTop == Fin(n) ==>
      FirstOf(g, r, x, y, x, y - 1 - n, BottomDown, BottomAcross, BottomNone,
        x - 1, y - n, RightDown, RightAcross, RightNone)
    ensures At(g, x, y).meas.closestTop.Inf? ==>
      Elsewhere(g, r, x, y) && At(r, x, y).flags == At(g, x, y).flags.(isLetter := false)
  {
    match At(g, x, y).meas.closestTop
    case Inf => DropLetter(g, x, y)
    case Fin(n) =>
      KeepFirstOf(g, x, y, x, y - 1 - n, BottomDown, BottomAcross, BottomNone,
        x - 1, y - n, RightDown, RightAcross, RightNone)
  }

  /** The same from the left: the cell `closestLeft + 1` columns left with
      its right arrow going across, or the cell above the column just right
      of it with its bottom arrow going across. */
  function FromLeft(g: Grid, x: int, y: int): (r: Grid)
    requires WellFormed(g) && InGrid(g, x, y)
    ensures Narrows(g, r)
    ensures forall n :: At(g, x, y).meas.closestLeft == Fin(n) ==>
      FirstOf(g, r, x, y, x - 1 - n, y, RightAcross, RightDown, RightNone,
        x - n, y - 1, BottomAcross, BottomDown, BottomNone)
    ensures At(g, x, y).meas.closestLeft.Inf? ==>
      Elsewhere(g, r, x, y) && At(r, x, y).flags == At(g, x, y).flags.(isLetter := false)
  {
    match At(g, x, y).meas.closestLeft
    case Inf => DropLetter(g, x, y)
    case Fin(n) =>
      KeepFirstOf(g, x, y, x - 1 - n, y, RightAcross, RightDown, RightNone,
        x - n, y - 1, BottomAcross, BottomDown, BottomNone)
  }

  /** When a letter can be reached by exactly one definition (in total, or
      from one side with enough fixed letters before it), that definition is
      forced from the top and then from the left, as far as each side
      applies. */
  predicate Rule9Fires(s: Settings, c: Cell) {
    var m, k := c.meas, s.minWordLength;
    && !c.flags.isBlock
    && (|| NumberOfDefinitions(c) == Fin(1)
        || (m.fixedTop.Plus(1).AtLeast(k) && m.defsTop == Fin(1))
        || (m.fixedLeft.Plus(1).AtLeast(k) && m.defsLeft == Fin(1)))
  }

  predicate Rule9Top(s: Settings, c: Cell) {
    var m := c.meas;
    m.defsTop == Fin(1) && (m.defsLeft == Fin(0) || m.fixedTop.Plus(1).AtLeast(s.minWordLength))
  }

  predicate Rule9Left(s: Settings, c: Cell) {
    var m := c.meas;
    m.defsLeft == Fin(1) && (m.defsTop == Fin(0) || m.fixedLeft.Plus(1).AtLeast(s.minWordLength))
  }

  function Rule9(g: Grid, x: int, y: int): (r: Grid)
    requires WellFormed(g) && InGrid(g, x, y)
    ensures Narrows(g, r)
    ensures var c := At(g, x, y);
      !(Rule9Fires(g.settings, c) && (Rule9Top(g.settings, c) || Rule9Left(g.settings, c))) ==> r == g
    ensures var c := At(g, x, y);
      Rule9Fires(g.settings, c) && Rule9Top(g.settings, c) && !Rule9Left(g.settings, c) ==>
        r == FromTop(g, x, y)
    ensures var c := At(g, x, y);
      Rule9Fires(g.settings, c) && !Rule9Top(g.settings, c) && Rule9Left(g.settings, c) ==>
        r == FromLeft(g, x, y)
    ensures var c := At(g, x, y);
      Rule9Fires(g.settings, c) && Rule9Top(g.settings, c) && Rule9Left(g.settings, c) ==>
        WellFormed(FromTop(g, x, y)) && InGrid(FromTop(g, x, y), x, y) && r == FromLeft(FromTop(g, x, y), x, y)
  {
    var c := At(g, x, y);
    if Rule9Fires(g.settings, c) then
      var g1 := if Rule9Top(g.settings, c) then FromTop(g, x, y) else (NarrowsRefl(g); g);
      var g2 := if Rule9Left(g.settings, c) then FromLeft(g1, x, y) else (NarrowsRefl(g1); g1);
      NarrowsTrans(g, g1, g2);
      g2
    else
      NarrowsRefl(g);
      g
  }

  // Rule 10: no block between a cell and its closest definition.

  predicate Rule10Up(s: Settings, c: Cell) {
    var m := c.meas;
    && !c.flags.isBlock
    && m.closestTop.Below(s.maxWordLength)
    && (m.defsLeft == Fin(0) || m.fixedTop.Plus(1).AtLeast(s.minWordLength))
  }

  predicate Rule10Left(s: Settings, c: Cell) {
    var m := c.meas;
    && !c.flags.isBlock
    && m.closestLeft.Below(s.maxWordLength)
    && (m.defsTop == Fin(0) || m.fixedLeft.Plus(1).AtLeast(s.minWordLength))
  }

  /** The `closestTop` cells directly above a letter that must be reached
      from its closest definition above lose `isBlock`, and likewise the
      `closestLeft` cells directly to its left. */
  function Rule10(g: Grid, x: int, y: int): (r: Grid)
    requires WellFormed(g) && InGrid(g, x, y)
    ensures Narrows(g, r)
    ensures var c, s := At(g, x, y), g.settings;
      forall i, j :: InGrid(g, i, j) ==>
        At(r, i, j).flags ==
          if (Rule10Up(s, c) && i == x && y - c.meas.closestTop.n <= j < y)
             || (Rule10Left(s, c) && j == y && x - c.meas.closestLeft.n <= i < x)
          then WithFlag(At(g, i, j).flags, IsBlock, false)
          else At(g, i, j).flags
  {
    var c, s := At(g, x, y), g.settings;
    var up, left := Rule10Up(s, c), Rule10Left(s, c);
    TwoLines(g, IsBlock,
      up, x, y - 1, 0, -1, if up then c.meas.closestTop.n else 0,
      left, x - 1, y, -1, 0, if left then c.meas.closestLeft.n else 0)
  }

  // Rule 11: a word cannot get longer than the longest word.

  /** A cell after at least `minWordLength - 1` fixed letters whose closest
      definition is further than `maxWordLength` cannot be a letter, from
      either side. */
  function Rule11(g: Grid, x: int, y: int): (r: Grid)
    requires WellFormed(g) && InGrid(g, x, y)
    ensures Narrows(g, r) && Elsewhere(g, r, x, y)
    ensures var m, s, f := At(g, x, y).meas, g.settings, At(g, x, y).flags;
      At(r, x, y).flags == f.(isLetter := f.isLetter
        && !(m.fixedTop.Plus(1).AtLeast(s.minWordLength) && m.closestTop.Above(s.maxWordLength))
        && !(m.fixedLeft.Plus(1).AtLeast(s.minWordLength) && m.closestLeft.Above(s.maxWordLength)))
  {
    var m, s := At(g, x, y).meas, g.settings;
    var top := m.fixedTop.Plus(1).AtLeast(s.minWordLength) && m.closestTop.Above(s.maxWordLength);
    var left := m.fixedLeft.Plus(1).AtLeast(s.minWordLength) && m.closestLeft.Above(s.maxWordLength);
    var g1 := ClearIf(top, g, x, y, IsLetter);
    var g2 := ClearIf(left, g1, x, y, IsLetter);
    Chain(g, g1, g2, x, y);
    UnionFlags(At(g, x, y).flags, At(g1, x, y).flags, At(g2, x, y).flags, IsLetter, top, left);
    g2
  }

  // Rule 12: a word must pass through every letter.

  /** A letter whose horizontal run is too short for a word needs a
      vertical word. */
  predicate NeedsVertical(s: Settings, c: Cell) {
    var m := c.meas;
    c.flags.isLetter && !c.flags.isBlock
      && m.lettersLeft.Plus(1).Add(m.lettersRight).Below(s.minWordLength)
  }

  predicate NeedsHorizontal(s: Settings, c: Cell) {
    var m := c.meas;
    c.flags.isLetter && !c.flags.isBlock
      && m.lettersTop.Plus(1).Add(m.lettersBottom).Below(s.minWordLength)
  }

  /** A letter that cannot be part of a horizontal word makes the cells
      below it that a vertical word through it must still cover non-blocks
      (`minWordLength - lettersTop - 1` of them), and the same number above
      it counted from `lettersBottom`; symmetrically for a letter that cannot
      be part of a vertical word. */
  function Rule12(g: Grid, x: int, y: int): (r: Grid)
    requires WellFormed(g) && InGrid(g, x, y)
    ensures Narrows(g, r)
    ensures var c, k := At(g, x, y), g.settings.minWordLength;
      var m := c.meas;
      forall i, j :: InGrid(g, i, j) ==>
        At(r, i, j).flags ==
          if (NeedsVertical(g.settings, c) && i == x
                && (y < j <= y + LoopCountFromOne(k, m.lettersTop)
                    || y - LoopCountFromOne(k, m.lettersBottom) <= j < y))
             || (NeedsHorizontal(g.settings, c) && j == y
                && (x < i <= x + LoopCountFromOne(k, m.lettersLeft)
                    || x - LoopCountFromOne(k, m.lettersRight) <= i < x))
          then WithFlag(At(g, i, j).flags, IsBlock, false)
          else At(g, i, j).flags
  {
    var c, k := At(g, x, y), g.settings.minWordLength;
    var m, v, h := c.meas, NeedsVertical(g.settings, c), NeedsHorizontal(g.settings, c);
    var down, up := LoopCountFromOne(k, m.lettersTop), LoopCountFromOne(k, m.lettersBottom);
    var right, left := LoopCountFromOne(k, m.lettersLeft), LoopCountFromOne(k, m.lettersRight);
    var g1 := AlongColumn(g, x, y, v, down, up);
    var g2 := AlongRow(g1, x, y, h, right, left);
    NarrowsTrans(g, g1, g2);
    CrossUnion(g, g1, g2, x, y, v, down, up, h, right, left);
    g2
  }

  /** The two vertical loops of rule 12: `down` cells below the letter and
      `up` cells above it. */
  function AlongColumn(g: Grid, x: int, y: int, v: bool, down: nat, up: nat): (r: Grid)
    requires WellFormed(g)
    ensures Narrows(g, r)
    ensures forall i, j :: InGrid(g, i, j) ==>
      At(r, i, j).flags ==
        if v && i == x && (y < j <= y + down || y - up <= j < y)
        then WithFlag(At(g, i, j).flags, IsBlock, false)
        else At(g, i, j).flags
    ensures InGrid(g, x, y) ==> At(r, x, y) == At(g, x, y)
  {
    TwoLines(g, IsBlock, v, x, y + 1, 0, 1, down, v, x, y - 1, 0, -1, up)
  }

  /** The two horizontal loops of rule 12: `right` cells right of the
      letter and `left` cells left of it. */
  function AlongRow(g: Grid, x: int, y: int, h: bool, right: nat, left: nat): (r: Grid)
    requires WellFormed(g)
    ensures Narrows(g, r)
    ensures forall i, j :: InGrid(g, i, j) ==>
      At(r, i, j).flags ==
        if h && j == y && (x < i <= x + right || x - left <= i < x)
        then WithFlag(At(g, i, j).flags, IsBlock, false)
        else At(g, i, j).flags
  {
    TwoLines(g, IsBlock, h, x + 1, y, 1, 0, right, h, x - 1, y, -1, 0, left)
  }

  lemma CrossUnion(g: Grid, g1: Grid, g2: Grid, x: int, y: int,
                   v: bool, down: nat, up: nat, h: bool, right: nat, left: nat)
    requires Shaped(g) && Shaped(g1) && g1.settings == g.settings && InGrid(g, x, y)
    requires forall i, j :: InGrid(g, i, j) ==>
      At(g1, i, j).flags ==
        if v && i == x && (y < j <= y + down || y - up <= j < y)
        then WithFlag(At(g, i, j).flags, IsBlock, false)
        else At(g, i, j).flags
    requires At(g1, x, y) == At(g, x, y)
    requires Shaped(g2) && g2.settings == g.settings
    requires forall i, j :: InGrid(g1, i, j) ==>
      At(g2, i, j).flags ==
        if h && j == y && (x < i <= x + right || x - left <= i < x)
        then WithFlag(At(g1, i, j).flags, IsBlock, false)
        else At(g1, i, j).flags
    requires var c := At(g, x, y);
      && v == NeedsVertical(g.settings, c) && h == NeedsHorizontal(g.settings, c)
      && down == LoopCountFromOne(g.settings.minWordLength, c.meas.lettersTop)
      && up == LoopCountFromOne(g.settings.minWordLength, c.meas.lettersBottom)
      && right == LoopCountFromOne(g.settings.minWordLength, c.meas.lettersLeft)
      && left == LoopCountFromOne(g.settings.minWordLength, c.meas.lettersRight)
    ensures var c, k := At(g, x, y), g.settings.minWordLength;
      var m := c.meas;
      forall i, j :: InGrid(g, i, j) ==>
        At(g2, i, j).flags ==
          if (NeedsVertical(g.settings, c) && i == x
                && (y < j <= y + LoopCountFromOne(k, m.lettersTop)
                    || y - LoopCountFromOne(k, m.lettersBottom) <= j < y))
             || (NeedsHorizontal(g.settings, c) && j == y
                && (x < i <= x + LoopCountFromOne(k, m.lettersLeft)
                    || x - LoopCountFromOne(k, m.lettersRight) <= i < x))
          then WithFlag(At(g, i, j).flags, IsBlock, false)
          else At(g, i, j).flags
  {
    forall i, j | InGrid(g, i, j)
      ensures At(g2, i, j).flags ==
        if (v && i == x && (y < j <= y + down || y - up <= j < y))
           || (h && j == y && (x < i <= x + right || x - left <= i < x))
        then WithFlag(At(g, i, j).flags, IsBlock, false)
        else At(g, i, j).flags
    {
      UnionFlags(At(g, i, j).flags, At(g1, i, j).flags, At(g2, i, j).flags, IsBlock,
        v && i == x && (y < j <= y + down || y - up <= j < y),
        h && j == y && (x < i <= x + right || x - left <= i < x));
    }
  }

  // The rule list.

  const RuleCount := 12

  /** `rules[i].exec(cell, grid)`, for the cell at `(x, y)`; only rule 7
      (index 6) can throw. */
  function ApplyRule(i: nat, g: Grid, x: int, y: int): (r: Step)
    requires i < RuleCount && WellFormed(g) && InGrid(g, x, y)
    ensures Narrows(g, r.g)
    ensures r.Threw? ==> i == 6
  {
    match i
    case 0 => Next(Rule1(g, x, y))
    case 1 => Next(Rule2(g, x, y))
    case 2 => Next(Rule3(g, x, y))
    case 3 => Next(Rule4(g, x, y))
    case 4 => Next(Rule5(g, x, y))
    case 5 => Next(Rule6(g, x, y))
    case 6 => Rule7(g, x, y)
    case 7 => Next(Rule8(g, x, y))
    case 8 => Next(Rule9(g, x, y))
    case 9 => Next(Rule10(g, x, y))
    case 10 => Next(Rule11(g, x, y))
    case _ => Next(Rule12(g, x, y))
  }
}

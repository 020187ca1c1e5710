/** `Grid.solve`: the dirty-queue fixpoint loop. A cell is taken from the
    front of the queue and the rules run on it in order; the first rule that
    changes anything (or finds `updated` already raised) makes the grid
    re-measure and puts the cell back at the end of the queue. */
module Solving {
  import opened Base
  import opened Cells
  import opened Grids
  import opened Measuring
  import opened Rules

  /** How a scan of the rule list over one cell ended: every rule ran
      without raising `updated`, a rule raised it (the `break`), or rule 7
      threw. */
  datatype Outcome = Done(g: Grid) | Restart(g: Grid) | Crash(g: Grid)

  /** What `solve` returns: `true`, `false` after the cell it had just
      examined turned out contradictory, or the exception of rule 7. */
  datatype Verdict = Solved(g: Grid) | Unsolvable(g: Grid, at: Pos) | Thrown(g: Grid)

  /** The rules tried in order on the cell at `p`, from rule `i` on. */
  function RunRules(g: Grid, p: Pos, i: nat): (r: Outcome)
    requires WellFormed(g) && InGrid(g, p.x, p.y) && i <= RuleCount
    ensures Narrows(g, r.g)
    ensures r.Done? ==> r.g == g && (i < RuleCount ==> !g.updated)
    ensures r.Restart? ==> r.g.updated
    ensures r.Crash? ==> i <= 6
    decreases RuleCount - i
  {
    if i == RuleCount then Done(g)
    else
      match ApplyRule(i, g, p.x, p.y)
      case Threw(h) => Crash(h)
      case Next(h) =>
        if h.updated then Restart(h)
        else
          var r := RunRules(h, p, i + 1);
          NarrowsTrans(g, h, r.g);
          r
  }

  /** Narrowing can only add contradictions: a cell with an error keeps it. */
  lemma ErrorPersists(g: Grid, r: Grid, x: int, y: int)
    requires FlagsBelow(r, g) && InGrid(g, x, y)
    requires HasError(At(g, x, y))
    ensures HasError(At(r, x, y))
  {
    var a, b := At(r, x, y).flags, At(g, x, y).flags;
    assert FlagsLe(a, b);
    assert Flag(a, IsLetter) ==> Flag(b, IsLetter);
    assert Flag(a, IsBlock) ==> Flag(b, IsBlock);
    assert Flag(a, BottomDown) ==> Flag(b, BottomDown);
    assert Flag(a, BottomAcross) ==> Flag(b, BottomAcross);
    assert Flag(a, BottomNone) ==> Flag(b, BottomNone);
    assert Flag(a, RightDown) ==> Flag(b, RightDown);
    assert Flag(a, RightAcross) ==> Flag(b, RightAcross);
    assert Flag(a, RightNone) ==> Flag(b, RightNone);
  }

  /** What one turn of the `while` loop leaves: the grid to go on with, or
      the value `solve` returns. */
  datatype Turn = Continue(g: Grid) | Stop(v: Verdict)

  /** The loop's measure goes down: fewer true flags, or as many with
      `updated` lowered, or as many and `updated` unchanged with a shorter
      queue. */
  predicate Progress(g: Grid, r: Grid) {
    || TrueCount(r) < TrueCount(g)
    || (TrueCount(r) == TrueCount(g) && !r.updated && g.updated)
    || (TrueCount(r) == TrueCount(g) && r.updated == g.updated && |r.dirty| < |g.dirty|)
  }

  lemma LoweredIsFixed(h: Grid)
    requires WellFormed(h)
    ensures Settled(h) ==> MeasureGrid(h.(updated := false)) == h.(updated := false)
  {
    if Settled(h) {
      SettledLowered(h);
      SettledIsFixed(h.(updated := false));
    }
  }

  /** The `break` branch: lower `updated`, re-measure, and queue the cell
      again. */
  function Remeasure(h: Grid, p: Pos): (r: Grid)
    requires WellFormed(h) && InGrid(h, p.x, p.y)
    ensures Settled(r) && r.settings == h.settings && r.conflicts == h.conflicts
    ensures FlagsBelow(r, h) && TrueCount(r) == TrueCount(h) && p in r.dirty
    ensures Settled(h) ==> r == h.(updated := false, dirty := AddDirty(h.dirty, p))
  {
    var lowered := h.(updated := false);
    var measured := MeasureGrid(lowered);
    MeasureKeepsCount(lowered);
    LoweredIsFixed(h);
    LoweredBelow(h, measured);
    Requeue(measured, p)
  }

  lemma LoweredBelow(h: Grid, m: Grid)
    requires WellFormed(h) && m == MeasureGrid(h.(updated := false))
    ensures FlagsBelow(m, h) && TrueCount(m) == TrueCount(h)
  {
    var lowered := h.(updated := false);
    MeasureKeepsCount(lowered);
    assert TrueCount(lowered) == TrueCount(h);
    forall x, y | InGrid(h, x, y)
      ensures FlagsLe(At(m, x, y).flags, At(h, x, y).flags)
    {
      assert InGrid(lowered, x, y) && At(lowered, x, y) == At(h, x, y);
    }
  }

  /** Queues a cell again, on a measured grid. */
  function Requeue(m: Grid, p: Pos): (r: Grid)
    requires Settled(m) && InGrid(m, p.x, p.y)
    ensures r == m.(dirty := AddDirty(m.dirty, p))
    ensures Settled(r) && p in r.dirty
    ensures FlagsBelow(r, m) && FlagsBelow(m, r) && TrueCount(r) == TrueCount(m)
  {
    var r := m.(dirty := AddDirty(m.dirty, p));
    assert DirtyInGrid(r);
    SettledIgnoresQueue(m, r.dirty, m.updated);
    r
  }

  /** Takes the first queued cell off the queue. */
  function Pop(g: Grid): (r: Grid)
    requires Settled(g) && g.dirty != []
    ensures r == g.(dirty := g.dirty[1..])
    ensures Settled(r) && InGrid(r, g.dirty[0].x, g.dirty[0].y) && g.dirty[0] !in r.dirty
    ensures FlagsBelow(r, g) && TrueCount(r) == TrueCount(g)
  {
    var r := g.(dirty := g.dirty[1..]);
    assert g.dirty == [g.dirty[0]] + r.dirty;
    SettledIgnoresQueue(g, r.dirty, g.updated);
    r
  }

  /** The end of a turn that did not throw: re-measure after a `break`, and
      the loop's measure has gone down since before the cell was taken. */
  function Settle(g: Grid, popped: Grid, o: Outcome, p: Pos): (r: Grid)
    requires Settled(g) && g.dirty != [] && p == g.dirty[0] && popped == Pop(g)
    requires Narrows(popped, o.g) && (o.Done? || o.Restart?)
    requires o.Done? ==> o.g == popped && !popped.updated
    requires o.Restart? ==> o.g.updated
    ensures Settled(r) && r.settings == g.settings && r.conflicts == g.conflicts
    ensures FlagsBelow(r, g) && Progress(g, r) && (r.dirty == [] ==> !r.updated)
  {
    var next := if o.Restart? then Remeasure(o.g, p) else o.g;
    FlagsBelowTrans(next, o.g, popped);
    FlagsBelowTrans(next, popped, g);
    FlagsBelowCount(next, g);
    next
  }

  /** One turn of the loop: take the first queued cell, run the rules on it,
      re-measure if one of them fired, then test the cell for errors. */
  function Visit(g: Grid): (t: Turn)
    requires Settled(g) && g.dirty != []
    ensures t.Continue? ==> && Settled(t.g) && t.g.settings == g.settings && t.g.conflicts == g.conflicts
                            && FlagsBelow(t.g, g) && Progress(g, t.g)
                            && (t.g.dirty == [] ==> !t.g.updated)
    ensures t.Stop? ==> WellFormed(t.v.g) && t.v.g.settings == g.settings && t.v.g.conflicts == g.conflicts
                        && FlagsBelow(t.v.g, g) && !t.v.Solved?
    ensures t.Stop? && t.v.Unsolvable? ==> InGrid(t.v.g, t.v.at.x, t.v.at.y)
                                           && HasError(At(t.v.g, t.v.at.x, t.v.at.y))
  {
    var p := g.dirty[0];
    var popped := Pop(g);
    var o := RunRules(popped, p, 0);
    if o.Crash? then
      FlagsBelowTrans(o.g, popped, g);
      Stop(Thrown(o.g))
    else
      var next := Settle(g, popped, o, p);
      if HasError(At(next, p.x, p.y)) then Stop(Unsolvable(next, p))
      else Continue(next)
  }

  /** Before the loop: measure once and lower `updated`. */
  function Prepare(g0: Grid): (r: Grid)
    requires WellFormed(g0)
    ensures r == MeasureGrid(g0).(updated := false)
    ensures Settled(r) && !r.updated && r.settings == g0.settings && r.conflicts == g0.conflicts
    ensures FlagsBelow(r, g0)
  {
    var m := MeasureGrid(g0);
    MeasureKeepsCount(g0);
    var r := m.(updated := false);
    SettledLowered(m);
    FlagsBelowSameCells(r, m, g0);
    r
  }

  /** `grid.solve()`. */
  method Solve(g0: Grid) returns (v: Verdict)
    requires WellFormed(g0)
    ensures WellFormed(v.g) && v.g.settings == g0.settings && v.g.conflicts == g0.conflicts
    ensures FlagsBelow(v.g, g0) && TrueCount(v.g) <= TrueCount(g0)
    ensures v.Solved? ==> v.g.dirty == [] && !v.g.updated && Settled(v.g)
    ensures v.Unsolvable? ==> InGrid(v.g, v.at.x, v.at.y) && HasError(At(v.g, v.at.x, v.at.y))
    ensures g0.dirty == [] && Settled(g0) ==> v == Solved(g0.(updated := false))
  {
    if g0.dirty == [] && Settled(g0) {
      SettledIsFixed(g0);
    }
    var g := Prepare(g0);
    while g.dirty != []
      invariant Settled(g) && g.settings == g0.settings && g.conflicts == g0.conflicts
      invariant FlagsBelow(g, g0)
      invariant g.dirty == [] ==> !g.updated
      invariant g0.dirty == [] && Settled(g0) ==> g == g0.(updated := false)
      decreases TrueCount(g), B2N(g.updated), |g.dirty|
    {
      var t := Visit(g);
      if t.Stop? {
        FlagsBelowTrans(t.v.g, g, g0);
        FlagsBelowCount(t.v.g, g0);
        return t.v;
      }
      FlagsBelowTrans(t.g, g, g0);
      g := t.g;
    }
    FlagsBelowCount(g, g0);
    return Solved(g);
  }
}

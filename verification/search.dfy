/** The search on top of `solve`: which undecided cell to branch on
    (`leastEntropyNonFixedCell`), the snapshot taken before a branch
    (`saveState`/`restoreState`), and `collapse`, the depth-first search over
    the two type choices of that cell. */
module Search {
  import opened Base
  import opened Config
  import opened Cells
  import opened Grids
  import opened Measuring
  import opened Solving

  // Choosing the cell to branch on.

  /** The number of backtracks recorded for a cell, 0 when none is. */
  function Conflicts(g: Grid, c: Cell): nat {
    CountAt(g.conflicts, Pos(c.x, c.y))
  }

  /** The count stored for a position, 0 when it has none. */
  function CountAt(m: map<Pos, nat>, p: Pos): nat {
    if p in m then m[p] else 0
  }

  /** Among the undecided cells of `cs`, the one at `k` has the largest
      positive conflict count, and every undecided cell before it a smaller
      one. */
  ghost predicate FirstMostConflicted(g: Grid, cs: seq<Cell>, k: int) {
    && 0 <= k < |cs| && !TypeFixed(cs[k]) && Conflicts(g, cs[k]) > 0
    && (forall j :: 0 <= j < |cs| && !TypeFixed(cs[j]) ==> Conflicts(g, cs[j]) <= Conflicts(g, cs[k]))
    && (forall j :: 0 <= j < k && !TypeFixed(cs[j]) ==> Conflicts(g, cs[j]) < Conflicts(g, cs[k]))
  }

  /** No undecided cell of `cs` has caused a backtrack yet. */
  ghost predicate NoneConflicted(g: Grid, cs: seq<Cell>) {
    forall j :: 0 <= j < |cs| && !TypeFixed(cs[j]) ==> Conflicts(g, cs[j]) == 0
  }

  /** Among the undecided cells of `cs`, the one at `k` has the lowest
      entropy, and every undecided cell before it a higher one. */
  ghost predicate FirstLeastEntropy(s: Settings, cs: seq<Cell>, k: int)
    requires Valid(s)
  {
    && 0 <= k < |cs| && !TypeFixed(cs[k])
    && (forall j :: 0 <= j < |cs| && !TypeFixed(cs[j]) ==> Entropy(s, cs[k]) <= Entropy(s, cs[j]))
    && (forall j :: 0 <= j < k && !TypeFixed(cs[j]) ==> Entropy(s, cs[k]) < Entropy(s, cs[j]))
  }

  /** The cell the search should branch on. */
  ghost predicate BestCell(g: Grid, k: int)
    requires Valid(g.settings)
  {
    var cs := CellsOf(g);
    if NoneConflicted(g, cs) then FirstLeastEntropy(g.settings, cs, k)
    else FirstMostConflicted(g, cs, k)
  }

  /** The choice is determined: at most one position fits it. */
  lemma BestCellUnique(g: Grid, k1: int, k2: int)
    requires Valid(g.settings) && BestCell(g, k1) && BestCell(g, k2)
    ensures k1 == k2
  {
  }

  /** `leastEntropyNonFixedCell()`: the cell with the most backtracks when
      some undecided cell has any, else the one with the least entropy, the
      first in `cells` order on ties; `null` when every cell is decided. */
  method LeastEntropyNonFixedCell(g: Grid) returns (r: Option<Cell>)
    requires WellFormed(g)
    ensures r.None? <==> forall x, y :: InGrid(g, x, y) ==> TypeFixed(At(g, x, y))
    ensures r.Some? ==> exists k :: BestCell(g, k) && CellsOf(g)[k] == r.value
  {
    var cs := CellsOf(g);
    var best := -1;
    var most := 0;
    for i := 0 to |cs|
      invariant best == -1 ==> most == 0 && forall j :: 0 <= j < i && !TypeFixed(cs[j]) ==> Conflicts(g, cs[j]) == 0
      invariant best != -1 ==> && 0 <= best < i && !TypeFixed(cs[best])
                               && most == Conflicts(g, cs[best]) > 0
                               && (forall j :: 0 <= j < i && !TypeFixed(cs[j]) ==> Conflicts(g, cs[j]) <= most)
                               && (forall j :: 0 <= j < best && !TypeFixed(cs[j]) ==> Conflicts(g, cs[j]) < most)
    {
      var e := Conflicts(g, cs[i]);
      if e > most && !TypeFixed(cs[i]) {
        most := e;
        best := i;
      }
    }
    if best != -1 {
      assert FirstMostConflicted(g, cs, best);
      assert !NoneConflicted(g, cs);
      Chosen(g, cs[best]);
      return Some(cs[best]);
    }
    var least := 0.0;
    for i := 0 to |cs|
      invariant best == -1 ==> forall j :: 0 <= j < i ==> TypeFixed(cs[j])
      invariant best != -1 ==> && 0 <= best < i && !TypeFixed(cs[best])
                               && least == Entropy(g.settings, cs[best])
                               && (forall j :: 0 <= j < i && !TypeFixed(cs[j]) ==> least <= Entropy(g.settings, cs[j]))
                               && (forall j :: 0 <= j < best && !TypeFixed(cs[j]) ==> least < Entropy(g.settings, cs[j]))
    {
      var e := Entropy(g.settings, cs[i]);
      if (best == -1 || e < least) && !TypeFixed(cs[i]) {
        least := e;
        best := i;
      }
    }
    if best == -1 {
      AllDecided(g);
      return None;
    }
    assert FirstLeastEntropy(g.settings, cs, best);
    Chosen(g, cs[best]);
    return Some(cs[best]);
  }

  /** An undecided cell of `cells` is an undecided cell of the grid. */
  lemma Chosen(g: Grid, c: Cell)
    requires Shaped(g) && c in CellsOf(g) && !TypeFixed(c)
    ensures !forall x, y :: InGrid(g, x, y) ==> TypeFixed(At(g, x, y))
  {
    CellsOfGrid(g, c);
    var x, y :| InGrid(g, x, y) && At(g, x, y) == c;
  }

  /** When every entry of `cells` is decided, so is every cell. */
  lemma AllDecided(g: Grid)
    requires Shaped(g) && forall j :: 0 <= j < |CellsOf(g)| ==> TypeFixed(CellsOf(g)[j])
    ensures forall x, y :: InGrid(g, x, y) ==> TypeFixed(At(g, x, y))
  {
    forall x, y | InGrid(g, x, y)
      ensures TypeFixed(At(g, x, y))
    {
      CellsOfGrid(g, At(g, x, y));
    }
  }

  /** The chosen cell sits at its own coordinates and both its type flags
      are still raised. */
  lemma PickedCell(g: Grid, c: Cell)
    requires WellFormed(g) && c in CellsOf(g) && !TypeFixed(c)
    ensures InGrid(g, c.x, c.y) && At(g, c.x, c.y) == c
    ensures c.flags.isLetter && c.flags.isBlock
  {
    CellsOfGrid(g, c);
    var x, y :| InGrid(g, x, y) && At(g, x, y) == c;
  }

  // Snapshots.

  /** What `saveState()` keeps: every cell (as the JSON text of the grid)
      and the queue. The `updated` flag and the conflict counts are not
      part of it. */
  datatype Snapshot = Snapshot(cols: seq<seq<Cell>>, dirty: seq<Pos>)

  /** `saveState()`: restoring its snapshot right away changes nothing. */
  function SaveState(g: Grid): (s: Snapshot)
    ensures RestoreState(g, s) == g
  {
    Snapshot(g.cols, g.dirty)
  }

  /** `restoreState(state)`: every cell field is written back directly,
      with no notification, and the queue is replaced. */
  function RestoreState(g: Grid, s: Snapshot): (r: Grid)
    ensures r.settings == g.settings && r.conflicts == g.conflicts && r.updated == g.updated
    ensures r.cols == s.cols && r.dirty == s.dirty
  {
    g.(cols := s.cols, dirty := s.dirty)
  }

  /** Restoring a snapshot undoes everything done to the cells and the
      queue since it was taken, and keeps the conflict counts and the
      `updated` flag of the moment. */
  lemma RestoreSaved(g: Grid, h: Grid)
    requires WellFormed(g) && h.settings == g.settings
    ensures RestoreState(h, SaveState(g)) == g.(conflicts := h.conflicts, updated := h.updated)
    ensures WellFormed(RestoreState(h, SaveState(g)))
    ensures TrueCount(RestoreState(h, SaveState(g))) == TrueCount(g)
  {
    assert RestoreState(h, SaveState(g)).cols == g.cols;
  }

  // The search.

  /** One more backtrack counted for the cell at `p`. */
  function RecordConflict(g: Grid, p: Pos): (r: Grid)
    ensures p in r.conflicts && r.conflicts[p] == (if p in g.conflicts then g.conflicts[p] else 0) + 1
    ensures forall q :: q != p ==> (q in r.conflicts <==> q in g.conflicts)
    ensures forall q :: q != p && q in g.conflicts ==> r.conflicts[q] == g.conflicts[q]
    ensures r.cols == g.cols && r.dirty == g.dirty && r.settings == g.settings && r.updated == g.updated
    ensures WellFormed(g) ==> WellFormed(r) && FlagsBelow(r, g)
  {
    var n := if p in g.conflicts then g.conflicts[p] else 0;
    g.(conflicts := g.conflicts[p := n + 1])
  }

  /** Conflict counts only ever go up. */
  ghost predicate ConflictsGrow(a: map<Pos, nat>, b: map<Pos, nat>) {
    forall p :: p in a ==> p in b && a[p] <= b[p]
  }

  /** What `collapse` resolves to: `true`, `false`, or the exception of
      rule 7. */
  datatype Result = Found(g: Grid) | Failed(g: Grid) | Raised(g: Grid)

  /** Every cell is a sure letter or a sure block. */
  ghost predicate AllFixed(g: Grid)
    requires Shaped(g)
  {
    forall x, y :: InGrid(g, x, y) ==> TypeFixed(At(g, x, y))
  }

  /** The backtrack counts in `a` and `b` agree on every cell that is
      already a sure letter or a sure block in `g`. */
  ghost predicate KeepsFixed(g: Grid, a: map<Pos, nat>, b: map<Pos, nat>)
    requires Shaped(g)
  {
    forall x, y :: InGrid(g, x, y) && TypeFixed(At(g, x, y)) ==> CountAt(a, Pos(x, y)) == CountAt(b, Pos(x, y))
  }

  /** Narrowing never undoes a committed type. */
  lemma FixedStays(r: Grid, g: Grid)
    requires FlagsBelow(r, g)
    ensures forall x, y :: InGrid(g, x, y) && TypeFixed(At(g, x, y)) ==> TypeFixed(At(r, x, y))
  {
    forall x, y | InGrid(g, x, y) && TypeFixed(At(g, x, y))
      ensures TypeFixed(At(r, x, y))
    {
      assert Flag(At(r, x, y).flags, IsLetter) ==> Flag(At(g, x, y).flags, IsLetter);
      assert Flag(At(r, x, y).flags, IsBlock) ==> Flag(At(g, x, y).flags, IsBlock);
    }
  }

  /** Counts kept on the committed cells of `h`, then on those of a
      narrower `g`, are kept on those of `h` throughout. */
  lemma KeepsTrans(h: Grid, g: Grid, m0: map<Pos, nat>, m1: map<Pos, nat>, m2: map<Pos, nat>)
    requires FlagsBelow(g, h) && KeepsFixed(h, m0, m1) && KeepsFixed(g, m1, m2)
    ensures KeepsFixed(h, m0, m2)
  {
    FixedStays(g, h);
  }

  /** Counting a backtrack for a cell still undecided in `h` keeps the
      counts of the committed cells of `h`. */
  lemma KeepsRecord(h: Grid, m: map<Pos, nat>, g: Grid, p: Pos)
    requires Shaped(h) && KeepsFixed(h, m, g.conflicts)
    requires InGrid(h, p.x, p.y) && !TypeFixed(At(h, p.x, p.y))
    ensures KeepsFixed(h, m, RecordConflict(g, p).conflicts)
  {
  }

  lemma GrowTrans(a: map<Pos, nat>, b: map<Pos, nat>, c: map<Pos, nat>)
    requires ConflictsGrow(a, b) && ConflictsGrow(b, c)
    ensures ConflictsGrow(a, c)
  {
  }

  /** `cell.isLetter = false` or `cell.isBlock = false` on an undecided
      cell: a real narrowing step. */
  function Branch(h: Grid, c: Cell, n: FlagName): (r: Grid)
    requires WellFormed(h) && c in CellsOf(h) && !TypeFixed(c)
    requires n == IsLetter || n == IsBlock
    ensures WellFormed(r) && r.settings == h.settings && r.conflicts == h.conflicts
    ensures FlagsBelow(r, h) && TrueCount(r) < TrueCount(h)
    ensures InGrid(r, c.x, c.y) && !Flag(At(r, c.x, c.y).flags, n)
  {
    PickedCell(h, c);
    var r := Clear(h, c.x, c.y, n);
    assert At(r, c.x, c.y) != At(h, c.x, c.y);
    r
  }

  /** `restoreState(state)` after the first branch failed, then the opposite
      choice. */
  function Retry(h: Grid, failed: Grid, c: Cell, n: FlagName): (r: Grid)
    requires WellFormed(h) && c in CellsOf(h) && !TypeFixed(c)
    requires n == IsLetter || n == IsBlock
    requires failed.settings == h.settings
    ensures WellFormed(r) && r.settings == h.settings && r.conflicts == failed.conflicts
    ensures FlagsBelow(r, h) && TrueCount(r) < TrueCount(h)
    ensures InGrid(r, c.x, c.y) && !Flag(At(r, c.x, c.y).flags, n)
  {
    RestoreSaved(h, failed);
    var back := RestoreState(failed, SaveState(h));
    assert CellsOf(back) == CellsOf(h);
    var r := Branch(back, c, n);
    FlagsBelowTrans(r, back, h);
    r
  }

  /** `collapse()`. `Math.random()` is the oracle `draws`, read at index
      `k` and onwards; the second result is the next unread index. */
  method Collapse(g: Grid, draws: nat -> real, k: nat) returns (res: Result, next: nat)
    requires WellFormed(g)
    ensures WellFormed(res.g) && res.g.settings == g.settings
    ensures FlagsBelow(res.g, g)
    ensures ConflictsGrow(g.conflicts, res.g.conflicts)
    ensures KeepsFixed(g, g.conflicts, res.g.conflicts)
    ensures res.Found? ==> AllFixed(res.g) && res.g.dirty == [] && Settled(res.g)
    ensures next >= k
    decreases TrueCount(g), 2
  {
    var v := Solve(g);
    if v.Thrown? {
      return Raised(v.g), k;
    }
    if v.Unsolvable? {
      return Failed(v.g), k;
    }
    var h := v.g;
    var choice := LeastEntropyNonFixedCell(h);
    if choice.None? {
      return Found(h), k;
    }
    res, next := Explore(h, choice.value, draws, k);
    FlagsBelowTrans(res.g, h, g);
    KeepsTrans(g, h, g.conflicts, h.conflicts, res.g.conflicts);
  }

  /** The branch of `collapse()` taken when a cell was chosen: try one type
      for it, and on failure fall back to the other. */
  method Explore(h: Grid, c: Cell, draws: nat -> real, k: nat) returns (res: Result, next: nat)
    requires WellFormed(h) && c in CellsOf(h) && !TypeFixed(c)
    ensures WellFormed(res.g) && res.g.settings == h.settings
    ensures FlagsBelow(res.g, h)
    ensures ConflictsGrow(h.conflicts, res.g.conflicts)
    ensures res.Found? ==> AllFixed(res.g) && res.g.dirty == [] && Settled(res.g)
    ensures KeepsFixed(h, h.conflicts, res.g.conflicts)
    ensures res.Failed? ==> Conflicts(res.g, c) == Conflicts(h, c) + 1
    ensures next >= k
    decreases TrueCount(h), 1
  {
    var shouldBeBlock := draws(k) < h.settings.blocksDensity;
    var g1 := Branch(h, c, if shouldBeBlock then IsLetter else IsBlock);
    var r1, k1 := Collapse(g1, draws, k + 1);
    FlagsBelowTrans(r1.g, g1, h);
    KeepsTrans(h, g1, h.conflicts, g1.conflicts, r1.g.conflicts);
    if !r1.Failed? {
      return r1, k1;
    }
    PickedCell(h, c);
    assert CountAt(r1.g.conflicts, Pos(c.x, c.y)) == CountAt(g1.conflicts, Pos(c.x, c.y));
    res, next := Fallback(h, c, r1.g, if shouldBeBlock then IsBlock else IsLetter, draws, k1);
  }

  /** After the first choice failed: `restoreState(state)`, the opposite
      choice, and a backtrack counted for the cell when that fails too. */
  method Fallback(h: Grid, c: Cell, failed: Grid, n: FlagName, draws: nat -> real, k: nat)
    returns (res: Result, next: nat)
    requires WellFormed(h) && c in CellsOf(h) && !TypeFixed(c)
    requires n == IsLetter || n == IsBlock
    requires failed.settings == h.settings && ConflictsGrow(h.conflicts, failed.conflicts)
    requires KeepsFixed(h, h.conflicts, failed.conflicts) && Conflicts(failed, c) == Conflicts(h, c)
    ensures WellFormed(res.g) && res.g.settings == h.settings
    ensures FlagsBelow(res.g, h)
    ensures ConflictsGrow(h.conflicts, res.g.conflicts)
    ensures KeepsFixed(h, h.conflicts, res.g.conflicts)
    ensures res.Found? ==> AllFixed(res.g) && res.g.dirty == [] && Settled(res.g)
    ensures res.Failed? ==> Conflicts(res.g, c) == Conflicts(h, c) + 1
    ensures next >= k
    decreases TrueCount(h), 0
  {
    var g2 := Retry(h, failed, c, n);
    var r2, k2 := Collapse(g2, draws, k);
    FlagsBelowTrans(r2.g, g2, h);
    GrowTrans(h.conflicts, g2.conflicts, r2.g.conflicts);
    KeepsTrans(h, g2, h.conflicts, g2.conflicts, r2.g.conflicts);
    if r2.Failed? {
      PickedCell(h, c);
      assert CountAt(r2.g.conflicts, Pos(c.x, c.y)) == CountAt(g2.conflicts, Pos(c.x, c.y));
      var recorded := RecordConflict(r2.g, Pos(c.x, c.y));
      KeepsRecord(h, h.conflicts, r2.g, Pos(c.x, c.y));
      FlagsBelowTrans(recorded, r2.g, h);
      GrowTrans(h.conflicts, r2.g.conflicts, recorded.conflicts);
      return Failed(recorded), k2;
    }
    return r2, k2;
  }
}

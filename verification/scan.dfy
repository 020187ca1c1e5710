/** One line (a column for the vertical pass, a row for the horizontal one)
    of the measurement pass, stated once for both directions: the running
    letter and fixed-letter counts, the distance to the closest definition
    and the sliding window of definition counts, together with the
    backward run length used by the bottom and right passes. */
module Scans {
  import opened Base

  /** What the forward pass reads at one position of the line: the cell's
      type flags; `side`, the neighbour's arrow that starts a word across
      the line at this cell (left cell's right-down arrow in a column, upper
      cell's bottom-across arrow in a row); `prev`, the previous cell's arrow
      along the line (upper cell's bottom-down, left cell's right-across);
      `own`, this cell's arrow along the line. */
  datatype Slot = Slot(letter: bool, block: bool, side: bool, prev: bool, own: bool)

  /** The loop variables: letters run, fixed-letters run, closest
      definition and the window of per-position definition counts (index 0
      is the current position). */
  datatype Acc = Acc(run: nat, fixed: nat, closest: ExtNat, window: seq<nat>)

  /** The values the pass writes at one position. */
  datatype Out = Out(closest: ExtNat, defs: nat, run: nat, fixed: nat)

  /** The fresh window: `w` zero counts. */
  function Zeros(w: nat): (r: seq<nat>)
    ensures |r| == w
    ensures forall k :: 0 <= k < w ==> r[k] == 0
  {
    seq(w, _ => 0)
  }

  /** The total of the window's counts. */
  function Sum(s: seq<nat>): nat {
    if s == [] then 0 else s[0] + Sum(s[1..])
  }

  /** Definitions that start at a position: one for a word entering from
      the side, one for the previous cell's arrow along the line. */
  function Defs(s: Slot): nat {
    B2N(s.side) + B2N(s.prev)
  }

  /** Top of an iteration: shift the window by one and count the
      definitions starting here; a word entering from the side is the
      closest definition. */
  function Enter(a: Acc, s: Slot): (r: Acc)
    requires |a.window| >= 1
    ensures |r.window| == |a.window|
  {
    a.(closest := if s.side then Fin(0) else a.closest,
       window := [Defs(s)] + a.window[..|a.window| - 1])
  }

  /** Bottom of an iteration: extend or break both runs; a non-letter
      clears the window and the closest definition; the cell's own arrow
      makes it the closest definition of the next cell, a letter moves the
      closest definition one further away. */
  function Leave(a: Acc, s: Slot, w: nat): (r: Acc)
    requires |a.window| == w
    ensures |r.window| == w
  {
    var window := if s.letter then a.window else Zeros(w);
    var closest := if s.letter then a.closest else Inf;
    Acc(if s.letter then a.run + 1 else 0,
        if s.letter && !s.block then a.fixed + 1 else 0,
        if s.own then Fin(0) else if s.letter then closest.Plus(1) else closest,
        window)
  }

  /** The loop variables at the start of iteration `i`. */
  function Before(line: seq<Slot>, w: nat, i: nat): (r: Acc)
    requires w >= 1 && i <= |line|
    ensures |r.window| == w
  {
    if i == 0 then Acc(0, 0, Inf, Zeros(w))
    else
      var a := Before(line, w, i - 1);
      Leave(Enter(a, line[i - 1]), line[i - 1], w)
  }

  /** What iteration `i` writes: a position with no definition in the
      window gets `Infinity` as its closest definition. */
  function Emitted(line: seq<Slot>, w: nat, i: nat): Out
    requires w >= 1 && i < |line|
  {
    var a := Before(line, w, i);
    var e := Enter(a, line[i]);
    var number := Sum(e.window);
    Out(if number == 0 then Inf else e.closest, number, a.run, a.fixed)
  }

  /** The backward pass: number of consecutive letters starting at `i`. */
  function RunFrom(bs: seq<bool>, i: int): nat
    requires 0 <= i
    decreases |bs| - i
  {
    if i >= |bs| then 0 else if bs[i] then RunFrom(bs, i + 1) + 1 else 0
  }

  // Independent descriptions of what the scans compute.

  /** The letter flags along the line. */
  function Letters(line: seq<Slot>): (bs: seq<bool>)
    ensures |bs| == |line| && forall j :: 0 <= j < |line| ==> bs[j] == line[j].letter
  {
    seq(|line|, j requires 0 <= j < |line| => line[j].letter)
  }

  /** Along the line, which cells are letters that cannot be blocks. */
  function FixedLetters(line: seq<Slot>): (bs: seq<bool>)
    ensures |bs| == |line|
    ensures forall j :: 0 <= j < |line| ==> bs[j] == (line[j].letter && !line[j].block)
  {
    seq(|line|, j requires 0 <= j < |line| => line[j].letter && !line[j].block)
  }

  /** `r` true values sit immediately before position `i`, and the value
      before them (if any) is false. */
  ghost predicate RunUpTo(bs: seq<bool>, i: int, r: int) {
    && 0 <= r <= i <= |bs|
    && (forall j :: i - r <= j < i ==> bs[j])
    && (r < i ==> !bs[i - r - 1])
  }

  /** `r` true values start at position `i`, and the value after them (if
      any) is false. */
  ghost predicate RunFromSpec(bs: seq<bool>, i: int, r: int) {
    && 0 <= i && 0 <= r && i + r <= |bs|
    && (forall j :: i <= j < i + r ==> bs[j])
    && (i + r < |bs| ==> !bs[i + r])
  }

  /** The previous cell's arrow along the line is the one the pass sees as
      `prev`; the first position has no previous cell. */
  ghost predicate Coherent(line: seq<Slot>) {
    && (|line| > 0 ==> !line[0].prev)
    && forall i :: 0 < i < |line| ==> line[i].prev == line[i - 1].own
  }

  /** Start of the current letter run as seen at iteration `i`: one past
      the last non-letter before `i`. */
  function RunStart(line: seq<Slot>, i: nat): (r: nat)
    requires i <= |line|
    ensures r <= i
  {
    if i == 0 then 0 else if !line[i - 1].letter then i else RunStart(line, i - 1)
  }

  lemma {:induction false} ScanRuns(line: seq<Slot>, w: nat, i: nat)
    requires w >= 1 && i <= |line|
    ensures RunUpTo(Letters(line), i, Before(line, w, i).run)
    ensures RunUpTo(FixedLetters(line), i, Before(line, w, i).fixed)
  {
    if i > 0 {
      ScanRuns(line, w, i - 1);
      var a := Before(line, w, i - 1);
      assert Before(line, w, i).run == if line[i - 1].letter then a.run + 1 else 0;
      assert Before(line, w, i).fixed == if line[i - 1].letter && !line[i - 1].block then a.fixed + 1 else 0;
    }
  }

  lemma {:induction false} RunFromCounts(bs: seq<bool>, i: int)
    requires 0 <= i <= |bs|
    ensures RunFromSpec(bs, i, RunFrom(bs, i))
    decreases |bs| - i
  {
    if i < |bs| && bs[i] {
      RunFromCounts(bs, i + 1);
    }
  }

  lemma {:induction false} SumPrefix(s: seq<nat>, k: nat)
    requires k <= |s|
    ensures Sum(s[..k]) <= Sum(s)
  {
    if k > 0 {
      assert s[..k][1..] == s[1..][..k - 1];
      SumPrefix(s[1..], k - 1);
    }
  }

  lemma {:induction false} SumZeros(w: nat)
    ensures Sum(Zeros(w)) == 0
  {
    if w > 0 {
      assert Zeros(w)[1..] == Zeros(w - 1);
      SumZeros(w - 1);
    }
  }

  /** The loop keeps: a non-empty window implies a finite closest
      definition, and after a cell with its own arrow the closest
      definition is 0. */
  lemma {:induction false} ScanClosestFinite(line: seq<Slot>, w: nat, i: nat)
    requires w >= 1 && i <= |line| && Coherent(line)
    ensures Sum(Before(line, w, i).window) > 0 ==> Before(line, w, i).closest.Fin?
    ensures i > 0 && line[i - 1].own ==> Before(line, w, i).closest == Fin(0)
  {
    if i == 0 {
      SumZeros(w);
    } else {
      var a := Before(line, w, i - 1);
      ScanClosestFinite(line, w, i - 1);
      EnterClosestFinite(line, w, i - 1);
      if !line[i - 1].letter {
        SumZeros(w);
      }
    }
  }

  lemma EnterClosestFinite(line: seq<Slot>, w: nat, i: nat)
    requires w >= 1 && i < |line| && Coherent(line)
    requires Sum(Before(line, w, i).window) > 0 ==> Before(line, w, i).closest.Fin?
    requires i > 0 && line[i - 1].own ==> Before(line, w, i).closest == Fin(0)
    ensures Sum(Enter(Before(line, w, i), line[i]).window) > 0 ==>
      Enter(Before(line, w, i), line[i]).closest.Fin?
  {
    var a := Before(line, w, i);
    var e := Enter(a, line[i]);
    assert e.window[1..] == a.window[..w - 1];
    SumPrefix(a.window, w - 1);
  }

  /** The closest definition written at a position is `Infinity` exactly
      when no definition is counted there. */
  lemma WrittenClosestInfinite(line: seq<Slot>, w: nat, i: nat)
    requires w >= 1 && i < |line| && Coherent(line)
    ensures Emitted(line, w, i).closest.Inf? <==> Emitted(line, w, i).defs == 0
  {
    ScanClosestFinite(line, w, i);
    EnterClosestFinite(line, w, i);
  }

  /** Contents of the window at the start of iteration `i`: slot `k` holds
      the definitions that started `k + 1` positions back, if that position
      lies in the current letter run, and 0 otherwise. */
  lemma {:induction false} WindowBefore(line: seq<Slot>, w: nat, i: nat)
    requires w >= 1 && i <= |line|
    ensures forall k :: 0 <= k < w ==>
      Before(line, w, i).window[k] ==
        (if k < i && i - 1 - k >= RunStart(line, i) then Defs(line[i - 1 - k]) else 0)
  {
    if i > 0 {
      WindowBefore(line, w, i - 1);
      WindowEnter(line, w, i - 1);
      var e := Enter(Before(line, w, i - 1), line[i - 1]);
      if line[i - 1].letter {
        assert Before(line, w, i).window == e.window;
      } else {
        assert Before(line, w, i).window == Zeros(w);
      }
    }
  }

  /** After the shift of iteration `i`, slot `k` holds the definitions that
      started `k` positions back within the current letter run: the window
      counts the definitions of the last `w` positions of the run. */
  lemma WindowEnter(line: seq<Slot>, w: nat, i: nat)
    requires w >= 1 && i < |line|
    requires forall k :: 0 <= k < w ==>
      Before(line, w, i).window[k] ==
        (if k < i && i - 1 - k >= RunStart(line, i) then Defs(line[i - 1 - k]) else 0)
    ensures forall k :: 0 <= k < w ==>
      Enter(Before(line, w, i), line[i]).window[k] ==
        (if i - k >= RunStart(line, i) then Defs(line[i - k]) else 0)
  {
  }

  /** A definition starts `n` positions before `i` (at `i` itself when `n`
      is 0), no definition starts after it up to `i`, and every position
      from it up to `i` (excluded) is a letter: the latest definition of
      the word that reaches `i`. */
  ghost predicate LatestStart(line: seq<Slot>, i: int, n: int) {
    && 0 <= n <= i < |line|
    && Defs(line[i - n]) > 0
    && (forall j :: i - n < j <= i ==> Defs(line[j]) == 0)
    && (forall j :: i - n <= j < i ==> line[j].letter)
  }

  /** Only one distance can be the latest start. */
  lemma LatestStartUnique(line: seq<Slot>, i: int, n: int, m: int)
    requires LatestStart(line, i, n) && LatestStart(line, i, m)
    ensures n == m
  {
  }

  /** After the shift of iteration `i`, the closest definition is the
      distance to the latest start within the current letter run, and
      `Infinity` when that run holds no start. */
  lemma {:induction false} EnterClosest(line: seq<Slot>, w: nat, i: nat)
    requires w >= 1 && i < |line| && Coherent(line)
    ensures var e := Enter(Before(line, w, i), line[i]);
      && (e.closest.Fin? ==> LatestStart(line, i, e.closest.n))
      && (e.closest.Inf? ==> forall j :: RunStart(line, i) <= j <= i ==> Defs(line[j]) == 0)
  {
    if i > 0 && !line[i].side && !line[i].prev && line[i - 1].letter {
      EnterClosest(line, w, i - 1);
    }
  }

  /** A non-empty sum has a non-zero term. */
  lemma {:induction false} SumPositive(s: seq<nat>) returns (k: nat)
    requires Sum(s) > 0
    ensures k < |s| && s[k] > 0
  {
    if s[0] > 0 {
      k := 0;
    } else {
      var k' := SumPositive(s[1..]);
      k := k' + 1;
    }
  }

  /** The closest definition written at a position is `n` exactly when
      definitions are counted there and the latest start of the word
      reaching the position lies `n` back; that distance is always inside
      the window. */
  lemma WrittenClosest(line: seq<Slot>, w: nat, i: nat)
    requires w >= 1 && i < |line| && Coherent(line)
    ensures forall n: nat :: Emitted(line, w, i).closest == Fin(n) <==>
      Emitted(line, w, i).defs > 0 && LatestStart(line, i, n)
    ensures Emitted(line, w, i).closest.Fin? ==> Emitted(line, w, i).closest.n < w
  {
    var out := Emitted(line, w, i);
    WrittenClosestInfinite(line, w, i);
    EnterClosest(line, w, i);
    forall n | out.defs > 0 && LatestStart(line, i, n)
      ensures out.closest == Fin(n)
    {
      LatestStartUnique(line, i, n, out.closest.n);
    }
    if out.closest.Fin? {
      WrittenDefs(line, w, i);
      var k := SumPositive(Reach(line, w, i));
      assert i - k >= RunStart(line, i) && Defs(line[i - k]) > 0;
    }
  }

  /** The definitions the window counts at iteration `i`: those starting at
      position `i` and at the `w - 1` positions before it, as far back as
      the start of the current letter run. */
  function Reach(line: seq<Slot>, w: nat, i: nat): (r: seq<nat>)
    requires i < |line|
    ensures |r| == w
  {
    seq(w, k requires 0 <= k < w =>
      if i - k >= RunStart(line, i) then Defs(line[i - k]) else 0)
  }

  /** The number of definitions written at a position is the total of
      `Reach`. */
  lemma WrittenDefs(line: seq<Slot>, w: nat, i: nat)
    requires w >= 1 && i < |line|
    ensures Emitted(line, w, i).defs == Sum(Reach(line, w, i))
  {
    WindowBefore(line, w, i);
    WindowEnter(line, w, i);
    assert Enter(Before(line, w, i), line[i]).window == Reach(line, w, i);
  }
}

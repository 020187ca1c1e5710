/** One grid cell: its position, eight monotone candidate flags (type and
    two three-way arrow groups) and twelve measured quantities, with the
    guarded setters and the derived predicates the rules read. */
module Cells {
  import opened Base
  import opened Config

  /** The eight candidate flags. */
  datatype FlagName =
    | BottomDown | BottomAcross | BottomNone
    | RightDown | RightAcross | RightNone
    | IsLetter | IsBlock

  datatype Flags = Flags(
    bottomDown: bool, bottomAcross: bool, bottomNone: bool,
    rightDown: bool, rightAcross: bool, rightNone: bool,
    isLetter: bool, isBlock: bool)

  /** The twelve measured quantities. */
  datatype MeasureName =
    | ClosestTop | ClosestLeft
    | DefsTop | DefsLeft
    | LettersRight | LettersRightDown
    | LettersBottom | LettersBottomAcross
    | LettersLeft | LettersTop
    | FixedTop | FixedLeft

  datatype Measures = Measures(
    closestTop: ExtNat, closestLeft: ExtNat,
    defsTop: ExtNat, defsLeft: ExtNat,
    lettersRight: ExtNat, lettersRightDown: ExtNat,
    lettersBottom: ExtNat, lettersBottomAcross: ExtNat,
    lettersLeft: ExtNat, lettersTop: ExtNat,
    fixedTop: ExtNat, fixedLeft: ExtNat)

  datatype Cell = Cell(x: nat, y: nat, flags: Flags, meas: Measures)

  function Flag(f: Flags, n: FlagName): bool {
    match n
    case BottomDown => f.bottomDown
    case BottomAcross => f.bottomAcross
    case BottomNone => f.bottomNone
    case RightDown => f.rightDown
    case RightAcross => f.rightAcross
    case RightNone => f.rightNone
    case IsLetter => f.isLetter
    case IsBlock => f.isBlock
  }

  function WithFlag(f: Flags, n: FlagName, v: bool): (r: Flags)
    ensures Flag(r, n) == v
  {
    match n
    case BottomDown => f.(bottomDown := v)
    case BottomAcross => f.(bottomAcross := v)
    case BottomNone => f.(bottomNone := v)
    case RightDown => f.(rightDown := v)
    case RightAcross => f.(rightAcross := v)
    case RightNone => f.(rightNone := v)
    case IsLetter => f.(isLetter := v)
    case IsBlock => f.(isBlock := v)
  }

  /** Writing one flag leaves the other seven as they were. */
  lemma WithFlagOthers(f: Flags, n: FlagName, v: bool)
    ensures forall m :: m != n ==> Flag(WithFlag(f, n, v), m) == Flag(f, m)
  {
  }

  function Measure(m: Measures, n: MeasureName): ExtNat {
    match n
    case ClosestTop => m.closestTop
    case ClosestLeft => m.closestLeft
    case DefsTop => m.defsTop
    case DefsLeft => m.defsLeft
    case LettersRight => m.lettersRight
    case LettersRightDown => m.lettersRightDown
    case LettersBottom => m.lettersBottom
    case LettersBottomAcross => m.lettersBottomAcross
    case LettersLeft => m.lettersLeft
    case LettersTop => m.lettersTop
    case FixedTop => m.fixedTop
    case FixedLeft => m.fixedLeft
  }

  function WithMeasure(m: Measures, n: MeasureName, v: ExtNat): (r: Measures)
    ensures Measure(r, n) == v
    ensures forall k :: k != n ==> Measure(r, k) == Measure(m, k)
  {
    match n
    case ClosestTop => m.(closestTop := v)
    case ClosestLeft => m.(closestLeft := v)
    case DefsTop => m.(defsTop := v)
    case DefsLeft => m.(defsLeft := v)
    case LettersRight => m.(lettersRight := v)
    case LettersRightDown => m.(lettersRightDown := v)
    case LettersBottom => m.(lettersBottom := v)
    case LettersBottomAcross => m.(lettersBottomAcross := v)
    case LettersLeft => m.(lettersLeft := v)
    case LettersTop => m.(lettersTop := v)
    case FixedTop => m.(fixedTop := v)
    case FixedLeft => m.(fixedLeft := v)
  }

  /** Field initialisers: closest/number/fixed counts start at 0, the six
      letter runs at `Infinity`. */
  const InitialMeasures: Measures :=
    Measures(Fin(0), Fin(0), Fin(0), Fin(0), Inf, Inf, Inf, Inf, Inf, Inf, Fin(0), Fin(0))

  /** `new Cell(x, y, onUpdated)`: every flag starts true; a cell off the
      first column cannot have its bottom arrow go across, a cell off the
      first row cannot have its right arrow go down. The constructor writes
      the private fields directly, so it notifies nobody. */
  function NewCell(x: nat, y: nat): (c: Cell)
    ensures c.x == x && c.y == y && c.meas == InitialMeasures
    ensures forall n :: Flag(c.flags, n) <==>
      (n == BottomAcross ==> x == 0) && (n == RightDown ==> y == 0)
  {
    Cell(x, y, Flags(true, x == 0, true, y == 0, true, true, true, true), InitialMeasures)
  }

  /** The result of a guarded setter: the new cell and whether `onUpdated`
      was called. */
  datatype Written = Written(cell: Cell, notified: bool)

  /** The setter of a flag: writes and notifies once exactly when the value
      changes, and is a silent no-op otherwise. */
  function SetFlag(c: Cell, n: FlagName, v: bool): (r: Written)
    ensures r.notified <==> Flag(c.flags, n) != v
    ensures Flag(r.cell.flags, n) == v
    ensures forall m :: m != n ==> Flag(r.cell.flags, m) == Flag(c.flags, m)
    ensures r.cell.x == c.x && r.cell.y == c.y && r.cell.meas == c.meas
    ensures r.cell.flags == WithFlag(c.flags, n, v)
    ensures !r.notified ==> r.cell == c
  {
    WithFlagOthers(c.flags, n, v);
    if Flag(c.flags, n) != v then Written(c.(flags := WithFlag(c.flags, n, v)), true)
    else Written(c, false)
  }

  /** The setter of a measured quantity, guarded the same way. */
  function SetMeasure(c: Cell, n: MeasureName, v: ExtNat): (r: Written)
    ensures r.notified <==> Measure(c.meas, n) != v
    ensures Measure(r.cell.meas, n) == v
    ensures forall k :: k != n ==> Measure(r.cell.meas, k) == Measure(c.meas, k)
    ensures r.cell.x == c.x && r.cell.y == c.y && r.cell.flags == c.flags
    ensures !r.notified ==> r.cell == c
  {
    if Measure(c.meas, n) != v then Written(c.(meas := WithMeasure(c.meas, n, v)), true)
    else Written(c, false)
  }

  // Derived predicates.

  predicate TypeError(c: Cell) {
    !c.flags.isLetter && !c.flags.isBlock
  }

  predicate TypeFixed(c: Cell) {
    !c.flags.isLetter || !c.flags.isBlock
  }

  predicate ArrowBottomError(c: Cell) {
    !c.flags.bottomDown && !c.flags.bottomAcross && !c.flags.bottomNone
  }

  predicate ArrowRightError(c: Cell) {
    !c.flags.rightDown && !c.flags.rightAcross && !c.flags.rightNone
  }

  /** At most one of the three bottom candidates is left. */
  predicate ArrowBottomFixed(c: Cell) {
    B2N(c.flags.bottomDown) + B2N(c.flags.bottomAcross) + B2N(c.flags.bottomNone) <= 1
  }

  predicate ArrowRightFixed(c: Cell) {
    B2N(c.flags.rightDown) + B2N(c.flags.rightAcross) + B2N(c.flags.rightNone) <= 1
  }

  /** The check `solve` makes on the cell it just examined. */
  predicate HasError(c: Cell) {
    TypeError(c) || ArrowRightError(c) || ArrowBottomError(c)
  }

  /** Remaining arrow candidates: the four down/across flags, never the two
      "none" flags. */
  function NumberOfArrows(c: Cell): (r: nat)
    ensures r <= 4
    ensures r == 0 <==>
      !c.flags.bottomAcross && !c.flags.bottomDown && !c.flags.rightAcross && !c.flags.rightDown
  {
    B2N(c.flags.bottomAcross) + B2N(c.flags.bottomDown)
      + B2N(c.flags.rightAcross) + B2N(c.flags.rightDown)
  }

  /** Definitions crossing the cell, from the top and from the left. */
  function NumberOfDefinitions(c: Cell): (r: ExtNat)
    ensures r.IsZero() <==> c.meas.defsTop.IsZero() && c.meas.defsLeft.IsZero()
    ensures r.Inf? <==> c.meas.defsTop.Inf? || c.meas.defsLeft.Inf?
  {
    c.meas.defsTop.Add(c.meas.defsLeft)
  }

  /** The share of `size` that `v` makes up, capped at 1 (`Infinity` counts
      as the whole); the reversed ratio of the source is 1 minus this. */
  function Ratio(v: ExtNat, size: real): (r: real)
    requires size > 0.0
    ensures 0.0 <= r <= 1.0
  {
    if v.Inf? || v.n as real / size >= 1.0 then 1.0 else v.n as real / size
  }

  /** The tie-break score: closeness to the origin times the lack of
      already-fixed letters above and to the left. */
  function Entropy(s: Settings, c: Cell): (r: real)
    requires Valid(s)
    ensures 0.0 <= r <= 1.0
    ensures c.x + c.y == 0 ==> r == 0.0
  {
    var size := (s.width + s.height) as real;
    var closeness := Ratio(Fin(c.x + c.y), size);
    var unfixed := 1.0 - Ratio(c.meas.fixedTop.Add(c.meas.fixedLeft), size);
    ProductOfUnits(closeness, unfixed);
    closeness * unfixed
  }

  /** Number of flags still true (0..8): the quantity every narrowing step
      lowers. */
  function TrueFlags(f: Flags): nat {
    B2N(f.bottomDown) + B2N(f.bottomAcross) + B2N(f.bottomNone)
      + B2N(f.rightDown) + B2N(f.rightAcross) + B2N(f.rightNone)
      + B2N(f.isLetter) + B2N(f.isBlock)
  }

  /** Every flag of `a` that is true is true in `b` too. */
  predicate FlagsLe(a: Flags, b: Flags) {
    forall n :: Flag(a, n) ==> Flag(b, n)
  }

  // Lemmas about the derived predicates.

  lemma TypePredicates(c: Cell)
    ensures TypeError(c) ==> TypeFixed(c)
    ensures TypeFixed(c) <==> exists n :: (n == IsLetter || n == IsBlock) && !Flag(c.flags, n)
  {
    if !c.flags.isLetter {
      assert Flag(c.flags, IsLetter) == false;
    }
    if !c.flags.isBlock {
      assert Flag(c.flags, IsBlock) == false;
    }
  }

  /** An arrow group is fixed exactly when no two of its candidates are both
      left, in error exactly when none is, and an error is a (degenerate)
      fixed group. */
  lemma ArrowPredicates(c: Cell)
    ensures ArrowBottomFixed(c) <==>
      !(c.flags.bottomDown && c.flags.bottomAcross) && !(c.flags.bottomDown && c.flags.bottomNone)
      && !(c.flags.bottomAcross && c.flags.bottomNone)
    ensures ArrowRightFixed(c) <==>
      !(c.flags.rightDown && c.flags.rightAcross) && !(c.flags.rightDown && c.flags.rightNone)
      && !(c.flags.rightAcross && c.flags.rightNone)
    ensures ArrowBottomError(c) ==> ArrowBottomFixed(c)
    ensures ArrowRightError(c) ==> ArrowRightFixed(c)
  {
  }

  /** Writing a "none" flag or a type flag never changes the arrow count. */
  lemma ArrowsIgnoreOtherFlags(c: Cell, n: FlagName, v: bool)
    requires n in {BottomNone, RightNone, IsLetter, IsBlock}
    ensures NumberOfArrows(SetFlag(c, n, v).cell) == NumberOfArrows(c)
  {
    var r := SetFlag(c, n, v).cell;
    assert Flag(r.flags, BottomAcross) == Flag(c.flags, BottomAcross);
    assert Flag(r.flags, BottomDown) == Flag(c.flags, BottomDown);
    assert Flag(r.flags, RightAcross) == Flag(c.flags, RightAcross);
    assert Flag(r.flags, RightDown) == Flag(c.flags, RightDown);
  }

  lemma ProductOfUnits(a: real, b: real)
    requires 0.0 <= a <= 1.0 && 0.0 <= b <= 1.0
    ensures 0.0 <= a * b <= b
  {
    assert (1.0 - a) * b >= 0.0;
  }

  /** Clearing a flag twice is clearing it once. */
  lemma WithFlagTwice(f: Flags, n: FlagName)
    ensures WithFlag(WithFlag(f, n, false), n, false) == WithFlag(f, n, false)
  {
  }

  /** Clearing a flag lowers the count by one exactly when it was set. */
  lemma TrueFlagsClear(f: Flags, n: FlagName)
    ensures FlagsLe(WithFlag(f, n, false), f)
    ensures TrueFlags(WithFlag(f, n, false)) + B2N(Flag(f, n)) == TrueFlags(f)
  {
    if n.BottomDown? || n.BottomAcross? || n.BottomNone? || n.RightDown? {
      ClearBottomHalf(f, n);
    } else {
      ClearRightHalf(f, n);
    }
  }

  lemma ClearBottomHalf(f: Flags, n: FlagName)
    requires n.BottomDown? || n.BottomAcross? || n.BottomNone? || n.RightDown?
    ensures TrueFlags(WithFlag(f, n, false)) + B2N(Flag(f, n)) == TrueFlags(f)
  {
    match n
    case BottomDown => ClearBottomDown(f);
    case BottomAcross => ClearBottomAcross(f);
    case BottomNone => ClearBottomNone(f);
    case RightDown => ClearRightDown(f);
  }

  lemma ClearRightHalf(f: Flags, n: FlagName)
    requires !(n.BottomDown? || n.BottomAcross? || n.BottomNone? || n.RightDown?)
    ensures TrueFlags(WithFlag(f, n, false)) + B2N(Flag(f, n)) == TrueFlags(f)
  {
    match n
    case RightAcross => ClearRightAcross(f);
    case RightNone => ClearRightNone(f);
    case IsLetter => ClearIsLetter(f);
    case IsBlock => ClearIsBlock(f);
  }

  lemma ClearBottomDown(f: Flags)
    ensures TrueFlags(f.(bottomDown := false)) + B2N(f.bottomDown) == TrueFlags(f)
  {
  }

  lemma ClearBottomAcross(f: Flags)
    ensures TrueFlags(f.(bottomAcross := false)) + B2N(f.bottomAcross) == TrueFlags(f)
  {
  }

  lemma ClearBottomNone(f: Flags)
    ensures TrueFlags(f.(bottomNone := false)) + B2N(f.bottomNone) == TrueFlags(f)
  {
  }

  lemma ClearRightDown(f: Flags)
    ensures TrueFlags(f.(rightDown := false)) + B2N(f.rightDown) == TrueFlags(f)
  {
  }

  lemma ClearRightAcross(f: Flags)
    ensures TrueFlags(f.(rightAcross := false)) + B2N(f.rightAcross) == TrueFlags(f)
  {
  }

  lemma ClearRightNone(f: Flags)
    ensures TrueFlags(f.(rightNone := false)) + B2N(f.rightNone) == TrueFlags(f)
  {
  }

  lemma ClearIsLetter(f: Flags)
    ensures TrueFlags(f.(isLetter := false)) + B2N(f.isLetter) == TrueFlags(f)
  {
  }

  lemma ClearIsBlock(f: Flags)
    ensures TrueFlags(f.(isBlock := false)) + B2N(f.isBlock) == TrueFlags(f)
  {
  }

  lemma TrueFlagsLe(a: Flags, b: Flags)
    requires FlagsLe(a, b)
    ensures TrueFlags(a) <= TrueFlags(b)
  {
    FieldsLe(a, b);
    CountLe(a, b);
  }

  /** The count is monotone in each field. */
  lemma CountLe(a: Flags, b: Flags)
    requires && (a.bottomDown ==> b.bottomDown) && (a.bottomAcross ==> b.bottomAcross)
             && (a.bottomNone ==> b.bottomNone) && (a.rightDown ==> b.rightDown)
             && (a.rightAcross ==> b.rightAcross) && (a.rightNone ==> b.rightNone)
             && (a.isLetter ==> b.isLetter) && (a.isBlock ==> b.isBlock)
    ensures TrueFlags(a) <= TrueFlags(b)
  {
    Halves(a);
    Halves(b);
    SumLe(a.bottomDown, a.bottomAcross, a.bottomNone, a.rightDown,
          b.bottomDown, b.bottomAcross, b.bottomNone, b.rightDown);
    SumLe(a.rightAcross, a.rightNone, a.isLetter, a.isBlock,
          b.rightAcross, b.rightNone, b.isLetter, b.isBlock);
  }

  lemma Halves(f: Flags)
    ensures TrueFlags(f) ==
      Count4(f.bottomDown, f.bottomAcross, f.bottomNone, f.rightDown)
        + Count4(f.rightAcross, f.rightNone, f.isLetter, f.isBlock)
  {
  }

  function Count4(p1: bool, p2: bool, p3: bool, p4: bool): nat {
    B2N(p1) + B2N(p2) + B2N(p3) + B2N(p4)
  }

  lemma SumLe(p1: bool, p2: bool, p3: bool, p4: bool, q1: bool, q2: bool, q3: bool, q4: bool)
    requires (p1 ==> q1) && (p2 ==> q2) && (p3 ==> q3) && (p4 ==> q4)
    ensures Count4(p1, p2, p3, p4) <= Count4(q1, q2, q3, q4)
  {
  }

  /** `FlagsLe`, field by field. */
  lemma FieldsLe(a: Flags, b: Flags)
    requires FlagsLe(a, b)
    ensures && (a.bottomDown ==> b.bottomDown) && (a.bottomAcross ==> b.bottomAcross)
            && (a.bottomNone ==> b.bottomNone) && (a.rightDown ==> b.rightDown)
            && (a.rightAcross ==> b.rightAcross) && (a.rightNone ==> b.rightNone)
            && (a.isLetter ==> b.isLetter) && (a.isBlock ==> b.isBlock)
  {
    assert Flag(a, BottomDown) ==> Flag(b, BottomDown);
    assert Flag(a, BottomAcross) ==> Flag(b, BottomAcross);
    assert Flag(a, BottomNone) ==> Flag(b, BottomNone);
    assert Flag(a, RightDown) ==> Flag(b, RightDown);
    assert Flag(a, RightAcross) ==> Flag(b, RightAcross);
    assert Flag(a, RightNone) ==> Flag(b, RightNone);
    assert Flag(a, IsLetter) ==> Flag(b, IsLetter);
    assert Flag(a, IsBlock) ==> Flag(b, IsBlock);
  }


}

/** Values shared by every part of the model: an optional value, and the
    JavaScript numbers the engine measures, which are either a natural
    number or `Infinity`. */
module Base {

  /** `null`-or-value, as returned by the grid lookup. */
  datatype Option<+T> = None | Some(value: T)

  /** A measured quantity: a natural number or JavaScript's `Infinity`. */
  datatype ExtNat = Fin(n: nat) | Inf {

    /** `this + k`; `Infinity + k` stays `Infinity`. */
    function Plus(k: nat): ExtNat {
      if Fin? then Fin(n + k) else Inf
    }

    /** `this + other`. */
    function Add(other: ExtNat): ExtNat {
      if Fin? && other.Fin? then Fin(n + other.n) else Inf
    }

    /** JavaScript `this < k`; `Infinity < k` is false. */
    predicate Below(k: int) {
      Fin? && n < k
    }

    /** JavaScript `this > k`; `Infinity > k` is true. */
    predicate Above(k: int) {
      Inf? || n > k
    }

    /** JavaScript `this >= k`. */
    predicate AtLeast(k: int) {
      Inf? || n >= k
    }

    /** JavaScript `this === 0`. */
    predicate IsZero() {
      this == Fin(0)
    }
  }

  /** How many times a loop counting up from 1 while below `k - v` runs;
      when `v` is `Infinity` the bound is `-Infinity` and it never runs. */
  function LoopCountFromOne(k: int, v: ExtNat): nat {
    if v.Inf? || k - v.n - 1 <= 0 then 0 else k - v.n - 1
  }

  /** A boolean counted as 1 or 0. */
  function B2N(b: bool): nat {
    if b then 1 else 0
  }
}

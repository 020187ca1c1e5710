/** `collapseWords`: one pass of word-fill propagation over a run of letter
    cells. Each position holds the set of characters still allowed there; the
    pass keeps, at every position, only the characters that some dictionary
    word of the run's length, allowed at every position, has there. */
module Words {

  /** The characters still allowed at one position of a run. */
  type Domain = set<char>

  /** The dictionary, keyed by word length. The sequence under a length is
      the words of that length in the order the pass enumerates them. */
  type Dictionary = map<nat, seq<string>>

  /** The outcome of the pass: the narrowed domains and whether any position
      changed size, or the `throw` at position `at`, with the domains as the
      pass left them when it stopped. */
  datatype Fill = Filled(cells: seq<Domain>, updated: bool) | Exhausted(cells: seq<Domain>, at: nat)

  /** The words enumerated for a run of `n` positions; a length the
      dictionary lacks gives `undefined`, over which `for..in` does nothing. */
  function Candidates(dict: Dictionary, n: nat): (ws: seq<string>)
    ensures n in dict ==> ws == dict[n]
    ensures n !in dict ==> ws == []
  {
    if n in dict then dict[n] else []
  }

  /** Every cell's letter set holds the word's letter at that position; a
      shorter word reads `undefined` past its end, which no set holds. */
  predicate Fits(cells: seq<Domain>, w: string) {
    |cells| <= |w| && forall i :: 0 <= i < |cells| ==> w[i] in cells[i]
  }

  /** Some word of `ws` fitting every position has `ch` at position `i`. */
  ghost predicate Occurs(cells: seq<Domain>, ws: seq<string>, i: nat, ch: char) {
    exists w :: w in ws && Fits(cells, w) && i < |w| && w[i] == ch
  }

  /** The reference result: each position keeps exactly the characters that
      occur there in a fitting word. */
  ghost function Narrowed(cells: seq<Domain>, ws: seq<string>): (r: seq<Domain>)
    ensures |r| == |cells|
    ensures forall i :: 0 <= i < |cells| ==> r[i] <= cells[i]
  {
    seq(|cells|, i requires 0 <= i < |cells| => set ch | ch in cells[i] && Occurs(cells, ws, i, ch))
  }

  /** Every fitting word only uses characters of its own position's
      domain, so `Occurs` alone already decides membership in the result. */
  lemma NarrowedMembers(cells: seq<Domain>, ws: seq<string>, i: nat, ch: char)
    requires i < |cells|
    ensures ch in Narrowed(cells, ws)[i] <==> Occurs(cells, ws, i, ch)
  {
    if Occurs(cells, ws, i, ch) {
      var w :| w in ws && Fits(cells, w) && i < |w| && w[i] == ch;
      assert ch in cells[i];
    }
  }

  /** Adds the word's letter at each position to that position's set of
      possible letters. */
  function AddWord(possible: seq<Domain>, w: string): (r: seq<Domain>)
    requires |w| >= |possible|
    ensures |r| == |possible|
    ensures forall i :: 0 <= i < |possible| ==> r[i] == possible[i] + {w[i]}
  {
    seq(|possible|, i requires 0 <= i < |possible| => possible[i] + {w[i]})
  }

  /** The first loop of `collapseWords`: collect, position by position, the
      characters of every word that fits. */
  method Gather(cells: seq<Domain>, ws: seq<string>) returns (possible: seq<Domain>)
    ensures |possible| == |cells|
    ensures forall i, ch :: 0 <= i < |cells| ==> (ch in possible[i] <==> Occurs(cells, ws, i, ch))
  {
    possible := seq(|cells|, _ => {});
    for k := 0 to |ws|
      invariant |possible| == |cells|
      invariant forall i, ch :: 0 <= i < |cells| ==> (ch in possible[i] <==> Occurs(cells, ws[..k], i, ch))
    {
      var w := ws[k];
      assert ws[..k + 1] == ws[..k] + [w];
      if Fits(cells, w) {
        possible := AddWord(possible, w);
      }
      forall i, ch | 0 <= i < |cells|
        ensures ch in possible[i] <==> Occurs(cells, ws[..k + 1], i, ch)
      {
        OccursStep(cells, ws[..k], w, i, ch);
      }
    }
    assert ws[..|ws|] == ws;
  }

  /** Appending one word to the enumeration adds its characters when it
      fits, and nothing otherwise. */
  lemma OccursStep(cells: seq<Domain>, ws: seq<string>, w: string, i: nat, ch: char)
    ensures Occurs(cells, ws + [w], i, ch)
        <==> Occurs(cells, ws, i, ch) || (Fits(cells, w) && i < |w| && w[i] == ch)
  {
    if Occurs(cells, ws + [w], i, ch) {
      var v :| v in ws + [w] && Fits(cells, v) && i < |v| && v[i] == ch;
      if v != w {
        assert v in ws;
      }
    }
    if Occurs(cells, ws, i, ch) {
      var v :| v in ws && Fits(cells, v) && i < |v| && v[i] == ch;
      assert v in ws + [w];
    }
    if Fits(cells, w) && i < |w| && w[i] == ch {
      assert w in ws + [w];
    }
  }

  /** The second loop of `collapseWords`: write each position's collected
      set back, raising `updated` on a size change and throwing at the first
      empty set, after the earlier positions were already written. */
  method WriteBack(cells: seq<Domain>, possible: seq<Domain>) returns (res: Fill)
    requires |possible| == |cells|
    ensures |res.cells| == |cells|
    ensures res.Filled? ==> res.cells == possible && forall i :: 0 <= i < |cells| ==> possible[i] != {}
    ensures res.Filled? ==> (res.updated <==> exists i :: 0 <= i < |cells| && |cells[i]| != |possible[i]|)
    ensures res.Exhausted? ==> res.at < |cells| && possible[res.at] == {}
    ensures res.Exhausted? ==> forall i :: 0 <= i < res.at ==> possible[i] != {} && res.cells[i] == possible[i]
    ensures res.Exhausted? ==> forall i :: res.at <= i < |cells| ==> res.cells[i] == cells[i]
  {
    var out := cells;
    var updated := false;
    for i := 0 to |cells|
      invariant |out| == |cells|
      invariant forall j :: 0 <= j < i ==> possible[j] != {} && out[j] == possible[j]
      invariant forall j :: i <= j < |cells| ==> out[j] == cells[j]
      invariant updated <==> exists j :: 0 <= j < i && |cells[j]| != |possible[j]|
    {
      if |cells[i]| != |possible[i]| {
        updated := true;
      }
      if possible[i] == {} {
        return Exhausted(out, i);
      }
      out := out[i := possible[i]];
    }
    assert out == possible;
    return Filled(out, updated);
  }

  /** `collapseWords(cells)` against the dictionary `dict`. */
  method CollapseWords(cells: seq<Domain>, dict: Dictionary) returns (res: Fill)
    ensures |res.cells| == |cells|
    ensures res.Filled? ==> res.cells == Narrowed(cells, Candidates(dict, |cells|))
    ensures res.Filled? ==> (res.updated <==> res.cells != cells)
    ensures res.Exhausted? <==> |cells| > 0 && forall w :: w in Candidates(dict, |cells|) ==> !Fits(cells, w)
    ensures res.Exhausted? ==> res.at == 0 && res.cells == cells
    ensures |cells| !in dict ==> (res.Exhausted? <==> |cells| > 0)
  {
    var ws := Candidates(dict, |cells|);
    var possible := Gather(cells, ws);
    res := WriteBack(cells, possible);
    NarrowedIsGathered(cells, ws, possible);
    AllOrNothing(cells, ws);
    if res.Filled? {
      ChangedIffResized(cells, possible);
      if |cells| > 0 {
        assert possible[0] != {};
        var ch :| ch in possible[0];
        assert Occurs(cells, ws, 0, ch);
      }
    } else {
      assert possible[res.at] == {};
      assert possible[0] == {};
      assert res.cells == cells;
    }
  }

  /** What `Gather` collects is the reference result. */
  lemma NarrowedIsGathered(cells: seq<Domain>, ws: seq<string>, possible: seq<Domain>)
    requires |possible| == |cells|
    requires forall i, ch :: 0 <= i < |cells| ==> (ch in possible[i] <==> Occurs(cells, ws, i, ch))
    ensures possible == Narrowed(cells, ws)
  {
    var n := Narrowed(cells, ws);
    forall i | 0 <= i < |cells|
      ensures possible[i] == n[i]
    {
      forall ch
        ensures ch in possible[i] <==> ch in n[i]
      {
        NarrowedMembers(cells, ws, i, ch);
      }
    }
  }

  /** One fitting word puts a character at every position; without one,
      every position is empty. So the positions are all non-empty or all
      empty, and the first empty one can only be position 0. */
  lemma {:induction false} AllOrNothing(cells: seq<Domain>, ws: seq<string>)
    ensures (exists w :: w in ws && Fits(cells, w)) ==>
              forall i :: 0 <= i < |cells| ==> Narrowed(cells, ws)[i] != {}
    ensures (forall w :: w in ws ==> !Fits(cells, w)) ==>
              forall i :: 0 <= i < |cells| ==> Narrowed(cells, ws)[i] == {}
  {
    var n := Narrowed(cells, ws);
    if w :| w in ws && Fits(cells, w) {
      forall i | 0 <= i < |cells|
        ensures n[i] != {}
      {
        assert Occurs(cells, ws, i, w[i]);
        NarrowedMembers(cells, ws, i, w[i]);
      }
    } else {
      forall i | 0 <= i < |cells|
        ensures n[i] == {}
      {
        forall ch
          ensures ch !in n[i]
        {
          NarrowedMembers(cells, ws, i, ch);
        }
      }
    }
  }

  /** A subset has the same size as its superset exactly when they are
      equal, so comparing sizes detects every change the pass makes. */
  lemma ChangedIffResized(cells: seq<Domain>, possible: seq<Domain>)
    requires |possible| == |cells|
    requires forall i :: 0 <= i < |cells| ==> possible[i] <= cells[i]
    ensures (exists i :: 0 <= i < |cells| && |cells[i]| != |possible[i]|) <==> possible != cells
  {
    if possible != cells {
      var i :| 0 <= i < |cells| && possible[i] != cells[i];
      SubsetSize(possible[i], cells[i]);
    }
  }

  lemma SubsetSize(a: Domain, b: Domain)
    requires a <= b && a != b
    ensures |a| < |b|
  {
    var ch :| ch in b && ch !in a;
    SubsetCard(a, b - {ch});
  }

  lemma {:induction false} SubsetCard(a: Domain, b: Domain)
    requires a <= b
    ensures |a| <= |b|
    decreases |a|
  {
    if a != {} {
      var ch :| ch in a;
      SubsetCard(a - {ch}, b - {ch});
    }
  }

  /** A word fits the narrowed domains exactly when it fits the original
      ones. */
  lemma FitsNarrowed(cells: seq<Domain>, ws: seq<string>, w: string)
    requires w in ws
    ensures Fits(Narrowed(cells, ws), w) <==> Fits(cells, w)
  {
    var n := Narrowed(cells, ws);
    if Fits(cells, w) {
      forall i | 0 <= i < |cells|
        ensures i < |w| && w[i] in n[i]
      {
        assert Occurs(cells, ws, i, w[i]);
        NarrowedMembers(cells, ws, i, w[i]);
      }
    }
  }

  /** The pass is idempotent: narrowing the narrowed domains again against
      the same words changes nothing, so a second `collapseWords` returns
      `false`. */
  lemma NarrowIdempotent(cells: seq<Domain>, ws: seq<string>)
    ensures Narrowed(Narrowed(cells, ws), ws) == Narrowed(cells, ws)
  {
    var n := Narrowed(cells, ws);
    var nn := Narrowed(n, ws);
    forall i | 0 <= i < |cells|
      ensures nn[i] == n[i]
    {
      forall ch
        ensures ch in nn[i] <==> ch in n[i]
      {
        NarrowedMembers(n, ws, i, ch);
        NarrowedMembers(cells, ws, i, ch);
        if Occurs(n, ws, i, ch) {
          var w :| w in ws && Fits(n, w) && i < |w| && w[i] == ch;
          FitsNarrowed(cells, ws, w);
        }
        if Occurs(cells, ws, i, ch) {
          var w :| w in ws && Fits(cells, w) && i < |w| && w[i] == ch;
          FitsNarrowed(cells, ws, w);
        }
      }
    }
  }
}

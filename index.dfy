/**
 * The per-cell index of lines that every minimax engine builds once at start
 * up: for each cell, the quads and the triplets passing through it, so that
 * judging a move only looks at the lines the move can change.
 */
module LineIndexing {
  import opened Lines

  /**
   * Appends every line of ls to the list of each cell it passes through,
   * line by line and cell by cell, as the start-up loops do.
   */
  method IndexLines(index: seq<seq<Line>>, ls: seq<Line>, n: nat) returns (r: seq<seq<Line>>)
    requires |index| == Cells
    requires forall i :: 0 <= i < |ls| ==> WellFormed(ls[i], n)
    ensures |r| == Cells
    ensures forall c :: 0 <= c < Cells ==> r[c] == index[c] + Through(ls, c)
  {
    r := index;
    var k := 0;
    while k < |ls|
      invariant 0 <= k <= |ls| && |r| == Cells
      invariant forall c :: 0 <= c < Cells ==> r[c] == index[c] + Through(ls[..k], c)
    {
      var l := ls[k];
      WellFormedCells(l, n);
      var j := 0;
      while j < |l|
        invariant 0 <= j <= |l| && |r| == Cells
        invariant forall c :: 0 <= c < Cells ==>
          r[c] == index[c] + Through(ls[..k], c) + (if c in l[..j] then [l] else [])
      {
        var d := l[j];
        assert d !in l[..j];
        r := r[d := r[d] + [l]];
        assert l[..j + 1] == l[..j] + [d];
        j := j + 1;
      }
      assert l[..j] == l;
      assert ls[..k + 1] == ls[..k] + [l];
      forall c | 0 <= c < Cells
        ensures r[c] == index[c] + Through(ls[..k + 1], c)
      {
        ThroughAppend(ls[..k], l, c);
      }
      k := k + 1;
    }
    assert ls[..k] == ls;
  }

  /**
   * The two package-level index arrays and the flag that guards building
   * them; the lists start out empty.
   */
  class LineIndex {
    var triplets: seq<seq<Line>>
    var quads: seq<seq<Line>>
    var indexedCalcs: bool

    /** The lists are empty until the flag is set, and exact afterwards. */
    ghost predicate Valid()
      reads this
    {
      |triplets| == Cells && |quads| == Cells &&
      (indexedCalcs ==> Built()) &&
      (!indexedCalcs ==> forall c :: 0 <= c < Cells ==> triplets[c] == [] && quads[c] == [])
    }

    /** Each cell lists exactly the catalogue lines through it, in catalogue order. */
    ghost predicate Built()
      reads this
    {
      |triplets| == Cells && |quads| == Cells &&
      forall c :: 0 <= c < Cells ==> triplets[c] == Through(Triplets, c) && quads[c] == Through(Quads, c)
    }

    constructor ()
      ensures Valid() && !indexedCalcs
    {
      triplets := seq(Cells, _ => []);
      quads := seq(Cells, _ => []);
      indexedCalcs := false;
    }

    /** Appends each catalogue line to the lists of the cells on it; a second run would list every line twice. */
    method CalculateIndexedMatrices()
      requires |triplets| == Cells && |quads| == Cells
      modifies this
      ensures |triplets| == Cells && |quads| == Cells && indexedCalcs == old(indexedCalcs)
      ensures forall c :: 0 <= c < Cells ==>
        triplets[c] == old(triplets[c]) + Through(Triplets, c) && quads[c] == old(quads[c]) + Through(Quads, c)
    {
      CatalogueWellFormed();
      triplets := IndexLines(triplets, Triplets, 3);
      quads := IndexLines(quads, Quads, 4);
    }

    /** The guard in the engine constructors: build the index on first use only. */
    method Prepare()
      requires Valid()
      modifies this
      ensures Valid() && Built() && indexedCalcs
      ensures old(indexedCalcs) ==> triplets == old(triplets) && quads == old(quads)
    {
      if !indexedCalcs {
        CalculateIndexedMatrices();
        indexedCalcs := true;
        forall c | 0 <= c < Cells
          ensures triplets[c] == Through(Triplets, c) && quads[c] == Through(Quads, c)
        {
          assert old(triplets[c]) == [] && old(quads[c]) == [];
        }
      }
    }
  }

  /** Building the index on an empty table gives exactly the lines through each cell, each of the right shape. */
  lemma IndexedLinesWellFormed(c: nat)
    requires c < Cells
    ensures forall i :: 0 <= i < |Through(Triplets, c)| ==> WellFormed(Through(Triplets, c)[i], 3) && c in Through(Triplets, c)[i]
    ensures forall i :: 0 <= i < |Through(Quads, c)| ==> WellFormed(Through(Quads, c)[i], 4) && c in Through(Quads, c)[i]
  {
    CatalogueWellFormed();
    ThroughWellFormed(Triplets, c, 3);
    ThroughWellFormed(Quads, c, 4);
  }
}

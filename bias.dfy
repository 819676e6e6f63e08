/**
 * The positional bias table every minimax engine adds to a move's value
 * (setScores): either the fixed table that favours cells off the centre
 * row and column, or 25 random draws from a table of eleven small values.
 */
module Bias {
  import opened Lines

  /** The fixed table: 3 and 4 near the corners, 1 beside the centre, 0 on the centre row and column. */
  const Positional: seq<int> := [3, 3, 0, 3, 3,
                                 3, 4, 1, 4, 3,
                                 0, 1, 0, 1, 0,
                                 3, 4, 1, 4, 3,
                                 3, 3, 0, 3, 3]

  /**
   * The draw table as the engines write it: an eleven-slot array whose
   * literal lists -5, -4, -3 - 2, -1, 0, ..., 5. The third entry is one
   * element, -5, so only ten values are listed and the last slot keeps its
   * zero value.
   */
  const WrittenDraws: seq<int> := [-5, -4, -3 - 2, -1, 0, 1, 2, 3, 4, 5, 0]

  /** The draw table the literal evidently means: each of -5 .. 5 once. */
  const Draws: seq<int> := [-5, -4, -3, -2, -1, 0, 1, 2, 3, 4, 5]

  /**
   * A table that looks the same under reflection in the centre row, in the
   * centre column and across the main diagonal, and so under all eight
   * symmetries of the board those three generate.
   */
  predicate Symmetric(t: seq<int>)
    requires |t| == Cells
  {
    forall x, y :: 0 <= x < 5 && 0 <= y < 5 ==>
      t[Idx(4 - x, y)] == t[Idx(x, y)] && t[Idx(x, 4 - y)] == t[Idx(x, y)] && t[Idx(y, x)] == t[Idx(x, y)]
  }

  /** The fixed table favours no side or corner of the board. */
  lemma PositionalSymmetric()
    ensures Symmetric(Positional)
  {
    forall x, y | 0 <= x < 5 && 0 <= y < 5
      ensures Positional[Idx(4 - x, y)] == Positional[Idx(x, y)] && Positional[Idx(x, 4 - y)] == Positional[Idx(x, y)]
      ensures Positional[Idx(y, x)] == Positional[Idx(x, y)]
    {
      assert x == 0 || x == 1 || x == 2 || x == 3 || x == 4;
      assert y == 0 || y == 1 || y == 2 || y == 3 || y == 4;
    }
  }

  /** The written table never draws -3 or -2, and draws -5 and 0 from two slots each. */
  lemma SkewedDraws()
    ensures |WrittenDraws| == 11
    ensures forall i :: 0 <= i < 11 ==> WrittenDraws[i] != -3 && WrittenDraws[i] != -2
    ensures WrittenDraws[0] == WrittenDraws[2] == -5 && WrittenDraws[4] == WrittenDraws[10] == 0
  {
  }

  /** The intended table gives each value of -5 .. 5 for exactly one of the eleven draws. */
  lemma UniformDraws()
    ensures |Draws| == 11
    ensures forall i :: 0 <= i < 11 ==> Draws[i] == i - 5
  {
  }

  /**
   * setScores: with randomize, cell k gets the written draw table's value
   * at index draws[k] (the random rand.Intn(11) picks, supplied by the
   * caller), so never -3 or -2; otherwise the fixed table.
   */
  method SetScores(scores: array<int>, randomize: bool, draws: seq<int>)
    requires scores.Length == Cells
    requires randomize ==> |draws| == Cells && forall k :: 0 <= k < Cells ==> 0 <= draws[k] < 11
    modifies scores
    ensures randomize ==> forall k :: 0 <= k < Cells ==> scores[k] == WrittenDraws[draws[k]]
    ensures randomize ==> forall k :: 0 <= k < Cells ==> -5 <= scores[k] <= 5 && scores[k] != -3 && scores[k] != -2
    ensures !randomize ==> scores[..] == Positional
  {
    SkewedDraws();
    if randomize {
      var k := 0;
      while k < Cells
        invariant 0 <= k <= Cells
        invariant forall j :: 0 <= j < k ==> scores[j] == WrittenDraws[draws[j]]
      {
        scores[k] := WrittenDraws[draws[k]];
        k := k + 1;
      }
    } else {
      var k := 0;
      while k < Cells
        invariant 0 <= k <= Cells
        invariant scores[..k] == Positional[..k]
      {
        scores[k] := Positional[k];
        assert scores[..k + 1] == scores[..k] + [scores[k]];
        assert Positional[..k + 1] == Positional[..k] + [Positional[k]];
        k := k + 1;
      }
      assert scores[..] == scores[..Cells];
    }
  }
}

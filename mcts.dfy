/**
 * The Monte Carlo tree search engines: the MCTS engine (src/mcts/mcts.go),
 * its stand-alone twin squavam.go and the Python original squava2.py.
 *
 * A playout state knows whose mark went in last and the board; whether the
 * game is over and who won is read from per-cell tables: row m lists some
 * quads and triplets through cell m, and only the nine important cells
 * (row 2 and column 2) have rows. The tree nodes keep the moves not yet
 * expanded, the children, and the win and visit counts.
 */
module Mcts {
  import opened Lines
  import opened Referee

  /** importantCells: every catalogue line passes through one of them. */
  const ImportantCells: seq<nat> := Checkable

  /** winningQuads: row m lists quads through cell m; the rows of other cells are empty. */
  const WinningQuads: seq<seq<Line>> :=
    [[], [], [[0, 1, 2, 3], [1, 2, 3, 4], [2, 7, 12, 17]], [], [], [], [], [[5, 6, 7, 8], [6, 7, 8, 9], [7, 12, 17, 22]], [], [], [[0, 5, 10, 15], [5, 10, 15, 20]], [[1, 6, 11, 16], [6, 11, 16, 21], [3, 7, 11, 15], [5, 11, 17, 23]], [[10, 11, 12, 13], [11, 12, 13, 14], [4, 8, 12, 16], [8, 12, 16, 20], [0, 6, 12, 18], [6, 12, 18, 24]], [[3, 8, 13, 18], [8, 13, 18, 23], [1, 7, 13, 19], [9, 13, 17, 21]], [[4, 9, 14, 19], [9, 14, 19, 24]], [], [], [[15, 16, 17, 18], [16, 17, 18, 19]], [], [], [], [], [[20, 21, 22, 23], [21, 22, 23, 24]], [], []]

  /** losingTriplets: row m lists triplets through cell m; a triplet through two important cells is listed twice. */
  const LosingTriplets: seq<seq<Line>> :=
    [[], [], [[0, 1, 2], [1, 2, 3], [2, 3, 4], [2, 7, 12], [2, 6, 10], [14, 8, 2]], [], [], [], [], [[5, 6, 7], [6, 7, 8], [7, 8, 9], [2, 7, 12], [7, 12, 17], [3, 7, 11], [7, 11, 15], [1, 7, 13], [7, 13, 19]], [], [], [[10, 11, 12], [0, 5, 10], [5, 10, 15], [10, 15, 20], [2, 6, 10], [10, 16, 22]], [[10, 11, 12], [11, 12, 13], [1, 6, 11], [6, 11, 16], [11, 16, 21], [3, 7, 11], [7, 11, 15], [5, 11, 17], [11, 17, 23]], [[10, 11, 12], [11, 12, 13], [12, 13, 14], [2, 7, 12], [7, 12, 17], [12, 17, 22], [0, 6, 12], [6, 12, 18], [12, 18, 24], [4, 8, 12], [8, 12, 16], [12, 16, 20]], [[11, 12, 13], [12, 13, 14], [3, 8, 13], [8, 13, 18], [13, 18, 23], [1, 7, 13], [7, 13, 19], [21, 17, 13], [17, 13, 9]], [[12, 13, 14], [4, 9, 14], [9, 14, 19], [14, 19, 24], [22, 18, 14], [14, 8, 2]], [], [], [[15, 16, 17], [16, 17, 18], [17, 18, 19], [7, 12, 17], [12, 17, 22], [5, 11, 17], [11, 17, 23], [21, 17, 13], [17, 13, 9]], [], [], [], [], [[20, 21, 22], [21, 22, 23], [22, 23, 24], [12, 17, 22], [10, 16, 22], [22, 18, 14]], [], []]

  /** For each listed line, the index of the catalogue line it is (in either direction). */
  const QuadIndex: seq<seq<nat>> :=
    [[], [], [1, 4, 6], [], [], [], [], [10, 13, 15], [], [], [0, 9], [3, 12, 21, 11], [18, 19, 23, 25, 2, 14], [7, 16, 5, 27], [8, 17], [], [], [20, 22], [], [], [], [], [24, 26], [], []]
  const TripletIndex: seq<seq<nat>> :=
    [[], [], [1, 15, 29, 28, 8, 30], [], [], [], [], [4, 18, 32, 28, 31, 22, 11, 16, 33], [], [], [7, 0, 3, 6, 8, 9], [7, 21, 14, 17, 20, 22, 11, 5, 23], [7, 21, 35, 28, 31, 34, 2, 19, 37, 36, 25, 13], [21, 35, 42, 43, 44, 16, 33, 27, 39], [35, 45, 46, 47, 41, 30], [], [], [10, 24, 38, 31, 34, 5, 23, 27, 39], [], [], [], [], [12, 26, 40, 34, 9, 41], [], []]

  /** For each catalogue line, the important cell and the position in that cell's row where it is listed. */
  const QuadCell: seq<nat> := QuadCellA + QuadCellB
  const QuadCellA: seq<nat> := [10, 2, 12, 11, 2, 13, 2, 13, 14, 10, 7, 11, 11, 7, 12, 7]
  const QuadCellB: seq<nat> := [13, 14, 12, 12, 17, 11, 17, 12, 22, 12, 22, 13]
  const QuadPos: seq<nat> := QuadPosA + QuadPosB
  const QuadPosA: seq<nat> := [0, 0, 4, 0, 1, 2, 2, 0, 0, 1, 0, 3, 1, 1, 5, 2]
  const QuadPosB: seq<nat> := [1, 1, 0, 1, 0, 2, 1, 2, 0, 3, 1, 3]
  const TripletCell: seq<nat> := TripletCellA + TripletCellB + TripletCellC
  const TripletCellA: seq<nat> := [10, 2, 12, 10, 7, 11, 10, 10, 2, 10, 17, 7, 22, 12, 11, 2]
  const TripletCellB: seq<nat> := [7, 11, 7, 12, 11, 11, 7, 11, 17, 12, 22, 13, 2, 2, 2, 7]
  const TripletCellC: seq<nat> := [7, 7, 12, 12, 12, 12, 17, 13, 22, 14, 13, 13, 13, 14, 14, 14]
  const TripletPos: seq<nat> := TripletPosA + TripletPosB + TripletPosC
  const TripletPosA: seq<nat> := [1, 0, 6, 2, 0, 7, 3, 0, 4, 5, 0, 6, 0, 11, 2, 1]
  const TripletPosB: seq<nat> := [7, 3, 1, 7, 4, 1, 5, 8, 1, 10, 1, 7, 3, 2, 5, 4]
  const TripletPosC: seq<nat> := [2, 8, 5, 2, 9, 8, 2, 8, 2, 4, 2, 3, 4, 1, 2, 3]

  /** l lists the cells of catalogue line m, in m's order or in reverse. */
  predicate SameLine(l: Line, m: Line)
  {
    l == m || (|m| == 3 && l == [m[2], m[1], m[0]]) || (|m| == 4 && l == [m[3], m[2], m[1], m[0]])
  }

  /**
   * Row c of tab lists well-formed lines of length n through c, only an
   * important cell has a non-empty row, and the j-th line of row c is the
   * catalogue line cat[idx[c][j]].
   */
  ghost predicate Tabled(tab: seq<seq<Line>>, idx: seq<seq<nat>>, cat: seq<Line>, n: nat)
  {
    |tab| == Cells && |idx| == Cells &&
    forall c :: 0 <= c < Cells ==>
      |idx[c]| == |tab[c]| && (tab[c] != [] ==> c in ImportantCells) &&
      forall j :: 0 <= j < |tab[c]| ==>
        WellFormed(tab[c][j], n) && c in tab[c][j] && idx[c][j] < |cat| && SameLine(tab[c][j], cat[idx[c][j]])
  }

  /** Catalogue line i is listed at position pos[i] of the row of the important cell cell[i]. */
  ghost predicate Covered(tab: seq<seq<Line>>, cat: seq<Line>, cell: seq<nat>, pos: seq<nat>)
  {
    |tab| == Cells && |cell| == |cat| && |pos| == |cat| &&
    forall i :: 0 <= i < |cat| ==>
      cell[i] in ImportantCells && cell[i] < Cells && pos[i] < |tab[cell[i]]| && SameLine(tab[cell[i]][pos[i]], cat[i])
  }

  /** Row c of tab: well-formed lines of length n through c, the j-th being catalogue line cat[idx[j]]. */
  ghost predicate RowTabled(row: seq<Line>, idx: seq<nat>, cat: seq<Line>, c: nat, n: nat)
  {
    |idx| == |row| &&
    forall j :: 0 <= j < |row| ==> WellFormed(row[j], n) && c in row[j] && idx[j] < |cat| && SameLine(row[j], cat[idx[j]])
  }
  lemma QuadRow2() ensures RowTabled(WinningQuads[2], QuadIndex[2], Quads, 2, 4) {}
  lemma QuadRow7() ensures RowTabled(WinningQuads[7], QuadIndex[7], Quads, 7, 4) {}
  lemma QuadRow10() ensures RowTabled(WinningQuads[10], QuadIndex[10], Quads, 10, 4) {}
  lemma QuadRow11() ensures RowTabled(WinningQuads[11], QuadIndex[11], Quads, 11, 4) {}
  lemma QuadRow12() ensures RowTabled(WinningQuads[12], QuadIndex[12], Quads, 12, 4) {}
  lemma QuadRow13() ensures RowTabled(WinningQuads[13], QuadIndex[13], Quads, 13, 4) {}
  lemma QuadRow14() ensures RowTabled(WinningQuads[14], QuadIndex[14], Quads, 14, 4) {}
  lemma QuadRow17() ensures RowTabled(WinningQuads[17], QuadIndex[17], Quads, 17, 4) {}
  lemma QuadRow22() ensures RowTabled(WinningQuads[22], QuadIndex[22], Quads, 22, 4) {}
  lemma TripletRow2() ensures RowTabled(LosingTriplets[2], TripletIndex[2], Triplets, 2, 3) {}
  lemma TripletRow7() ensures RowTabled(LosingTriplets[7], TripletIndex[7], Triplets, 7, 3) {}
  lemma TripletRow10() ensures RowTabled(LosingTriplets[10], TripletIndex[10], Triplets, 10, 3) {}
  lemma TripletRow11() ensures RowTabled(LosingTriplets[11], TripletIndex[11], Triplets, 11, 3) {}
  lemma TripletRow12() ensures RowTabled(LosingTriplets[12], TripletIndex[12], Triplets, 12, 3) {}
  lemma TripletRow13() ensures RowTabled(LosingTriplets[13], TripletIndex[13], Triplets, 13, 3) {}
  lemma TripletRow14() ensures RowTabled(LosingTriplets[14], TripletIndex[14], Triplets, 14, 3) {}
  lemma TripletRow17() ensures RowTabled(LosingTriplets[17], TripletIndex[17], Triplets, 17, 3) {}
  lemma TripletRow22() ensures RowTabled(LosingTriplets[22], TripletIndex[22], Triplets, 22, 3) {}

  lemma QuadsTabled()
    ensures Tabled(WinningQuads, QuadIndex, Quads, 4)
  {
    QuadRow2();
    QuadRow7();
    QuadRow10();
    QuadRow11();
    QuadRow12();
    QuadRow13();
    QuadRow14();
    QuadRow17();
    QuadRow22();
    forall c | 0 <= c < Cells
      ensures RowTabled(WinningQuads[c], QuadIndex[c], Quads, c, 4) && (WinningQuads[c] != [] ==> c in ImportantCells)
    {
    }
  }

  lemma TripletsTabled()
    ensures Tabled(LosingTriplets, TripletIndex, Triplets, 3)
  {
    TripletRow2();
    TripletRow7();
    TripletRow10();
    TripletRow11();
    TripletRow12();
    TripletRow13();
    TripletRow14();
    TripletRow17();
    TripletRow22();
    forall c | 0 <= c < Cells
      ensures RowTabled(LosingTriplets[c], TripletIndex[c], Triplets, c, 3) && (LosingTriplets[c] != [] ==> c in ImportantCells)
    {
    }
  }

  /** Catalogue line i is the line at position pos[i] of the row of the important cell cell[i]. */
  ghost predicate InvertedAt(idx: seq<seq<nat>>, cell: seq<nat>, pos: seq<nat>, i: nat)
    requires |idx| == Cells && i < |cell| && i < |pos|
  {
    cell[i] in ImportantCells && cell[i] < Cells && pos[i] < |idx[cell[i]]| && idx[cell[i]][pos[i]] == i
  }

  ghost predicate InvertedFrom(idx: seq<seq<nat>>, cell: seq<nat>, pos: seq<nat>, lo: nat, hi: nat)
  {
    |idx| == Cells && hi <= |cell| && hi <= |pos| && forall i :: lo <= i < hi ==> InvertedAt(idx, cell, pos, i)
  }

  lemma QuadsInverted0()
    ensures InvertedFrom(QuadIndex, QuadCell, QuadPos, 0, 14)
  {
    forall i | 0 <= i < 14
      ensures InvertedAt(QuadIndex, QuadCell, QuadPos, i)
    {
      if i == 0 {} else if i == 1 {} else if i == 2 {} else if i == 3 {} else if i == 4 {} else if i == 5 {} else if i == 6 {} else if i == 7 {} else if i == 8 {} else if i == 9 {} else if i == 10 {} else if i == 11 {} else if i == 12 {} else if i == 13 {}
    }
  }
  lemma QuadsInverted14()
    ensures InvertedFrom(QuadIndex, QuadCell, QuadPos, 14, 28)
  {
    forall i | 14 <= i < 28
      ensures InvertedAt(QuadIndex, QuadCell, QuadPos, i)
    {
      if i == 14 {} else if i == 15 {} else if i == 16 {} else if i == 17 {} else if i == 18 {} else if i == 19 {} else if i == 20 {} else if i == 21 {} else if i == 22 {} else if i == 23 {} else if i == 24 {} else if i == 25 {} else if i == 26 {} else if i == 27 {}
    }
  }

  lemma QuadsInverted()
    ensures InvertedFrom(QuadIndex, QuadCell, QuadPos, 0, 28)
  {
    QuadsInverted0();
    QuadsInverted14();
  }

  lemma TripletsInverted0()
    ensures InvertedFrom(TripletIndex, TripletCell, TripletPos, 0, 8)
  {
    forall i | 0 <= i < 8
      ensures InvertedAt(TripletIndex, TripletCell, TripletPos, i)
    {
      if i == 0 {} else if i == 1 {} else if i == 2 {} else if i == 3 {} else if i == 4 {} else if i == 5 {} else if i == 6 {} else if i == 7 {}
    }
  }
  lemma TripletsInverted8()
    ensures InvertedFrom(TripletIndex, TripletCell, TripletPos, 8, 16)
  {
    forall i | 8 <= i < 16
      ensures InvertedAt(TripletIndex, TripletCell, TripletPos, i)
    {
      if i == 8 {} else if i == 9 {} else if i == 10 {} else if i == 11 {} else if i == 12 {} else if i == 13 {} else if i == 14 {} else if i == 15 {}
    }
  }
  lemma TripletsInverted16()
    ensures InvertedFrom(TripletIndex, TripletCell, TripletPos, 16, 24)
  {
    forall i | 16 <= i < 24
      ensures InvertedAt(TripletIndex, TripletCell, TripletPos, i)
    {
      if i == 16 {} else if i == 17 {} else if i == 18 {} else if i == 19 {} else if i == 20 {} else if i == 21 {} else if i == 22 {} else if i == 23 {}
    }
  }
  lemma TripletsInverted24()
    ensures InvertedFrom(TripletIndex, TripletCell, TripletPos, 24, 32)
  {
    forall i | 24 <= i < 32
      ensures InvertedAt(TripletIndex, TripletCell, TripletPos, i)
    {
      if i == 24 {} else if i == 25 {} else if i == 26 {} else if i == 27 {} else if i == 28 {} else if i == 29 {} else if i == 30 {} else if i == 31 {}
    }
  }
  lemma TripletsInverted32()
    ensures InvertedFrom(TripletIndex, TripletCell, TripletPos, 32, 40)
  {
    forall i | 32 <= i < 40
      ensures InvertedAt(TripletIndex, TripletCell, TripletPos, i)
    {
      if i == 32 {} else if i == 33 {} else if i == 34 {} else if i == 35 {} else if i == 36 {} else if i == 37 {} else if i == 38 {} else if i == 39 {}
    }
  }
  lemma TripletsInverted40()
    ensures InvertedFrom(TripletIndex, TripletCell, TripletPos, 40, 48)
  {
    forall i | 40 <= i < 48
      ensures InvertedAt(TripletIndex, TripletCell, TripletPos, i)
    {
      if i == 40 {} else if i == 41 {} else if i == 42 {} else if i == 43 {} else if i == 44 {} else if i == 45 {} else if i == 46 {} else if i == 47 {}
    }
  }

  lemma TripletsInverted()
    ensures InvertedFrom(TripletIndex, TripletCell, TripletPos, 0, 48)
  {
    TripletsInverted0();
    TripletsInverted8();
    TripletsInverted16();
    TripletsInverted24();
    TripletsInverted32();
    TripletsInverted40();
  }

  lemma TabledCovered(tab: seq<seq<Line>>, idx: seq<seq<nat>>, cat: seq<Line>, n: nat, cell: seq<nat>, pos: seq<nat>)
    requires Tabled(tab, idx, cat, n) && InvertedFrom(idx, cell, pos, 0, |cat|) && |cell| == |pos| == |cat|
    ensures Covered(tab, cat, cell, pos)
  {
    forall i | 0 <= i < |cat|
      ensures cell[i] in ImportantCells && cell[i] < Cells && pos[i] < |tab[cell[i]]| && SameLine(tab[cell[i]][pos[i]], cat[i])
    {
      assert InvertedAt(idx, cell, pos, i);
    }
  }

  /** Every catalogue quad and triplet is listed in the row of an important cell on it. */
  lemma CatalogueCovered()
    ensures Covered(WinningQuads, Quads, QuadCell, QuadPos)
    ensures Covered(LosingTriplets, Triplets, TripletCell, TripletPos)
  {
    QuadsTabled();
    TripletsTabled();
    CatalogueWellFormed();
    QuadsInverted();
    TripletsInverted();
    TabledCovered(WinningQuads, QuadIndex, Quads, 4, QuadCell, QuadPos);
    TabledCovered(LosingTriplets, TripletIndex, Triplets, 3, TripletCell, TripletPos);
  }

  /** Every line in every row of tab is a well-formed triplet or quad. */
  ghost predicate RowsShaped(tab: seq<seq<Line>>)
  {
    |tab| == Cells && forall c, j :: 0 <= c < Cells && 0 <= j < |tab[c]| ==> WellFormed(tab[c][j], |tab[c][j]|)
  }

  predicate OnBoard(cells: seq<nat>) { forall k :: 0 <= k < |cells| ==> cells[k] < Cells }

  /** Every cell in order, the rows the Python engine walks. */
  const AllCells: seq<nat> := AllCellsA + AllCellsB
  const AllCellsA: seq<nat> := [0, 1, 2, 3, 4, 5, 6, 7, 8, 9, 10, 11, 12, 13, 14, 15]
  const AllCellsB: seq<nat> := [16, 17, 18, 19, 20, 21, 22, 23, 24]

  /** The k-th cell of AllCells is cell k. */
  lemma AllCellsInOrder()
    ensures |AllCells| == Cells && forall k :: 0 <= k < Cells ==> AllCells[k] == k
  {
    forall k | 0 <= k < Cells
      ensures AllCells[k] == k
    {
      if k < 16 {
        assert AllCells[k] == AllCellsA[k];
      } else {
        assert AllCells[k] == AllCellsB[k - 16];
      }
    }
  }

  lemma TablesShaped()
    ensures RowsShaped(WinningQuads) && RowsShaped(LosingTriplets)
    ensures OnBoard(ImportantCells) && OnBoard(AllCells)
  {
    QuadsTabled();
    TripletsTabled();
  }

  /**
   * The lines examined on board b, in the order they are examined: the rows
   * of tab for the cells of cells, passing over the row of an empty cell
   * when occupied is set.
   */
  function Scanned(b: seq<int>, tab: seq<seq<Line>>, cells: seq<nat>, occupied: bool): (r: seq<Line>)
    requires |b| == Cells && RowsShaped(tab) && OnBoard(cells)
    ensures LinesOk(r)
  {
    if cells == [] then []
    else
      var row := if !occupied || b[cells[0]] != UNSET then tab[cells[0]] else [];
      var rest := Scanned(b, tab, cells[1..], occupied);
      assert forall i :: 0 <= i < |row + rest| ==> (row + rest)[i] == if i < |row| then row[i] else rest[i - |row|];
      row + rest
  }

  /** The quads GetResult and findWinner examine: the rows of the occupied important cells. */
  function QuadScan(b: seq<int>): (r: seq<Line>)
    requires |b| == Cells
    ensures LinesOk(r)
  {
    TablesShaped();
    Scanned(b, WinningQuads, ImportantCells, true)
  }

  /** The triplets GetResult and findWinner examine, after the quads. */
  function TripletScan(b: seq<int>): (r: seq<Line>)
    requires |b| == Cells
    ensures LinesOk(r)
  {
    TablesShaped();
    Scanned(b, LosingTriplets, ImportantCells, true)
  }

  /** The sum of the first line of ls one player holds completely: +-3 or +-4, or 0 when there is none. */
  function FirstSum(b: seq<int>, ls: seq<Line>): int
    requires |b| == Cells && LinesOk(ls)
  {
    if ls == [] then 0
    else if Complete(b, ls[0]) then Sum(b, ls[0])
    else FirstSum(b, ls[1..])
  }

  /** Every line of ls has n cells. */
  predicate Lengths(ls: seq<Line>, n: nat) { forall i :: 0 <= i < |ls| ==> |ls[i]| == n }

  /** Whoever holds a complete line of ls holds every complete line of ls. */
  ghost predicate Unanimous(b: seq<int>, ls: seq<Line>)
    requires |b| == Cells && LinesOk(ls)
  {
    forall i, j :: 0 <= i < |ls| && 0 <= j < |ls| && Complete(b, ls[i]) && Complete(b, ls[j]) ==> b[ls[i][0]] == b[ls[j][0]]
  }

  /** findWinner on the lines examined: the first complete quad's owner, else the opponent of the first complete triplet's owner. */
  function Judge(b: seq<int>, qs: seq<Line>, ts: seq<Line>): int
    requires |b| == Cells && LinesOk(qs) && LinesOk(ts)
  {
    var q := FirstSum(b, qs);
    if q == 4 then MAXIMIZER else if q == -4 then MINIMIZER
    else
      var t := FirstSum(b, ts);
      if t == 3 then MINIMIZER else if t == -3 then MAXIMIZER else UNSET
  }

  /** Whether GetResult finds its answer on the lines examined: some quad sums to +-4 or some triplet to +-3. */
  predicate Decided(b: seq<int>, qs: seq<Line>, ts: seq<Line>)
    requires |b| == Cells && LinesOk(qs) && LinesOk(ts)
  {
    var q, t := FirstSum(b, qs), FirstSum(b, ts);
    q == 4 || q == -4 || t == 3 || t == -3
  }

  /**
   * GetResult(pjm) on the lines examined: 1.0 when the first complete quad
   * is pjm's and 0.0 when it is the other player's; with no complete quad,
   * 0.0 when the first complete triplet is pjm's and 1.0 when it is the
   * other player's; 0.0 when nothing is complete.
   */
  function Outcome(b: seq<int>, qs: seq<Line>, ts: seq<Line>, pjm: int): real
    requires |b| == Cells && LinesOk(qs) && LinesOk(ts)
  {
    var q := FirstSum(b, qs);
    if q == 4 || q == -4 then (if q == 4 * pjm then 1.0 else 0.0)
    else
      var t := FirstSum(b, ts);
      if t == 3 || t == -3 then (if t == 3 * pjm then 0.0 else 1.0) else 0.0
  }

  lemma {:induction false} FirstSumAppend(b: seq<int>, xs: seq<Line>, ys: seq<Line>)
    requires |b| == Cells && LinesOk(xs) && LinesOk(ys)
    ensures LinesOk(xs + ys)
    ensures FirstSum(b, xs + ys) == if FirstSum(b, xs) != 0 then FirstSum(b, xs) else FirstSum(b, ys)
  {
    assert forall i :: 0 <= i < |xs + ys| ==> (xs + ys)[i] == if i < |xs| then xs[i] else ys[i - |xs|];
    if xs == [] {
      assert xs + ys == ys;
    } else {
      assert (xs + ys)[1..] == xs[1..] + ys;
      FirstSumAppend(b, xs[1..], ys);
    }
  }

  /** On a valid board the first complete line's sum is its length times its owner, the owner FirstOwner names. */
  lemma {:induction false} FirstSumOwner(b: seq<int>, ls: seq<Line>, n: nat)
    requires ValidBoard(b) && LinesOk(ls) && Lengths(ls, n)
    ensures FirstSum(b, ls) == n * FirstOwner(b, ls)
    ensures FirstSum(b, ls) == 0 <==> !AnyComplete(b, ls)
  {
    FirstOwnerFacts(b, ls);
    if ls != [] {
      if Complete(b, ls[0]) {
        CompleteOwner(b, ls[0], ls[0][0]);
      } else {
        FirstSumOwner(b, ls[1..], n);
      }
    }
  }

  /**
   * On a valid board, findWinner and GetResult on quads qs and triplets ts
   * are the referee's verdict on them: Judge is Decide, GetResult(pjm) is
   * 1.0 exactly when that verdict is pjm, and the lines settle the game
   * exactly when the verdict is a player.
   */
  lemma JudgeIsDecide(b: seq<int>, qs: seq<Line>, ts: seq<Line>, pjm: int)
    requires ValidBoard(b) && LinesOk(qs) && LinesOk(ts) && Lengths(qs, 4) && Lengths(ts, 3)
    ensures Judge(b, qs, ts) == Decide(b, qs, ts)
    ensures Decided(b, qs, ts) <==> Decide(b, qs, ts) != UNSET
    ensures pjm == MAXIMIZER || pjm == MINIMIZER ==>
      Outcome(b, qs, ts, pjm) == if Decide(b, qs, ts) == pjm then 1.0 else 0.0
  {
    FirstSumOwner(b, qs, 4);
    FirstSumOwner(b, ts, 3);
    FirstOwnerFacts(b, qs);
    FirstOwnerFacts(b, ts);
  }

  lemma {:induction false} ScannedFrom(b: seq<int>, tab: seq<seq<Line>>, cells: seq<nat>, occupied: bool, l: Line)
    requires |b| == Cells && RowsShaped(tab) && OnBoard(cells)
    requires l in Scanned(b, tab, cells, occupied)
    ensures exists k, j :: 0 <= k < |cells| && 0 <= j < |tab[cells[k]]| && tab[cells[k]][j] == l && (occupied ==> b[cells[k]] != UNSET)
  {
    var row := if !occupied || b[cells[0]] != UNSET then tab[cells[0]] else [];
    if l in row {
      var j :| 0 <= j < |row| && row[j] == l;
      assert tab[cells[0]][j] == l;
    } else {
      ScannedFrom(b, tab, cells[1..], occupied, l);
      var k, j :| 0 <= k < |cells[1..]| && 0 <= j < |tab[cells[1..][k]]| && tab[cells[1..][k]][j] == l && (occupied ==> b[cells[1..][k]] != UNSET);
      assert cells[1..][k] == cells[k + 1];
    }
  }

  lemma {:induction false} ScannedHas(b: seq<int>, tab: seq<seq<Line>>, cells: seq<nat>, occupied: bool, k: nat, j: nat)
    requires |b| == Cells && RowsShaped(tab) && OnBoard(cells)
    requires k < |cells| && j < |tab[cells[k]]| && (occupied ==> b[cells[k]] != UNSET)
    ensures tab[cells[k]][j] in Scanned(b, tab, cells, occupied)
  {
    if k == 0 {
      assert tab[cells[0]][j] in tab[cells[0]];
    } else {
      assert cells[1..][k - 1] == cells[k];
      ScannedHas(b, tab, cells[1..], occupied, k - 1, j);
    }
  }

  /** A line and its listing in either direction have the same cells, the same sum and, when complete, the same owner. */
  lemma SameLineFacts(b: seq<int>, l: Line, m: Line)
    requires |b| == Cells && SameLine(l, m) && WellFormed(m, |m|)
    ensures WellFormed(l, |l|) && |l| == |m| && Sum(b, l) == Sum(b, m) && (Complete(b, l) <==> Complete(b, m))
    ensures forall c :: c in l <==> c in m
    ensures ValidBoard(b) && Complete(b, m) ==> b[l[0]] == b[m[0]]
  {
    if ValidBoard(b) && Complete(b, m) {
      CompleteOwner(b, m, l[0]);
    }
  }

  lemma TabledShaped(tab: seq<seq<Line>>, idx: seq<seq<nat>>, cat: seq<Line>, n: nat)
    requires Tabled(tab, idx, cat, n)
    ensures RowsShaped(tab)
  {
  }

  /** Each examined line is a catalogue line of length n, listed in either direction. */
  lemma ScannedListed(b: seq<int>, tab: seq<seq<Line>>, idx: seq<seq<nat>>, cat: seq<Line>, n: nat,
                      cells: seq<nat>, occupied: bool, i: nat) returns (x: nat)
    requires |b| == Cells && Tabled(tab, idx, cat, n) && OnBoard(cells)
    requires RowsShaped(tab) && i < |Scanned(b, tab, cells, occupied)|
    ensures x < |cat| && |Scanned(b, tab, cells, occupied)[i]| == n && SameLine(Scanned(b, tab, cells, occupied)[i], cat[x])
  {
    var l := Scanned(b, tab, cells, occupied)[i];
    ScannedFrom(b, tab, cells, occupied, l);
    var k, j :| 0 <= k < |cells| && 0 <= j < |tab[cells[k]]| && tab[cells[k]][j] == l && (occupied ==> b[cells[k]] != UNSET);
    x := idx[cells[k]][j];
  }

  /** A complete catalogue line is examined: it is listed at an important cell on it, which is then occupied. */
  lemma CatalogueScanned(b: seq<int>, tab: seq<seq<Line>>, idx: seq<seq<nat>>, cat: seq<Line>, n: nat,
                         cell: seq<nat>, pos: seq<nat>, cells: seq<nat>, occupied: bool, i: nat)
    requires ValidBoard(b) && Tabled(tab, idx, cat, n) && Covered(tab, cat, cell, pos) && LinesOk(cat) && OnBoard(cells)
    requires RowsShaped(tab) && forall c :: c in ImportantCells ==> c in cells
    requires i < |cat| && Complete(b, cat[i])
    ensures AnyComplete(b, Scanned(b, tab, cells, occupied))
  {
    var c := cell[i];
    var l := tab[c][pos[i]];
    SameLineFacts(b, l, cat[i]);
    assert c in l;
    CompleteOwner(b, cat[i], c);
    var k :| 0 <= k < |cells| && cells[k] == c;
    ScannedHas(b, tab, cells, occupied, k, pos[i]);
    var ls := Scanned(b, tab, cells, occupied);
    var y :| 0 <= y < |ls| && ls[y] == l;
  }

  lemma ScanLengths(b: seq<int>, tab: seq<seq<Line>>, idx: seq<seq<nat>>, cat: seq<Line>, n: nat, cells: seq<nat>, occupied: bool)
    requires |b| == Cells && Tabled(tab, idx, cat, n) && RowsShaped(tab) && OnBoard(cells)
    ensures Lengths(Scanned(b, tab, cells, occupied), n)
  {
    var ls := Scanned(b, tab, cells, occupied);
    forall i | 0 <= i < |ls|
      ensures |ls[i]| == n
    {
      var x := ScannedListed(b, tab, idx, cat, n, cells, occupied, i);
    }
  }

  /** Examining the tables instead of the catalogue finds a complete line exactly when there is one. */
  lemma ScanComplete(b: seq<int>, tab: seq<seq<Line>>, idx: seq<seq<nat>>, cat: seq<Line>, n: nat,
                     cell: seq<nat>, pos: seq<nat>, cells: seq<nat>, occupied: bool)
    requires ValidBoard(b) && Tabled(tab, idx, cat, n) && Covered(tab, cat, cell, pos) && LinesOk(cat) && OnBoard(cells)
    requires RowsShaped(tab) && forall c :: c in ImportantCells ==> c in cells
    ensures AnyComplete(b, Scanned(b, tab, cells, occupied)) <==> AnyComplete(b, cat)
  {
    var ls := Scanned(b, tab, cells, occupied);
    if AnyComplete(b, ls) {
      var i :| 0 <= i < |ls| && Complete(b, ls[i]);
      var x := ScannedListed(b, tab, idx, cat, n, cells, occupied, i);
      SameLineFacts(b, ls[i], cat[x]);
    }
    if AnyComplete(b, cat) {
      var i :| 0 <= i < |cat| && Complete(b, cat[i]);
      CatalogueScanned(b, tab, idx, cat, n, cell, pos, cells, occupied, i);
    }
  }

  /** When one player holds every complete catalogue line, the tables name that player first too. */
  lemma ScanOwner(b: seq<int>, tab: seq<seq<Line>>, idx: seq<seq<nat>>, cat: seq<Line>, n: nat, cells: seq<nat>, occupied: bool)
    requires ValidBoard(b) && Tabled(tab, idx, cat, n) && LinesOk(cat) && OnBoard(cells) && RowsShaped(tab)
    requires Unanimous(b, cat) && AnyComplete(b, cat) && AnyComplete(b, Scanned(b, tab, cells, occupied))
    ensures FirstOwner(b, Scanned(b, tab, cells, occupied)) == FirstOwner(b, cat)
  {
    var ls := Scanned(b, tab, cells, occupied);
    FirstOwnerFacts(b, ls);
    FirstOwnerFacts(b, cat);
    var i :| 0 <= i < |ls| && Complete(b, ls[i]) && OwnedBy(b, ls[i], FirstOwner(b, ls));
    var x := ScannedListed(b, tab, idx, cat, n, cells, occupied, i);
    SameLineFacts(b, ls[i], cat[x]);
    var w :| 0 <= w < |cat| && Complete(b, cat[w]) && OwnedBy(b, cat[w], FirstOwner(b, cat));
    assert b[cat[x][0]] == b[cat[w][0]];
  }

  /**
   * Examining the tables instead of the catalogue finds a complete line
   * exactly when there is one, and, when one player holds all complete
   * lines, names the same owner first.
   */
  lemma ScanAgrees(b: seq<int>, tab: seq<seq<Line>>, idx: seq<seq<nat>>, cat: seq<Line>, n: nat,
                   cell: seq<nat>, pos: seq<nat>, cells: seq<nat>, occupied: bool)
    requires ValidBoard(b) && Tabled(tab, idx, cat, n) && Covered(tab, cat, cell, pos) && LinesOk(cat) && OnBoard(cells)
    requires forall c :: c in ImportantCells ==> c in cells
    ensures RowsShaped(tab) && Lengths(Scanned(b, tab, cells, occupied), n)
    ensures AnyComplete(b, Scanned(b, tab, cells, occupied)) <==> AnyComplete(b, cat)
    ensures Unanimous(b, cat) ==> FirstOwner(b, Scanned(b, tab, cells, occupied)) == FirstOwner(b, cat)
  {
    TabledShaped(tab, idx, cat, n);
    ScanLengths(b, tab, idx, cat, n, cells, occupied);
    ScanComplete(b, tab, idx, cat, n, cell, pos, cells, occupied);
    var ls := Scanned(b, tab, cells, occupied);
    FirstOwnerFacts(b, ls);
    FirstOwnerFacts(b, cat);
    if Unanimous(b, cat) && AnyComplete(b, cat) {
      ScanOwner(b, tab, idx, cat, n, cells, occupied);
    }
  }

  /**
   * On a valid board the tables, walked over any cells that include the
   * important ones, reach the referee's verdict on the whole catalogue as
   * far as that verdict is determined: they find no winner exactly when the
   * catalogue does, and the same winner when one player holds all complete
   * quads and one player all complete triplets.
   */
  lemma TablesAgree(b: seq<int>, cells: seq<nat>, occupied: bool)
    requires ValidBoard(b) && OnBoard(cells) && forall c :: c in ImportantCells ==> c in cells
    ensures LinesOk(Quads) && LinesOk(Triplets) && RowsShaped(WinningQuads) && RowsShaped(LosingTriplets)
    ensures Lengths(Scanned(b, WinningQuads, cells, occupied), 4) && Lengths(Scanned(b, LosingTriplets, cells, occupied), 3)
    ensures AnyComplete(b, Scanned(b, WinningQuads, cells, occupied)) <==> AnyComplete(b, Quads)
    ensures AnyComplete(b, Scanned(b, LosingTriplets, cells, occupied)) <==> AnyComplete(b, Triplets)
    ensures Decide(b, Scanned(b, WinningQuads, cells, occupied), Scanned(b, LosingTriplets, cells, occupied)) == UNSET <==> Winner(b) == UNSET
    ensures Unanimous(b, Quads) && Unanimous(b, Triplets) ==>
      Decide(b, Scanned(b, WinningQuads, cells, occupied), Scanned(b, LosingTriplets, cells, occupied)) == Winner(b)
  {
    QuadsTabled();
    TripletsTabled();
    CatalogueCovered();
    CatalogueOk();
    var qs, ts := Scanned(b, WinningQuads, cells, occupied), Scanned(b, LosingTriplets, cells, occupied);
    ScanAgrees(b, WinningQuads, QuadIndex, Quads, 4, QuadCell, QuadPos, cells, occupied);
    ScanAgrees(b, LosingTriplets, TripletIndex, Triplets, 3, TripletCell, TripletPos, cells, occupied);
    WinnerMeaning(b, Quads, Triplets);
    FirstOwnerFacts(b, qs);
    FirstOwnerFacts(b, ts);
    FirstOwnerFacts(b, Quads);
    FirstOwnerFacts(b, Triplets);
  }

  lemma ImportantCellsListed()
    ensures forall c :: c in ImportantCells ==> c in ImportantCells && c in AllCells
  {
    TablesShaped();
    forall c | c in ImportantCells
      ensures c in AllCells
    {
      var k :| 0 <= k < |ImportantCells| && ImportantCells[k] == c;
      AllCellsInOrder();
      assert AllCells[c] == c;
    }
  }

  /** GetMoves' test over the rows of cells: a listed line through an occupied cell is complete. */
  predicate OverOn(b: seq<int>, cells: seq<nat>)
    requires |b| == Cells && OnBoard(cells)
  {
    TablesShaped();
    AnyComplete(b, Scanned(b, WinningQuads, cells, true)) || AnyComplete(b, Scanned(b, LosingTriplets, cells, true))
  }

  /** The Go engines walk the important cells. */
  predicate Over(b: seq<int>)
    requires |b| == Cells
  {
    TablesShaped();
    OverOn(b, ImportantCells)
  }

  /** On a valid board GetMoves' test holds exactly when the referee finds a winner, whichever cells are walked. */
  lemma OverMeaning(b: seq<int>, cells: seq<nat>)
    requires ValidBoard(b) && OnBoard(cells) && forall c :: c in ImportantCells ==> c in cells
    ensures OverOn(b, cells) <==> Winner(b) != UNSET
  {
    TablesAgree(b, cells, true);
    WinnerMeaning(b, Quads, Triplets);
  }

  /** GetResult's answer for pjm from scratch. */
  function Result(b: seq<int>, pjm: int): real
    requires |b| == Cells
  {
    Outcome(b, QuadScan(b), TripletScan(b), pjm)
  }

  /** FindWinner / findWinner. */
  function TableWinner(b: seq<int>): int
    requires |b| == Cells
  {
    Judge(b, QuadScan(b), TripletScan(b))
  }

  /**
   * On a valid board, walking the tables over any cells that include the
   * important ones: findWinner names a player or no one, and no one exactly
   * when the referee does; GetResult finds its answer exactly when
   * findWinner names someone, and that answer for pjm is 1.0 exactly when
   * findWinner names pjm; and findWinner names the referee's winner when
   * one player holds all complete quads and one all complete triplets.
   */
  lemma Verdict(b: seq<int>, cells: seq<nat>, occupied: bool, pjm: int)
    requires ValidBoard(b) && OnBoard(cells) && forall c :: c in ImportantCells ==> c in cells
    ensures LinesOk(Quads) && LinesOk(Triplets) && RowsShaped(WinningQuads) && RowsShaped(LosingTriplets)
    ensures var qs, ts := Scanned(b, WinningQuads, cells, occupied), Scanned(b, LosingTriplets, cells, occupied);
      (Judge(b, qs, ts) == MAXIMIZER || Judge(b, qs, ts) == MINIMIZER || Judge(b, qs, ts) == UNSET) &&
      (Judge(b, qs, ts) == UNSET <==> Winner(b) == UNSET) &&
      (Decided(b, qs, ts) <==> Judge(b, qs, ts) != UNSET) &&
      (pjm == MAXIMIZER || pjm == MINIMIZER ==> Outcome(b, qs, ts, pjm) == if Judge(b, qs, ts) == pjm then 1.0 else 0.0) &&
      (Unanimous(b, Quads) && Unanimous(b, Triplets) ==> Judge(b, qs, ts) == Winner(b))
  {
    CatalogueOk();
    TablesAgree(b, cells, occupied);
    var qs, ts := Scanned(b, WinningQuads, cells, occupied), Scanned(b, LosingTriplets, cells, occupied);
    JudgeIsDecide(b, qs, ts, pjm);
    DecideMeaning(b, qs, ts);
  }

  /** The Go engines' findWinner and GetResult, in the terms of Verdict. */
  lemma TableWinnerMeaning(b: seq<int>, pjm: int)
    requires ValidBoard(b)
    ensures LinesOk(Quads) && LinesOk(Triplets)
    ensures TableWinner(b) == UNSET <==> Winner(b) == UNSET
    ensures TableWinner(b) == MAXIMIZER || TableWinner(b) == MINIMIZER || TableWinner(b) == UNSET
    ensures pjm == MAXIMIZER || pjm == MINIMIZER ==> Result(b, pjm) == if TableWinner(b) == pjm then 1.0 else 0.0
    ensures Unanimous(b, Quads) && Unanimous(b, Triplets) ==> TableWinner(b) == Winner(b)
  {
    ImportantCellsListed();
    Verdict(b, ImportantCells, true, pjm);
  }

  /** The empty cells below n, in ascending order. */
  function Vacancies(b: seq<int>, n: nat): seq<nat>
    requires |b| == Cells && n <= Cells
  {
    if n == 0 then [] else Vacancies(b, n - 1) + (if b[n - 1] == UNSET then [n - 1] else [])
  }

  /** Vacancies holds exactly the empty cells below n. */
  lemma {:induction false} VacanciesMembers(b: seq<int>, n: nat)
    requires |b| == Cells && n <= Cells
    ensures forall c: int :: c in Vacancies(b, n) <==> 0 <= c < n && b[c] == UNSET
  {
    if n > 0 {
      VacanciesMembers(b, n - 1);
    }
  }

  /** Vacancies is ascending and below n. */
  lemma {:induction false} VacanciesAscending(b: seq<int>, n: nat)
    requires |b| == Cells && n <= Cells
    ensures forall i :: 0 <= i < |Vacancies(b, n)| ==> Vacancies(b, n)[i] < n
    ensures forall i, j :: 0 <= i < j < |Vacancies(b, n)| ==> Vacancies(b, n)[i] < Vacancies(b, n)[j]
  {
    if n > 0 {
      VacanciesAscending(b, n - 1);
    }
  }

  /** Vacancies lists each empty cell below n once, in ascending order, and nothing else. */
  lemma VacanciesMeaning(b: seq<int>, n: nat)
    requires |b| == Cells && n <= Cells
    ensures forall c: int :: c in Vacancies(b, n) <==> 0 <= c < n && b[c] == UNSET
    ensures forall i, j :: 0 <= i < j < |Vacancies(b, n)| ==> Vacancies(b, n)[i] < Vacancies(b, n)[j]
    ensures Vacancies(b, n) == [] <==> forall c: int :: 0 <= c < n ==> b[c] != UNSET
  {
    VacanciesMembers(b, n);
    VacanciesAscending(b, n);
    if Vacancies(b, n) != [] {
      assert Vacancies(b, n)[0] in Vacancies(b, n);
    }
  }

  /** Complete lines sum to +-3 or +-4, so FirstSum is 0 exactly when no line of ls is complete. */
  lemma {:induction false} FirstSumZero(b: seq<int>, ls: seq<Line>)
    requires |b| == Cells && LinesOk(ls)
    ensures FirstSum(b, ls) == 0 <==> !AnyComplete(b, ls)
  {
    if ls != [] {
      FirstSumZero(b, ls[1..]);
      if AnyComplete(b, ls) && !Complete(b, ls[0]) {
        var i :| 0 <= i < |ls| && Complete(b, ls[i]);
        assert ls[1..][i - 1] == ls[i];
      }
      if AnyComplete(b, ls[1..]) {
        var i :| 0 <= i < |ls[1..]| && Complete(b, ls[1..][i]);
        assert ls[i + 1] == ls[1..][i];
      }
    }
  }

  /** The rows from the i-th cell on: the i-th cell's row, if examined, then the rest. */
  lemma ScannedStep(b: seq<int>, tab: seq<seq<Line>>, cells: seq<nat>, occupied: bool, i: nat)
    requires |b| == Cells && RowsShaped(tab) && OnBoard(cells) && i < |cells|
    ensures OnBoard(cells[i..]) && OnBoard(cells[i + 1..])
    ensures var row := if !occupied || b[cells[i]] != UNSET then tab[cells[i]] else [];
      Scanned(b, tab, cells[i..], occupied) == row + Scanned(b, tab, cells[i + 1..], occupied) &&
      LinesOk(row) &&
      FirstSum(b, Scanned(b, tab, cells[i..], occupied)) ==
        (if FirstSum(b, row) != 0 then FirstSum(b, row) else FirstSum(b, Scanned(b, tab, cells[i + 1..], occupied))) &&
      (AnyComplete(b, Scanned(b, tab, cells[i..], occupied)) <==>
        AnyComplete(b, row) || AnyComplete(b, Scanned(b, tab, cells[i + 1..], occupied)))
  {
    assert cells[i..][1..] == cells[i + 1..];
    var row := if !occupied || b[cells[i]] != UNSET then tab[cells[i]] else [];
    var rest := Scanned(b, tab, cells[i + 1..], occupied);
    FirstSumAppend(b, row, rest);
    FirstSumZero(b, row);
    FirstSumZero(b, rest);
    FirstSumZero(b, row + rest);
  }

  /** The inner loop over one row: the sum of the first complete line, 0 when none is. */
  method FirstComplete(b: seq<int>, row: seq<Line>) returns (sum: int)
    requires |b| == Cells && LinesOk(row)
    ensures sum == FirstSum(b, row)
  {
    var j := 0;
    while j < |row|
      invariant 0 <= j <= |row|
      invariant FirstSum(b, row) == FirstSum(b, row[j..])
    {
      var l := row[j];
      assert row[j..][0] == l && row[j..][1..] == row[j + 1..];
      var s := b[l[0]] + b[l[1]] + b[l[2]];
      if |l| == 4 {
        s := s + b[l[3]];
      }
      if s == |l| || s == -|l| {
        return s;
      }
      j := j + 1;
    }
    return 0;
  }

  /** The loops over the cells and their rows: the sum of the first complete line examined, 0 when none is. */
  method ScanRows(b: seq<int>, tab: seq<seq<Line>>, cells: seq<nat>, occupied: bool) returns (sum: int)
    requires |b| == Cells && RowsShaped(tab) && OnBoard(cells)
    ensures sum == FirstSum(b, Scanned(b, tab, cells, occupied))
  {
    var i := 0;
    assert cells[0..] == cells;
    while i < |cells|
      invariant 0 <= i <= |cells| && OnBoard(cells[i..])
      invariant FirstSum(b, Scanned(b, tab, cells, occupied)) == FirstSum(b, Scanned(b, tab, cells[i..], occupied))
    {
      ScannedStep(b, tab, cells, occupied, i);
      if !occupied || b[cells[i]] != UNSET {
        var s := FirstComplete(b, tab[cells[i]]);
        if s != 0 {
          return s;
        }
      }
      i := i + 1;
    }
    return 0;
  }

  /**
   * findWinner (mcts3.go) and FindWinner (mcts.go): the quads through the
   * occupied important cells, then their triplets; the first complete line
   * decides, a quad for its owner and a triplet against its owner.
   */
  method FindWinner(board: seq<int>) returns (w: int)
    requires |board| == Cells
    ensures w == TableWinner(board)
    ensures ValidBoard(board) ==> (w == UNSET <==> Winner(board) == UNSET)
  {
    TablesShaped();
    if ValidBoard(board) {
      TableWinnerMeaning(board, MAXIMIZER);
    }
    var q := ScanRows(board, WinningQuads, ImportantCells, true);
    if q == 4 {
      return MAXIMIZER;
    } else if q == -4 {
      return MINIMIZER;
    }
    var t := ScanRows(board, LosingTriplets, ImportantCells, true);
    if t == 3 {
      return MINIMIZER;
    } else if t == -3 {
      return MAXIMIZER;
    }
    return UNSET;
  }

  /** The index of the first occurrence of m in s; |s| when m does not occur. */
  function Position(s: seq<int>, m: int): (i: nat)
    ensures i <= |s| && (i < |s| <==> m in s)
    ensures i < |s| ==> s[i] == m
    ensures forall j :: 0 <= j < i ==> s[j] != m
  {
    if s == [] then 0 else if s[0] == m then 0 else 1 + Position(s[1..], m)
  }

  /** The board from scratch: every cell empty. */
  const EmptyBoard: seq<int> := seq(Cells, _ => UNSET)

  /**
   * GameState of mcts.go and squavam.go: who moved last, the board (a Go
   * array, copied on assignment) and the three cached GetResult answers,
   * indexed by player + 1, a negative slot meaning "not cached".
   */
  class GameState {
    var playerJustMoved: int
    var board: seq<int>
    var cachedResults: seq<real>
    /** mcts.go caches GetResult's fall-back 0.0; squavam.go returns it uncached. */
    const cachesFallback: bool

    ghost predicate Valid()
      reads this
    {
      |board| == Cells && |cachedResults| == 3
    }

    /** Every cached answer is the answer GetResult would compute for its player on the board. */
    ghost predicate CacheSound()
      reads this
      requires Valid()
    {
      forall k :: 0 <= k < 3 && cachedResults[k] >= 0.0 ==> cachedResults[k] == Result(board, k - 1)
    }

    /** NewGameState: an empty board, MINIMIZER having "just moved", and a zeroed cache. */
    constructor (cachesFallback: bool)
      ensures Valid() && board == EmptyBoard && playerJustMoved == MINIMIZER
      ensures cachedResults == [0.0, 0.0, 0.0] && this.cachesFallback == cachesFallback
    {
      this.cachesFallback := cachesFallback;
      playerJustMoved := MINIMIZER;
      board := EmptyBoard;
      cachedResults := [0.0, 0.0, 0.0];
    }

    /** A copy of the player and the board; the cache is not copied and starts zeroed, reading as cached 0.0. */
    method Clone() returns (st: GameState)
      requires Valid()
      ensures fresh(st) && st.Valid() && st.board == board && st.playerJustMoved == playerJustMoved
      ensures st.cachedResults == [0.0, 0.0, 0.0] && st.cachesFallback == cachesFallback
    {
      st := new GameState(cachesFallback);
      st.playerJustMoved := playerJustMoved;
      st.board := board;
    }

    /** resetCachedResults: every slot marked "not cached", so the cache is sound whatever the board. */
    method ResetCachedResults()
      requires Valid()
      modifies this
      ensures Valid() && cachedResults == [-1.0, -1.0, -1.0] && CacheSound()
      ensures board == old(board) && playerJustMoved == old(playerJustMoved)
    {
      cachedResults := [-1.0, -1.0, -1.0];
    }

    /** The other player moves: playerJustMoved flips and its mark goes into the cell. */
    method DoMove(move: nat)
      requires Valid() && move < Cells
      modifies this
      ensures Valid() && playerJustMoved == -old(playerJustMoved)
      ensures board == old(board)[move := playerJustMoved] && cachedResults == old(cachedResults)
    {
      playerJustMoved := -playerJustMoved;
      board := board[move := playerJustMoved];
    }

    /**
     * No moves and the end of the game when a listed line through an
     * occupied important cell is complete; otherwise the empty cells in
     * ascending order, the game being over when there are none.
     */
    method GetMoves() returns (moves: seq<nat>, endOfGame: bool)
      requires Valid()
      ensures Over(board) ==> moves == [] && endOfGame
      ensures !Over(board) ==> moves == Vacancies(board, Cells) && endOfGame == (moves == [])
    {
      TablesShaped();
      var i := 0;
      assert ImportantCells[0..] == ImportantCells;
      while i < |ImportantCells|
        invariant 0 <= i <= |ImportantCells|
        invariant OnBoard(ImportantCells[i..]) && (Over(board) <==> OverOn(board, ImportantCells[i..]))
      {
        var m := ImportantCells[i];
        ScannedStep(board, WinningQuads, ImportantCells, true, i);
        ScannedStep(board, LosingTriplets, ImportantCells, true, i);
        if board[m] != UNSET {
          FirstSumZero(board, WinningQuads[m]);
          FirstSumZero(board, LosingTriplets[m]);
          var q := FirstComplete(board, WinningQuads[m]);
          if q != 0 {
            return [], true;
          }
          var t := FirstComplete(board, LosingTriplets[m]);
          if t != 0 {
            return [], true;
          }
        }
        i := i + 1;
      }
      endOfGame := true;
      moves := [];
      var k := 0;
      while k < Cells
        invariant 0 <= k <= Cells && moves == Vacancies(board, k) && endOfGame == (moves == [])
      {
        if board[k] == UNSET {
          endOfGame := false;
          moves := moves + [k];
        }
        k := k + 1;
      }
    }

    /**
     * GetResult(pjm): a cached answer (slot >= 0) is returned unchanged;
     * otherwise the answer is computed from the tables and cached, except
     * the fall-back 0.0 in squavam.go. From a sound cache the answer is
     * always the computed one.
     */
    method GetResult(pjm: int) returns (r: real)
      requires Valid() && -1 <= pjm <= 1
      modifies this
      ensures Valid() && board == old(board) && playerJustMoved == old(playerJustMoved)
      ensures old(cachedResults[pjm + 1]) >= 0.0 ==> r == old(cachedResults[pjm + 1]) && cachedResults == old(cachedResults)
      ensures old(cachedResults[pjm + 1]) < 0.0 ==>
        r == Result(board, pjm) &&
        cachedResults == if cachesFallback || Decided(board, QuadScan(board), TripletScan(board))
                         then old(cachedResults)[pjm + 1 := r] else old(cachedResults)
      ensures old(CacheSound()) ==> CacheSound() && r == Result(board, pjm)
    {
      var cached := cachedResults[pjm + 1];
      if cached >= 0.0 {
        return cached;
      }
      TablesShaped();
      var q := ScanRows(board, WinningQuads, ImportantCells, true);
      if q == 4 || q == -4 {
        r := if q == 4 * pjm then 1.0 else 0.0;
        cachedResults := cachedResults[pjm + 1 := r];
        return;
      }
      var t := ScanRows(board, LosingTriplets, ImportantCells, true);
      if t == 3 || t == -3 {
        r := if t == 3 * pjm then 0.0 else 1.0;
        cachedResults := cachedResults[pjm + 1 := r];
        return;
      }
      r := 0.0;
      if cachesFallback {
        cachedResults := cachedResults[pjm + 1 := r];
      }
    }
  }
}

/**
 * The 5x5 Squava board, the two players and the catalogue of lines:
 * four marks in a row win, three marks in a row lose.
 *
 * Every engine of the program stores the board as rows and columns; here a
 * board is 25 cells and cell (x, y), row x and column y, is index 5*x + y,
 * which keeps the row-major order in which the engines scan the board.
 */
module Lines {
  const WIN: int := 10000
  const LOSS: int := -10000
  const MAXIMIZER: int := 1
  const MINIMIZER: int := -1
  const UNSET: int := 0

  /** Number of cells on the board. */
  const Cells: nat := 25

  /** Index of cell (x, y). */
  function Idx(x: int, y: int): int { 5 * x + y }

  /** Row and column of a cell index. */
  function Row(c: nat): nat { c / 5 }
  function Col(c: nat): nat { c % 5 }

  lemma IdxRowCol(c: nat)
    requires c < Cells
    ensures 0 <= Row(c) < 5 && 0 <= Col(c) < 5 && Idx(Row(c), Col(c)) == c
  {
  }

  predicate IsMark(v: int) { v == MAXIMIZER || v == MINIMIZER || v == UNSET }

  /** A board holds 25 cells, each empty or marked by one of the two players. */
  predicate ValidBoard(b: seq<int>)
  {
    |b| == Cells && forall i :: 0 <= i < |b| ==> IsMark(b[i])
  }

  /** Number of empty cells; every search step fills one, so it bounds the depth. */
  function Empties(b: seq<int>): nat
  {
    if b == [] then 0 else (if b[0] == UNSET then 1 else 0) + Empties(b[1..])
  }

  lemma {:induction false} EmptiesFill(b: seq<int>, k: nat, v: int)
    requires k < |b| && b[k] == UNSET && v != UNSET
    ensures Empties(b[k := v]) + 1 == Empties(b)
  {
    if k == 0 {
      assert b[k := v][1..] == b[1..];
    } else {
      assert b[k := v][1..] == b[1..][k - 1 := v];
      EmptiesFill(b[1..], k - 1, v);
    }
  }

  lemma {:induction false} EmptiesZero(b: seq<int>, k: nat)
    requires Empties(b) == 0 && k < |b|
    ensures b[k] != UNSET
  {
    if k > 0 {
      EmptiesZero(b[1..], k - 1);
    }
  }

  /** A line lists the cells of a straight run of three or four cells. */
  type Line = seq<nat>

  predicate InBoard(l: Line) { forall i :: 0 <= i < |l| ==> l[i] < Cells }

  predicate Distinct(l: Line) { forall i, j :: 0 <= i < j < |l| ==> l[i] != l[j] }

  /** A triplet (n = 3) or quad (n = 4) of distinct board cells. */
  predicate WellFormed(l: Line, n: nat)
  {
    |l| == n && (n == 3 || n == 4) &&
    l[0] < Cells && l[1] < Cells && l[2] < Cells && l[0] != l[1] && l[0] != l[2] && l[1] != l[2] &&
    (n == 4 ==> l[3] < Cells && l[3] != l[0] && l[3] != l[1] && l[3] != l[2])
  }

  lemma WellFormedCells(l: Line, n: nat)
    requires WellFormed(l, n)
    ensures InBoard(l) && Distinct(l)
  {
  }

  /** The 48 losing triplets, in the order every engine scans them. */
  const Triplets: seq<Line> := TripletsA + TripletsB + TripletsC
  const TripletsA: seq<Line> := [[0, 5, 10], [0, 1, 2], [0, 6, 12], [5, 10, 15], [5, 6, 7], [5, 11, 17], [10, 15, 20], [10, 11, 12], [10, 6, 2], [10, 16, 22], [15, 16, 17], [15, 11, 7], [20, 21, 22], [20, 16, 12], [1, 6, 11], [1, 2, 3]]
  const TripletsB: seq<Line> := [[1, 7, 13], [6, 11, 16], [6, 7, 8], [6, 12, 18], [11, 16, 21], [11, 12, 13], [11, 7, 3], [11, 17, 23], [16, 17, 18], [16, 12, 8], [21, 22, 23], [21, 17, 13], [2, 7, 12], [2, 3, 4], [2, 8, 14], [7, 12, 17]]
  const TripletsC: seq<Line> := [[7, 8, 9], [7, 13, 19], [12, 17, 22], [12, 13, 14], [12, 8, 4], [12, 18, 24], [17, 18, 19], [17, 13, 9], [22, 23, 24], [22, 18, 14], [3, 8, 13], [8, 13, 18], [13, 18, 23], [4, 9, 14], [9, 14, 19], [14, 19, 24]]


  /** The 28 winning quads, in the order every engine scans them. */
  const Quads: seq<Line> := QuadsA + QuadsB
  const QuadsA: seq<Line> := [[0, 5, 10, 15], [0, 1, 2, 3], [0, 6, 12, 18], [1, 6, 11, 16], [1, 2, 3, 4], [1, 7, 13, 19], [2, 7, 12, 17], [3, 8, 13, 18], [4, 9, 14, 19], [5, 10, 15, 20], [5, 6, 7, 8], [5, 11, 17, 23], [6, 11, 16, 21], [6, 7, 8, 9], [6, 12, 18, 24], [7, 12, 17, 22]]
  const QuadsB: seq<Line> := [[8, 13, 18, 23], [9, 14, 19, 24], [10, 11, 12, 13], [11, 12, 13, 14], [15, 16, 17, 18], [15, 11, 7, 3], [16, 17, 18, 19], [16, 12, 8, 4], [20, 21, 22, 23], [20, 16, 12, 8], [21, 22, 23, 24], [21, 17, 13, 9]]


  /** Row 2 and column 2: (0,2), (1,2), (2,0) .. (2,4), (3,2), (4,2). */
  const Checkable: seq<nat> := [2, 7, 10, 11, 12, 13, 14, 17, 22]

  /** For each triplet and each quad, one checkable cell on it. */
  const TripletHubA: seq<nat> := [10, 2, 12, 10, 7, 11, 10, 10, 10, 10, 17, 11, 22, 12, 11, 2]
  const TripletHubB: seq<nat> := [7, 11, 7, 12, 11, 11, 11, 11, 17, 12, 22, 17, 2, 2, 2, 7]
  const TripletHubC: seq<nat> := [7, 7, 12, 12, 12, 12, 17, 17, 22, 22, 13, 13, 13, 14, 14, 14]
  const QuadHubA: seq<nat> := [10, 2, 12, 11, 2, 7, 2, 13, 14, 10, 7, 11, 11, 7, 12, 7]
  const QuadHubB: seq<nat> := [13, 14, 10, 11, 17, 11, 17, 12, 22, 12, 22, 17]

  /** Each line of ls has n distinct cells and passes through its hub cell, which is checkable. */
  ghost predicate Hubbed(ls: seq<Line>, hub: seq<nat>, n: nat)
  {
    |hub| == |ls| &&
    forall i :: 0 <= i < |ls| ==> WellFormed(ls[i], n) && hub[i] in Checkable && hub[i] in ls[i]
  }

  lemma HubbedAppend(ls: seq<Line>, hub: seq<nat>, ms: seq<Line>, hm: seq<nat>, n: nat)
    requires Hubbed(ls, hub, n) && Hubbed(ms, hm, n)
    ensures Hubbed(ls + ms, hub + hm, n)
  {
    forall i | |ls| <= i < |ls| + |ms|
      ensures (ls + ms)[i] == ms[i - |ls|] && (hub + hm)[i] == hm[i - |ls|]
    {
    }
  }

  lemma TripletsAHubbed() ensures Hubbed(TripletsA, TripletHubA, 3) {}
  lemma TripletsBHubbed() ensures Hubbed(TripletsB, TripletHubB, 3) {}
  lemma TripletsCHubbed() ensures Hubbed(TripletsC, TripletHubC, 3) {}
  lemma QuadsAHubbed() ensures Hubbed(QuadsA, QuadHubA, 4) {}
  lemma QuadsBHubbed() ensures Hubbed(QuadsB, QuadHubB, 4) {}

  /** The whole catalogue, each line with its hub cell. */
  lemma CatalogueHubbed()
    ensures Hubbed(Triplets, TripletHubA + TripletHubB + TripletHubC, 3)
    ensures Hubbed(Quads, QuadHubA + QuadHubB, 4)
  {
    TripletsAHubbed();
    TripletsBHubbed();
    TripletsCHubbed();
    QuadsAHubbed();
    QuadsBHubbed();
    HubbedAppend(TripletsA, TripletHubA, TripletsB, TripletHubB, 3);
    HubbedAppend(TripletsA + TripletsB, TripletHubA + TripletHubB, TripletsC, TripletHubC, 3);
    HubbedAppend(QuadsA, QuadHubA, QuadsB, QuadHubB, 4);
  }

  lemma CatalogueWellFormed()
    ensures |Triplets| == 48 && |Quads| == 28
    ensures forall i :: 0 <= i < |Triplets| ==> WellFormed(Triplets[i], 3)
    ensures forall i :: 0 <= i < |Quads| ==> WellFormed(Quads[i], 4)
  {
    CatalogueHubbed();
  }

  /** Sum of the marks on a line: +-3 on a triplet, +-4 on a quad, means one player holds it all. */
  function Sum(b: seq<int>, l: Line): int
    requires |b| == Cells && WellFormed(l, |l|)
  {
    if |l| == 3 then b[l[0]] + b[l[1]] + b[l[2]]
    else b[l[0]] + b[l[1]] + b[l[2]] + b[l[3]]
  }

  /** A line is complete when one player holds every cell of it. */
  predicate Complete(b: seq<int>, l: Line)
    requires |b| == Cells && WellFormed(l, |l|)
  {
    Sum(b, l) == |l| || Sum(b, l) == -|l|
  }

  /** Player p holds every cell of line l. */
  predicate OwnedBy(b: seq<int>, l: Line, p: int)
    requires |b| == Cells && WellFormed(l, |l|)
  {
    b[l[0]] == p && b[l[1]] == p && b[l[2]] == p && (|l| == 4 ==> b[l[3]] == p)
  }

  /** On a valid board a line sums to p times its length exactly when player p holds all of it. */
  lemma CompleteMeansOwned(b: seq<int>, l: Line, p: int)
    requires ValidBoard(b) && WellFormed(l, |l|)
    requires p == MAXIMIZER || p == MINIMIZER
    ensures Sum(b, l) == p * |l| <==> OwnedBy(b, l, p)
  {
    assert IsMark(b[l[0]]) && IsMark(b[l[1]]) && IsMark(b[l[2]]);
    if |l| == 4 {
      assert IsMark(b[l[3]]);
    }
  }

  /** Every cell of a complete line holds the line's owner, Sum / length, and that owner is a player. */
  lemma CompleteOwner(b: seq<int>, l: Line, c: nat)
    requires ValidBoard(b) && WellFormed(l, |l|)
    requires Complete(b, l) && c in l
    ensures b[c] == b[l[0]] && b[c] * |l| == Sum(b, l) && b[c] != UNSET
  {
    if Sum(b, l) == |l| {
      CompleteMeansOwned(b, l, MAXIMIZER);
    } else {
      CompleteMeansOwned(b, l, MINIMIZER);
    }
  }

  /** The lines of ls passing through cell c, in the order of ls. */
  function Through(ls: seq<Line>, c: nat): (r: seq<Line>)
    ensures |r| <= |ls|
  {
    if ls == [] then []
    else if c in ls[0] then [ls[0]] + Through(ls[1..], c)
    else Through(ls[1..], c)
  }

  lemma {:induction false} ThroughMember(ls: seq<Line>, c: nat, l: Line)
    ensures l in Through(ls, c) <==> l in ls && c in l
  {
    if ls != [] {
      ThroughMember(ls[1..], c, l);
      assert ls == [ls[0]] + ls[1..];
    }
  }

  lemma {:induction false} ThroughAppend(ls: seq<Line>, l: Line, c: nat)
    ensures Through(ls + [l], c) == Through(ls, c) + (if c in l then [l] else [])
  {
    if ls != [] {
      assert (ls + [l])[1..] == ls[1..] + [l];
      ThroughAppend(ls[1..], l, c);
    } else {
      assert [l][1..] == [];
    }
  }

  /** The lines through c keep the shape of the catalogue they come from. */
  lemma {:induction false} ThroughWellFormed(ls: seq<Line>, c: nat, n: nat)
    requires forall i :: 0 <= i < |ls| ==> WellFormed(ls[i], n)
    ensures forall i :: 0 <= i < |Through(ls, c)| ==> WellFormed(Through(ls, c)[i], n) && c in Through(ls, c)[i]
  {
    if ls != [] {
      ThroughWellFormed(ls[1..], c, n);
    }
  }

  /**
   * Every losing triplet and every winning quad passes through one of the nine
   * checkable cells, so scanning the lines through those cells examines the
   * whole catalogue.
   */
  lemma CheckableCellsTouchEveryLine()
    ensures forall i :: 0 <= i < |Triplets| ==> Touches(Triplets[i])
    ensures forall i :: 0 <= i < |Quads| ==> Touches(Quads[i])
  {
    CatalogueHubbed();
    var th, qh := TripletHubA + TripletHubB + TripletHubC, QuadHubA + QuadHubB;
    forall i | 0 <= i < |Triplets|
      ensures Touches(Triplets[i])
    {
      var k :| 0 <= k < |Checkable| && Checkable[k] == th[i];
    }
    forall i | 0 <= i < |Quads|
      ensures Touches(Quads[i])
    {
      var k :| 0 <= k < |Checkable| && Checkable[k] == qh[i];
    }
  }

  /** The line passes through one of the checkable cells. */
  predicate Touches(l: Line)
  {
    exists k :: 0 <= k < |Checkable| && Checkable[k] in l
  }

  /** The same fact stated over the per-cell lists: each catalogue line is listed at some checkable cell. */
  lemma CheckableListsCoverCatalogue(l: Line)
    ensures l in Triplets ==> exists k :: 0 <= k < |Checkable| && l in Through(Triplets, Checkable[k])
    ensures l in Quads ==> exists k :: 0 <= k < |Checkable| && l in Through(Quads, Checkable[k])
  {
    CheckableCellsTouchEveryLine();
    if l in Triplets {
      var i :| 0 <= i < |Triplets| && Triplets[i] == l;
      var k :| 0 <= k < |Checkable| && Checkable[k] in Triplets[i];
      ThroughMember(Triplets, Checkable[k], l);
    }
    if l in Quads {
      var i :| 0 <= i < |Quads| && Quads[i] == l;
      var k :| 0 <= k < |Checkable| && Checkable[k] in Quads[i];
      ThroughMember(Quads, Checkable[k], l);
    }
  }
}

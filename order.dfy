/**
 * Move ordering of the NegaScout engines (reorderMoves). Every empty cell,
 * taken in the fixed initial order, is put in one of three buckets: good
 * when the first quad through it with two or three marks of one kind
 * holds the maximizer's, bad when it holds the minimizer's; failing any
 * such quad, good when the first triplet through it with two marks of one
 * kind holds the minimizer's, bad when it holds the maximizer's; dull
 * otherwise. The maximizer tries good, dull, bad; the minimizer bad, dull,
 * good.
 */
module Ordering {
  import opened Lines
  import opened Evaluate
  import opened Static

  /** initialOrderedMoves: the inner ring's corners, the outer edges off the centre lines, the corners, the centre, then the centre lines. */
  const InitialOrder: seq<nat> := [6, 8, 18, 16, 1, 3, 9, 19, 23, 21, 15, 5, 0, 4, 24, 20, 12, 7, 13, 17, 11, 2, 10, 14, 22]

  datatype Bucket = Good | Dull | Bad

  /** The bucket the first quad holding two or three marks of one kind gives, Dull when there is none. */
  function QuadBucket(b: seq<int>, qs: seq<Line>): Bucket
    requires |b| == Cells && Shaped(qs, 4)
  {
    if qs == [] then Dull
    else
      var s := Sum(b, qs[0]);
      if s == 3 || s == 2 then Good
      else if s == -3 || s == -2 then Bad
      else QuadBucket(b, qs[1..])
  }

  /** The bucket the first triplet holding two marks of one kind gives: the minimizer's make it good. */
  function TripletBucket(b: seq<int>, ts: seq<Line>): Bucket
    requires |b| == Cells && Shaped(ts, 3)
  {
    if ts == [] then Dull
    else
      var s := Sum(b, ts[0]);
      if s == -2 then Good
      else if s == 2 then Bad
      else TripletBucket(b, ts[1..])
  }

  /** The bucket of a cell whose quads are qs and triplets ts: the quads first, the triplets only when they give Dull. */
  function Classify(b: seq<int>, qs: seq<Line>, ts: seq<Line>): Bucket
    requires |b| == Cells && Shaped(qs, 4) && Shaped(ts, 3)
  {
    var q := QuadBucket(b, qs);
    if q != Dull then q else TripletBucket(b, ts)
  }

  /** A quad sum that makes its empty cells interesting for player p: two or three of p's marks. */
  predicate QuadLeans(s: int, p: int) { s == 2 * p || s == 3 * p }

  lemma ShapedTail(ls: seq<Line>, n: nat)
    requires Shaped(ls, n) && ls != []
    ensures Shaped(ls[1..], n)
  {
    forall i | 0 <= i < |ls[1..]|
      ensures WellFormed(ls[1..][i], n)
    {
      assert ls[1..][i] == ls[i + 1];
    }
  }

  /** A quad bucket is Dull exactly when no quad holds two or three marks of one kind; otherwise some quad leans that way. */
  lemma {:induction false} QuadBucketMeaning(b: seq<int>, qs: seq<Line>)
    requires ValidBoard(b) && Shaped(qs, 4)
    ensures QuadBucket(b, qs) == Dull <==> forall i :: 0 <= i < |qs| ==> !QuadLeans(Sum(b, qs[i]), 1) && !QuadLeans(Sum(b, qs[i]), -1)
    ensures QuadBucket(b, qs) == Good ==> exists i :: 0 <= i < |qs| && QuadLeans(Sum(b, qs[i]), 1)
    ensures QuadBucket(b, qs) == Bad ==> exists i :: 0 <= i < |qs| && QuadLeans(Sum(b, qs[i]), -1)
  {
    if qs != [] {
      ShapedTail(qs, 4);
      QuadBucketMeaning(b, qs[1..]);
      var s := Sum(b, qs[0]);
      if !QuadLeans(s, 1) && !QuadLeans(s, -1) {
        forall i | 0 < i < |qs|
          ensures Sum(b, qs[i]) == Sum(b, qs[1..][i - 1])
        {
          assert qs[i] == qs[1..][i - 1];
        }
        if QuadBucket(b, qs) == Good {
          var i :| 0 <= i < |qs[1..]| && QuadLeans(Sum(b, qs[1..][i]), 1);
          assert qs[1..][i] == qs[i + 1];
        }
        if QuadBucket(b, qs) == Bad {
          var i :| 0 <= i < |qs[1..]| && QuadLeans(Sum(b, qs[1..][i]), -1);
          assert qs[1..][i] == qs[i + 1];
        }
      }
    }
  }

  /** A triplet bucket is Dull exactly when no triplet holds two marks of one kind; Good and Bad name whose two marks. */
  lemma {:induction false} TripletBucketMeaning(b: seq<int>, ts: seq<Line>)
    requires ValidBoard(b) && Shaped(ts, 3)
    ensures TripletBucket(b, ts) == Dull <==> forall i :: 0 <= i < |ts| ==> Sum(b, ts[i]) != 2 && Sum(b, ts[i]) != -2
    ensures TripletBucket(b, ts) == Good ==> exists i :: 0 <= i < |ts| && Sum(b, ts[i]) == -2
    ensures TripletBucket(b, ts) == Bad ==> exists i :: 0 <= i < |ts| && Sum(b, ts[i]) == 2
  {
    if ts != [] {
      ShapedTail(ts, 3);
      TripletBucketMeaning(b, ts[1..]);
      var s := Sum(b, ts[0]);
      if s != 2 && s != -2 {
        forall i | 0 < i < |ts|
          ensures Sum(b, ts[i]) == Sum(b, ts[1..][i - 1])
        {
          assert ts[i] == ts[1..][i - 1];
        }
        if TripletBucket(b, ts) == Good {
          var i :| 0 <= i < |ts[1..]| && Sum(b, ts[1..][i]) == -2;
          assert ts[1..][i] == ts[i + 1];
        }
        if TripletBucket(b, ts) == Bad {
          var i :| 0 <= i < |ts[1..]| && Sum(b, ts[1..][i]) == 2;
          assert ts[1..][i] == ts[i + 1];
        }
      }
    }
  }

  /**
   * A cell is dull exactly when it is in no quad with two or three marks
   * of one kind and no triplet with two; a good cell is in such a quad of
   * the maximizer's or such a triplet of the minimizer's, a bad cell the
   * other way round.
   */
  lemma ClassifyMeaning(b: seq<int>, qs: seq<Line>, ts: seq<Line>)
    requires ValidBoard(b) && Shaped(qs, 4) && Shaped(ts, 3)
    ensures Classify(b, qs, ts) == Dull <==>
      (forall i :: 0 <= i < |qs| ==> !QuadLeans(Sum(b, qs[i]), 1) && !QuadLeans(Sum(b, qs[i]), -1)) &&
      (forall i :: 0 <= i < |ts| ==> Sum(b, ts[i]) != 2 && Sum(b, ts[i]) != -2)
    ensures Classify(b, qs, ts) == Good ==>
      (exists i :: 0 <= i < |qs| && QuadLeans(Sum(b, qs[i]), 1)) || (exists i :: 0 <= i < |ts| && Sum(b, ts[i]) == -2)
    ensures Classify(b, qs, ts) == Bad ==>
      (exists i :: 0 <= i < |qs| && QuadLeans(Sum(b, qs[i]), -1)) || (exists i :: 0 <= i < |ts| && Sum(b, ts[i]) == 2)
  {
    QuadBucketMeaning(b, qs);
    TripletBucketMeaning(b, ts);
  }

  /** The per-cell lists and the order the buckets are built from. */
  predicate Ready(qi: seq<seq<Line>>, ti: seq<seq<Line>>, ord: seq<nat>)
  {
    IndexShaped(qi, ti) && OnBoard(ord)
  }

  lemma ReadyPrefix(qi: seq<seq<Line>>, ti: seq<seq<Line>>, ord: seq<nat>, n: nat)
    requires Ready(qi, ti, ord) && n <= |ord|
    ensures Ready(qi, ti, ord[..n])
  {
    assert forall i :: 0 <= i < n ==> ord[..n][i] == ord[i];
  }

  /** The empty cells of ord, in the order of ord. */
  function EmptyCells(b: seq<int>, ord: seq<nat>): seq<nat>
    requires |b| == Cells && OnBoard(ord)
  {
    if ord == [] then []
    else
      var c := ord[|ord| - 1];
      assert forall i :: 0 <= i < |ord| - 1 ==> ord[..|ord| - 1][i] == ord[i];
      EmptyCells(b, ord[..|ord| - 1]) + (if b[c] == UNSET then [c] else [])
  }

  /** The empty cells of ord in bucket k, in the order of ord. */
  function Pick(b: seq<int>, qi: seq<seq<Line>>, ti: seq<seq<Line>>, ord: seq<nat>, k: Bucket): seq<nat>
    requires |b| == Cells && Ready(qi, ti, ord)
  {
    if ord == [] then []
    else
      var c := ord[|ord| - 1];
      ReadyPrefix(qi, ti, ord, |ord| - 1);
      Pick(b, qi, ti, ord[..|ord| - 1], k) + (if b[c] == UNSET && Classify(b, qi[c], ti[c]) == k then [c] else [])
  }

  /** orderedMoves[2], the maximizer's order: good, then dull, then bad. */
  function MaxOrder(b: seq<int>, qi: seq<seq<Line>>, ti: seq<seq<Line>>, ord: seq<nat>): seq<nat>
    requires |b| == Cells && Ready(qi, ti, ord)
  {
    Pick(b, qi, ti, ord, Good) + Pick(b, qi, ti, ord, Dull) + Pick(b, qi, ti, ord, Bad)
  }

  /** orderedMoves[0], the minimizer's order: bad, then dull, then good. */
  function MinOrder(b: seq<int>, qi: seq<seq<Line>>, ti: seq<seq<Line>>, ord: seq<nat>): seq<nat>
    requires |b| == Cells && Ready(qi, ti, ord)
  {
    Pick(b, qi, ti, ord, Bad) + Pick(b, qi, ti, ord, Dull) + Pick(b, qi, ti, ord, Good)
  }

  /** sns.go's orderedMoves[0] as written: bad and dull, followed by the whole maximizer order rather than the good cells. */
  function SnsMinOrder(b: seq<int>, qi: seq<seq<Line>>, ti: seq<seq<Line>>, ord: seq<nat>): seq<nat>
    requires |b| == Cells && Ready(qi, ti, ord)
  {
    Pick(b, qi, ti, ord, Bad) + Pick(b, qi, ti, ord, Dull) + MaxOrder(b, qi, ti, ord)
  }

  /** orderedMoves[0] as a file builds it: sns.go's when whole is set, negascout.go's otherwise. */
  function MinOrderOf(whole: bool, b: seq<int>, qi: seq<seq<Line>>, ti: seq<seq<Line>>, ord: seq<nat>): seq<nat>
    requires |b| == Cells && Ready(qi, ti, ord)
  {
    if whole then SnsMinOrder(b, qi, ti, ord) else MinOrder(b, qi, ti, ord)
  }

  /** A cell is picked for bucket k exactly when it is an empty cell of ord in bucket k. */
  lemma {:induction false} PickMembers(b: seq<int>, qi: seq<seq<Line>>, ti: seq<seq<Line>>, ord: seq<nat>, k: Bucket, c: nat)
    requires |b| == Cells && Ready(qi, ti, ord)
    ensures c in Pick(b, qi, ti, ord, k) <==> c in ord && b[c] == UNSET && Classify(b, qi[c], ti[c]) == k
  {
    if ord != [] {
      var init := ord[..|ord| - 1];
      ReadyPrefix(qi, ti, ord, |ord| - 1);
      PickMembers(b, qi, ti, init, k, c);
      assert ord == init + [ord[|ord| - 1]];
    }
  }

  /** The three buckets split the empty cells of ord between them. */
  lemma {:induction false} PickSplit(b: seq<int>, qi: seq<seq<Line>>, ti: seq<seq<Line>>, ord: seq<nat>)
    requires |b| == Cells && Ready(qi, ti, ord)
    ensures multiset(Pick(b, qi, ti, ord, Good)) + multiset(Pick(b, qi, ti, ord, Dull)) + multiset(Pick(b, qi, ti, ord, Bad))
      == multiset(EmptyCells(b, ord))
  {
    if ord != [] {
      ReadyPrefix(qi, ti, ord, |ord| - 1);
      PickSplit(b, qi, ti, ord[..|ord| - 1]);
    }
  }

  /** A cell occurs among the empty cells of ord as often as in ord when it is empty, and not at all otherwise. */
  lemma {:induction false} EmptyCellsCount(b: seq<int>, ord: seq<nat>, c: nat)
    requires |b| == Cells && OnBoard(ord) && c < Cells
    ensures multiset(EmptyCells(b, ord))[c] == if b[c] == UNSET then multiset(ord)[c] else 0
  {
    if ord != [] {
      var init, last := ord[..|ord| - 1], ord[|ord| - 1];
      assert forall i :: 0 <= i < |init| ==> init[i] == ord[i];
      EmptyCellsCount(b, init, c);
      assert ord == init + [last];
      assert multiset(ord) == multiset(init) + multiset{last};
      assert EmptyCells(b, ord) == EmptyCells(b, init) + (if b[last] == UNSET then [last] else []);
    }
  }

  /** The position of each cell in the initial order. */
  const OrderPosition: seq<nat> := [12, 4, 21, 5, 13, 11, 0, 17, 1, 6, 22, 20, 16, 18, 23, 10, 3, 19, 2, 7, 15, 9, 24, 8, 14]

  lemma PositionsFindCells()
    ensures |InitialOrder| == Cells && |OrderPosition| == Cells
    ensures forall c :: 0 <= c < Cells ==> OrderPosition[c] < Cells && InitialOrder[OrderPosition[c]] == c
  {
  }

  lemma CellsFindPositions()
    ensures |InitialOrder| == Cells && |OrderPosition| == Cells
    ensures forall i :: 0 <= i < Cells ==> InitialOrder[i] < Cells && OrderPosition[InitialOrder[i]] == i
  {
  }

  /** A value found at exactly one position of s occurs once in it. */
  lemma {:induction false} CountOnce(s: seq<nat>, c: nat, i: nat)
    requires i < |s| && s[i] == c && forall j :: 0 <= j < |s| && s[j] == c ==> j == i
    ensures multiset(s)[c] == 1
  {
    var init, last := s[..|s| - 1], s[|s| - 1];
    assert s == init + [last];
    if i < |s| - 1 {
      assert last != c;
      CountOnce(init, c, i);
    } else {
      assert c !in init by {
        forall j | 0 <= j < |init|
          ensures init[j] != c
        {
          assert s[j] == init[j];
        }
      }
    }
  }

  /** The initial order names every cell exactly once. */
  lemma InitialOrderOnce()
    ensures OnBoard(InitialOrder) && |InitialOrder| == Cells
    ensures forall c :: 0 <= c < Cells ==> multiset(InitialOrder)[c] == 1
  {
    PositionsFindCells();
    CellsFindPositions();
    OnceByPositions(InitialOrder, OrderPosition);
  }

  /** A sequence of 25 cells with an inverse position table names every cell exactly once. */
  lemma OnceByPositions(s: seq<nat>, pos: seq<nat>)
    requires |s| == Cells && |pos| == Cells
    requires forall c :: 0 <= c < Cells ==> pos[c] < Cells && s[pos[c]] == c
    requires forall i :: 0 <= i < Cells ==> s[i] < Cells && pos[s[i]] == i
    ensures OnBoard(s) && forall c :: 0 <= c < Cells ==> multiset(s)[c] == 1
  {
    forall c | 0 <= c < Cells
      ensures multiset(s)[c] == 1
    {
      CountOnce(s, c, pos[c]);
    }
  }

  /** Both orders hold exactly the empty cells of ord, each as often as ord holds it. */
  lemma OrdersArePermutations(b: seq<int>, qi: seq<seq<Line>>, ti: seq<seq<Line>>, ord: seq<nat>)
    requires |b| == Cells && Ready(qi, ti, ord)
    ensures multiset(MaxOrder(b, qi, ti, ord)) == multiset(EmptyCells(b, ord))
    ensures multiset(MinOrder(b, qi, ti, ord)) == multiset(EmptyCells(b, ord))
    ensures |MaxOrder(b, qi, ti, ord)| == |MinOrder(b, qi, ti, ord)| == |EmptyCells(b, ord)|
  {
    PickSplit(b, qi, ti, ord);
    assert multiset(MaxOrder(b, qi, ti, ord)) == multiset(EmptyCells(b, ord));
    assert multiset(MinOrder(b, qi, ti, ord)) == multiset(EmptyCells(b, ord));
    assert |multiset(MaxOrder(b, qi, ti, ord))| == |MaxOrder(b, qi, ti, ord)|;
    assert |multiset(MinOrder(b, qi, ti, ord))| == |MinOrder(b, qi, ti, ord)|;
    assert |multiset(EmptyCells(b, ord))| == |EmptyCells(b, ord)|;
  }

  /** A cell occurs in bucket k's list as often as in ord when it is empty and in bucket k, and not at all otherwise. */
  lemma {:induction false} PickCount(b: seq<int>, qi: seq<seq<Line>>, ti: seq<seq<Line>>, ord: seq<nat>, k: Bucket, c: nat)
    requires |b| == Cells && Ready(qi, ti, ord) && c < Cells
    ensures multiset(Pick(b, qi, ti, ord, k))[c] ==
      if b[c] == UNSET && Classify(b, qi[c], ti[c]) == k then multiset(ord)[c] else 0
  {
    if ord != [] {
      var init, last := ord[..|ord| - 1], ord[|ord| - 1];
      ReadyPrefix(qi, ti, ord, |ord| - 1);
      PickCount(b, qi, ti, init, k, c);
      assert ord == init + [last];
      assert multiset(ord) == multiset(init) + multiset{last};
    }
  }

  /**
   * A cell that ord names once: sns.go's minimizer order lists it twice
   * when it is empty and not good (once among the bad or dull cells and
   * once in the maximizer's order), once when it is good, and not at all
   * when it is taken.
   */
  lemma SnsMinOrderCounts(b: seq<int>, qi: seq<seq<Line>>, ti: seq<seq<Line>>, ord: seq<nat>, c: nat)
    requires |b| == Cells && Ready(qi, ti, ord) && c < Cells && multiset(ord)[c] == 1
    ensures multiset(SnsMinOrder(b, qi, ti, ord))[c] ==
      if b[c] != UNSET then 0 else if Classify(b, qi[c], ti[c]) == Good then 1 else 2
  {
    var bad, dull, mx := Pick(b, qi, ti, ord, Bad), Pick(b, qi, ti, ord, Dull), MaxOrder(b, qi, ti, ord);
    PickCount(b, qi, ti, ord, Bad, c);
    PickCount(b, qi, ti, ord, Dull, c);
    OrdersListOnce(b, qi, ti, ord, c);
    assert multiset(bad + dull + mx) == multiset(bad) + multiset(dull) + multiset(mx);
  }

  /** From the initial order, sns.go's minimizer order lists an empty cell twice unless it is good, and a taken cell never. */
  lemma SnsMinOrderListsTwice(b: seq<int>, qi: seq<seq<Line>>, ti: seq<seq<Line>>, c: nat)
    requires |b| == Cells && IndexShaped(qi, ti) && c < Cells
    ensures Ready(qi, ti, InitialOrder)
    ensures multiset(SnsMinOrder(b, qi, ti, InitialOrder))[c] ==
      if b[c] != UNSET then 0 else if Classify(b, qi[c], ti[c]) == Good then 1 else 2
  {
    InitialOrderOnce();
    SnsMinOrderCounts(b, qi, ti, InitialOrder, c);
  }

  /** From the initial order, each order lists every empty cell exactly once and no other cell. */
  lemma OrdersListEachEmptyCellOnce(b: seq<int>, qi: seq<seq<Line>>, ti: seq<seq<Line>>, c: nat)
    requires |b| == Cells && IndexShaped(qi, ti) && c < Cells
    ensures Ready(qi, ti, InitialOrder)
    ensures multiset(MaxOrder(b, qi, ti, InitialOrder))[c] == (if b[c] == UNSET then 1 else 0)
    ensures multiset(MinOrder(b, qi, ti, InitialOrder))[c] == (if b[c] == UNSET then 1 else 0)
  {
    InitialOrderOnce();
    OrdersListOnce(b, qi, ti, InitialOrder, c);
  }

  /** A cell that ord names once is listed once by each order when it is empty, and not at all otherwise. */
  lemma OrdersListOnce(b: seq<int>, qi: seq<seq<Line>>, ti: seq<seq<Line>>, ord: seq<nat>, c: nat)
    requires |b| == Cells && Ready(qi, ti, ord) && c < Cells && multiset(ord)[c] == 1
    ensures multiset(MaxOrder(b, qi, ti, ord))[c] == (if b[c] == UNSET then 1 else 0)
    ensures multiset(MinOrder(b, qi, ti, ord))[c] == (if b[c] == UNSET then 1 else 0)
  {
    OrdersArePermutations(b, qi, ti, ord);
    EmptyCellsCount(b, ord, c);
  }

  /** Every cell of b is empty. */
  predicate EmptyBoard(b: seq<int>)
  {
    |b| == Cells && forall i :: 0 <= i < Cells ==> b[i] == UNSET
  }

  /** On the empty board every line sums to 0, so every cell is dull. */
  lemma EmptyBoardDull(b: seq<int>, qs: seq<Line>, ts: seq<Line>)
    requires EmptyBoard(b) && Shaped(qs, 4) && Shaped(ts, 3)
    ensures Classify(b, qs, ts) == Dull
  {
    QuadBucketMeaning(b, qs);
    TripletBucketMeaning(b, ts);
  }

  lemma {:induction false} EmptyBoardPicks(b: seq<int>, qi: seq<seq<Line>>, ti: seq<seq<Line>>, ord: seq<nat>)
    requires EmptyBoard(b) && Ready(qi, ti, ord)
    ensures Pick(b, qi, ti, ord, Good) == [] && Pick(b, qi, ti, ord, Bad) == [] && Pick(b, qi, ti, ord, Dull) == ord
  {
    if ord != [] {
      var c := ord[|ord| - 1];
      ReadyPrefix(qi, ti, ord, |ord| - 1);
      EmptyBoardPicks(b, qi, ti, ord[..|ord| - 1]);
      EmptyBoardDull(b, qi[c], ti[c]);
      assert ord == ord[..|ord| - 1] + [c];
    }
  }

  /** On the empty board every cell of ord is an empty cell. */
  lemma {:induction false} EmptyCellsOnEmpty(b: seq<int>, ord: seq<nat>)
    requires EmptyBoard(b) && OnBoard(ord)
    ensures EmptyCells(b, ord) == ord
  {
    if ord != [] {
      var init := ord[..|ord| - 1];
      assert forall i :: 0 <= i < |init| ==> init[i] == ord[i];
      EmptyCellsOnEmpty(b, init);
      assert ord == init + [ord[|ord| - 1]];
    }
  }

  /** On the empty board the maximizer's order is ord itself. */
  lemma MaxOrderOnEmpty(b: seq<int>, qi: seq<seq<Line>>, ti: seq<seq<Line>>, ord: seq<nat>)
    requires EmptyBoard(b) && Ready(qi, ti, ord)
    ensures MaxOrder(b, qi, ti, ord) == ord
  {
    EmptyBoardPicks(b, qi, ti, ord);
    assert [] + ord + [] == ord;
  }

  /** On the empty board sns.go's minimizer order is ord twice over. */
  lemma SnsMinOrderOnEmpty(b: seq<int>, qi: seq<seq<Line>>, ti: seq<seq<Line>>, ord: seq<nat>)
    requires EmptyBoard(b) && Ready(qi, ti, ord)
    ensures SnsMinOrder(b, qi, ti, ord) == ord + ord
  {
    EmptyBoardPicks(b, qi, ti, ord);
    MaxOrderOnEmpty(b, qi, ti, ord);
    var bad, dull := Pick(b, qi, ti, ord, Bad), Pick(b, qi, ti, ord, Dull);
    assert SnsMinOrder(b, qi, ti, ord) == bad + dull + MaxOrder(b, qi, ti, ord);
    assert bad + dull == ord;
  }

  /** On the empty board a cell that ord names once appears twice in sns.go's minimizer order. */
  lemma SnsMinOrderDoubles(b: seq<int>, qi: seq<seq<Line>>, ti: seq<seq<Line>>, ord: seq<nat>, c: nat)
    requires EmptyBoard(b) && Ready(qi, ti, ord) && multiset(ord)[c] == 1
    ensures |SnsMinOrder(b, qi, ti, ord)| == 2 * |ord| && |EmptyCells(b, ord)| == |ord|
    ensures multiset(SnsMinOrder(b, qi, ti, ord))[c] == 2
  {
    SnsMinOrderOnEmpty(b, qi, ti, ord);
    EmptyCellsOnEmpty(b, ord);
    assert multiset(ord + ord) == multiset(ord) + multiset(ord);
  }

  /**
   * sns.go's minimizer order on the empty board lists all 25 cells twice:
   * 50 entries where there are 25 empty cells, the centre appearing twice.
   */
  lemma SnsMinOrderRepeats(b: seq<int>, qi: seq<seq<Line>>, ti: seq<seq<Line>>)
    requires EmptyBoard(b) && IndexShaped(qi, ti)
    ensures Ready(qi, ti, InitialOrder)
    ensures |SnsMinOrder(b, qi, ti, InitialOrder)| == 50 && |EmptyCells(b, InitialOrder)| == 25
    ensures multiset(SnsMinOrder(b, qi, ti, InitialOrder))[12] == 2
  {
    InitialOrderOnce();
    SnsMinOrderDoubles(b, qi, ti, InitialOrder, 12);
  }

  /** The bucket of one cell, its quads scanned first and its triplets only when no quad decided. */
  method ClassifyCell(bd: array<int>, qs: seq<Line>, ts: seq<Line>) returns (k: Bucket)
    requires bd.Length == Cells && Shaped(qs, 4) && Shaped(ts, 3)
    ensures k == Classify(bd[..], qs, ts)
  {
    var j := 0;
    while j < |qs|
      invariant 0 <= j <= |qs|
      invariant QuadBucket(bd[..], qs) == QuadBucket(bd[..], qs[j..])
    {
      assert qs[j..][0] == qs[j] && qs[j..][1..] == qs[j + 1..];
      var q := qs[j];
      var sum := bd[q[0]] + bd[q[1]] + bd[q[2]] + bd[q[3]];
      if sum == 3 || sum == 2 {
        return Good;
      }
      if sum == -3 || sum == -2 {
        return Bad;
      }
      j := j + 1;
    }
    j := 0;
    while j < |ts|
      invariant 0 <= j <= |ts|
      invariant TripletBucket(bd[..], ts) == TripletBucket(bd[..], ts[j..])
    {
      assert ts[j..][0] == ts[j] && ts[j..][1..] == ts[j + 1..];
      var t := ts[j];
      var sum := bd[t[0]] + bd[t[1]] + bd[t[2]];
      if sum == -2 {
        return Good;
      }
      if sum == 2 {
        return Bad;
      }
      j := j + 1;
    }
    return Dull;
  }

  /** The bucketing loop of reorderMoves over ord, with the count of empty cells it met. */
  method Buckets(bd: array<int>, qi: seq<seq<Line>>, ti: seq<seq<Line>>, ord: seq<nat>)
    returns (good: seq<nat>, dull: seq<nat>, bad: seq<nat>, unsetCount: nat)
    requires bd.Length == Cells && Ready(qi, ti, ord)
    ensures good == Pick(bd[..], qi, ti, ord, Good) && dull == Pick(bd[..], qi, ti, ord, Dull)
    ensures bad == Pick(bd[..], qi, ti, ord, Bad) && unsetCount == |EmptyCells(bd[..], ord)|
  {
    good, dull, bad, unsetCount := [], [], [], 0;
    var i := 0;
    while i < |ord|
      invariant 0 <= i <= |ord| && Ready(qi, ti, ord[..i])
      invariant good == Pick(bd[..], qi, ti, ord[..i], Good) && dull == Pick(bd[..], qi, ti, ord[..i], Dull)
      invariant bad == Pick(bd[..], qi, ti, ord[..i], Bad) && unsetCount == |EmptyCells(bd[..], ord[..i])|
    {
      ReadyPrefix(qi, ti, ord, i + 1);
      assert ord[..i + 1][..i] == ord[..i];
      var c := ord[i];
      if bd[c] == UNSET {
        unsetCount := unsetCount + 1;
        var k := ClassifyCell(bd, qi[c], ti[c]);
        match k
        case Good => good := good + [c];
        case Dull => dull := dull + [c];
        case Bad => bad := bad + [c];
      }
      i := i + 1;
    }
    assert ord[..i] == ord;
  }

  /**
   * reorderMoves: the maximizer's order is good, dull, bad, one entry per
   * empty cell of ord. The minimizer's is bad and dull followed, when whole
   * is set (sns.go), by the whole maximizer's order, and otherwise
   * (negascout.go) by its first l entries, l being the number of good
   * cells, so that it too has one entry per empty cell.
   */
  method Reorder(bd: array<int>, qi: seq<seq<Line>>, ti: seq<seq<Line>>, ord: seq<nat>, whole: bool)
    returns (maxOrder: seq<nat>, minOrder: seq<nat>)
    requires bd.Length == Cells && Ready(qi, ti, ord)
    ensures maxOrder == MaxOrder(bd[..], qi, ti, ord) && minOrder == MinOrderOf(whole, bd[..], qi, ti, ord)
    ensures |maxOrder| == |EmptyCells(bd[..], ord)|
    ensures !whole ==> |minOrder| == |EmptyCells(bd[..], ord)|
  {
    var good, dull, bad, unsetCount := Buckets(bd, qi, ti, ord);
    var l := |good|;
    maxOrder := good + dull + bad;
    if whole {
      minOrder := bad + dull + maxOrder;
    } else {
      minOrder := bad + dull + maxOrder[..l];
      assert maxOrder[..l] == good;
    }
    OrdersArePermutations(bd[..], qi, ti, ord);
  }
}

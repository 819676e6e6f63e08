/**
 * The two sides of the self-play programs playoff2.go and playoff4.go. Each
 * side sets the depth limit, values the board as it stands with
 * wholeBoardValue, then tries every empty cell in row-major order: its own
 * mark goes in, the other side's reply is searched with the window
 * (LOSS, WIN), and the cell is cleared. A buffer of 25 cells keeps the cells
 * tied at the best value: the largest for the maximizer, the smallest for
 * the minimizer.
 */
module Playoff {
  import opened Lines
  import opened Evaluate
  import opened Static
  import opened LineIndexing
  import opened Keeper
  import opened Search
  import opened Variants

  /** The smallest of init and the offered values. */
  function Worst(init: int, os: seq<Offer>): (r: int)
    ensures r <= init && forall i :: 0 <= i < |os| ==> os[i].value >= r
    ensures r == init || exists i :: 0 <= i < |os| && os[i].value == r
  {
    if os == [] then init
    else
      var m := Worst(init, os[..|os| - 1]);
      var v := os[|os| - 1].value;
      assert forall i :: 0 <= i < |os| - 1 ==> os[..|os| - 1][i] == os[i];
      if v < m then v else m
  }

  /** The value the mover keeps: the best for the maximizer, the worst for the minimizer, from 2*LOSS or 2*WIN. */
  function Target(mover: int, os: seq<Offer>): int
  {
    if mover == MAXIMIZER then Best(2 * LOSS, os) else Worst(2 * WIN, os)
  }

  lemma {:induction false} CellsValuedAbsent(os: seq<Offer>, v: int)
    requires forall i :: 0 <= i < |os| ==> os[i].value != v
    ensures CellsValued(os, v) == []
  {
    if os != [] {
      CellsValuedAbsent(os[..|os| - 1], v);
    }
  }

  /** The value of the mover's mark in the empty cell k: the other side's search from ply 1 with the window (LOSS, WIN). */
  function Reply(r: SearchRule, e: Env, b: seq<int>, mover: int, bv: int, k: nat): int
    requires EnvOk(e) && |b| == Cells && k < Cells && b[k] == UNSET
  {
    Node(r, e, b[k := mover], 1, -mover, LOSS, WIN, k, bv).value
  }

  /** The offers the loop makes for the cells below k: every empty cell, in row-major order, with its Reply value. */
  function Offers(r: SearchRule, e: Env, b: seq<int>, mover: int, bv: int, k: nat): (os: seq<Offer>)
    requires EnvOk(e) && |b| == Cells && k <= Cells
    ensures |os| <= k
  {
    if k == 0 then []
    else
      Offers(r, e, b, mover, bv, k - 1) +
        (if b[k - 1] == UNSET then [Offer(Row(k - 1), Col(k - 1), Reply(r, e, b, mover, bv, k - 1))] else [])
  }

  /** One more cell of the loop: an offer when the cell is empty, nothing otherwise. */
  lemma OffersStep(r: SearchRule, e: Env, b: seq<int>, mover: int, bv: int, k: nat)
    requires EnvOk(e) && |b| == Cells && k < Cells
    ensures b[k] == UNSET ==>
      Offers(r, e, b, mover, bv, k + 1) == Offers(r, e, b, mover, bv, k) + [Offer(k / 5, k % 5, Reply(r, e, b, mover, bv, k))]
    ensures b[k] != UNSET ==> Offers(r, e, b, mover, bv, k + 1) == Offers(r, e, b, mover, bv, k)
  {
  }

  /** Every offer names an empty cell on the board. */
  lemma {:induction false} OffersEmpty(r: SearchRule, e: Env, b: seq<int>, mover: int, bv: int, k: nat, i: nat)
    requires EnvOk(e) && |b| == Cells && k <= Cells && i < |Offers(r, e, b, mover, bv, k)|
    ensures var o := Offers(r, e, b, mover, bv, k)[i]; 0 <= o.x < 5 && 0 <= o.y < 5 && b[Idx(o.x, o.y)] == UNSET
  {
    if i < |Offers(r, e, b, mover, bv, k - 1)| {
      OffersEmpty(r, e, b, mover, bv, k - 1, i);
    } else {
      IdxRowCol(k - 1);
    }
  }

  /** With no empty cell the loop offers nothing, and the mover is left with its starting bound and cell (0, 0). */
  lemma {:induction false} FullBoardOffersNothing(r: SearchRule, e: Env, b: seq<int>, mover: int, bv: int, k: nat)
    requires EnvOk(e) && |b| == Cells && k <= Cells && forall j :: 0 <= j < Cells ==> b[j] != UNSET
    ensures Offers(r, e, b, mover, bv, k) == []
    ensures CellsValued(Offers(r, e, b, mover, bv, k), Target(mover, Offers(r, e, b, mover, bv, k))) == []
  {
    if k > 0 {
      FullBoardOffersNothing(r, e, b, mover, bv, k - 1);
    }
  }

  /** The bias table wholeBoardValue(bd, player) of playoff4.go picks: the maximizer's for MAXIMIZER, else the minimizer's. */
  function TableOf(p: Engine, player: int): seq<int>
    reads p`scoresEven, p`scoresOdd
  {
    if player == MAXIMIZER then p.scoresEven else p.scoresOdd
  }

  /** The board's value as the mover's side sees it before the loop: wholeBoardValue with the given bias table. */
  function OpeningValue(e: Env, b: seq<int>, bias: seq<int>): int
    requires EnvOk(e) && |b| == Cells && |bias| == Cells
  {
    CheckableOnBoard();
    WholeBoardValue(b, e.qi, e.ti, Checkable, bias)
  }

  /** One empty cell of the loop: the mover's mark goes in, the reply is searched, and the cell is cleared again. */
  method TryMove(p: Engine, mover: int, bv: int, k: nat) returns (val: int)
    requires p.Valid() && k < Cells && p.bd[k] == UNSET && (mover == MAXIMIZER || mover == MINIMIZER)
    modifies p.bd, p`leafNodeCount
    ensures p.Valid() && p.bd[..] == old(p.bd[..])
    ensures val == Reply(p.rule, p.Setting(), p.bd[..], mover, bv, k)
  {
    ghost var b0 := p.bd[..];
    p.bd[k] := mover;
    assert p.bd[..] == b0[k := mover];
    var leaves;
    val, leaves := p.AlphaBeta(1, -mover, LOSS, WIN, k, bv);
    p.bd[k] := UNSET;
    assert p.bd[..] == b0;
  }

  /**
   * The inline keeper of the two sides: a value beyond the kept one restarts
   * the buffer with the cell, an equal value appends it, anything else is
   * ignored.
   */
  method Keep(moves: array<(int, int)>, next: int, best: int, mover: int, ghost os: seq<Offer>, o: Offer)
    returns (next': int, best': int)
    requires moves.Length == 25 && 0 <= next <= 25 && |os| < 25 && (mover == MAXIMIZER || mover == MINIMIZER)
    requires best == Target(mover, os) && moves[..next] == CellsValued(os, best)
    modifies moves
    ensures 0 <= next' <= 25 && best' == Target(mover, os + [o]) && moves[..next'] == CellsValued(os + [o], best')
    ensures next' == 0 ==> next == 0 && moves[0] == old(moves[0])
  {
    ghost var os' := os + [o];
    assert os'[..|os'| - 1] == os;
    assert |moves[..next]| <= |os|;
    next', best' := next, best;
    var better := if mover == MAXIMIZER then o.value > best else o.value < best;
    if o.value == best || better {
      if better {
        best' := o.value;
        next' := 0;
        CellsValuedAbsent(os, o.value);
      }
      moves[next'] := (o.x, o.y);
      next' := next' + 1;
    }
  }

  /** The loop of the two sides: every empty cell's Reply offered, in row-major order, to the inline keeper. */
  method Sweep(p: Engine, mover: int, bv: int) returns (moves: array<(int, int)>, next: int, best: int)
    requires p.Valid() && (mover == MAXIMIZER || mover == MINIMIZER)
    modifies p.bd, p`leafNodeCount
    ensures p.Valid() && p.bd[..] == old(p.bd[..]) && fresh(moves) && moves.Length == 25 && 0 <= next <= 25
    ensures var os := Offers(p.rule, p.Setting(), p.bd[..], mover, bv, Cells);
      best == Target(mover, os) && moves[..next] == CellsValued(os, best)
    ensures next == 0 ==> moves[0] == (0, 0)
  {
    ghost var e := p.Setting();
    ghost var b0 := p.bd[..];
    moves := new (int, int)[25](_ => (0, 0));
    next := 0;
    best := if mover == MAXIMIZER then 2 * LOSS else 2 * WIN;
    var k := 0;
    while k < Cells
      invariant 0 <= k <= Cells && p.bd[..] == b0 && e == p.Setting() && p.Valid()
      invariant 0 <= next <= 25 && moves.Length == 25 && fresh(moves)
      invariant best == Target(mover, Offers(p.rule, e, b0, mover, bv, k))
      invariant moves[..next] == CellsValued(Offers(p.rule, e, b0, mover, bv, k), best)
      invariant next == 0 ==> moves[0] == (0, 0)
    {
      next, best := SweepCell(p, moves, next, best, mover, bv, k, e, b0);
      k := k + 1;
    }
  }

  /** One cell of the loop: an empty cell is tried and its value offered to the inline keeper; an occupied one is passed over. */
  method SweepCell(p: Engine, moves: array<(int, int)>, next: int, best: int, mover: int, bv: int, k: nat, ghost e: Env, ghost b0: seq<int>)
    returns (next': int, best': int)
    requires p.Valid() && e == p.Setting() && b0 == p.bd[..] && k < Cells && (mover == MAXIMIZER || mover == MINIMIZER)
    requires moves.Length == 25 && 0 <= next <= 25
    requires best == Target(mover, Offers(p.rule, e, b0, mover, bv, k))
    requires moves[..next] == CellsValued(Offers(p.rule, e, b0, mover, bv, k), best)
    modifies p.bd, p`leafNodeCount, moves
    ensures p.Valid() && p.bd[..] == b0 && p.Setting() == e && 0 <= next' <= 25
    ensures best' == Target(mover, Offers(p.rule, e, b0, mover, bv, k + 1))
    ensures moves[..next'] == CellsValued(Offers(p.rule, e, b0, mover, bv, k + 1), best')
    ensures next' == 0 ==> next == 0 && moves[0] == old(moves[0])
  {
    OffersStep(p.rule, e, b0, mover, bv, k);
    next', best' := next, best;
    if p.bd[k] == UNSET {
      var val := TryMove(p, mover, bv, k);
      next', best' := Keep(moves, next, best, mover, Offers(p.rule, e, b0, mover, bv, k), Offer(k / 5, k % 5, val));
    }
  }

  /**
   * maximizerMove (mover MAXIMIZER) and minimizerMove (mover MINIMIZER):
   * the board is valued with the other side's bias table (playoff2.go has
   * one table for both), every empty cell's Reply is offered in row-major
   * order, and the kept cell at index 0, or at the caller's random draw rnd,
   * is returned with the kept value. When nothing was kept the buffer's
   * zero cell (0, 0) comes back.
   */
  method PlayMove(p: Engine, mover: int, desiredDepth: int, deterministic: bool, rnd: int) returns (x: int, y: int, value: int)
    requires p.Valid() && (mover == MAXIMIZER || mover == MINIMIZER)
    requires var e := p.Setting().(maxDepth := desiredDepth);
      Drawable(p.rule, e, p.bd[..], mover, OpeningValue(e, p.bd[..], TableOf(p, -mover)), deterministic, rnd)
    modifies p`maxDepth, p.bd, p`leafNodeCount
    ensures p.Valid() && p.maxDepth == desiredDepth && p.bd[..] == old(p.bd[..])
    ensures var e := p.Setting();
      Picked(p.rule, e, p.bd[..], mover, OpeningValue(e, p.bd[..], TableOf(p, -mover)), deterministic, rnd, x, y, value)
  {
    p.maxDepth := desiredDepth;
    CheckableOnBoard();
    var bv := WholeBoardValueOf(p.bd, p.index.quads, p.index.triplets, Checkable, TableOf(p, -mover));
    assert bv == OpeningValue(p.Setting(), p.bd[..], TableOf(p, -mover));
    x, y, value := Pick(p, mover, bv, deterministic, rnd);
  }

  /** A random draw rnd, when one is made, falls among the kept cells of the offers for the board value bv. */
  predicate Drawable(r: SearchRule, e: Env, b: seq<int>, mover: int, bv: int, deterministic: bool, rnd: int)
    requires EnvOk(e) && |b| == Cells
  {
    var os := Offers(r, e, b, mover, bv, Cells);
    !deterministic ==> 0 <= rnd < |CellsValued(os, Target(mover, os))|
  }

  /**
   * (x, y, value) is what PlayMove reports for the board value bv: the kept
   * value, and the kept cell at index 0 or rnd, an empty cell of the board;
   * (0, 0) when nothing was kept.
   */
  predicate Picked(r: SearchRule, e: Env, b: seq<int>, mover: int, bv: int, deterministic: bool, rnd: int, x: int, y: int, value: int)
    requires EnvOk(e) && |b| == Cells
  {
    var os := Offers(r, e, b, mover, bv, Cells);
    var kept := CellsValued(os, Target(mover, os));
    var i := if deterministic then 0 else rnd;
    value == Target(mover, os) &&
    (kept != [] ==> 0 <= i < |kept| && (x, y) == kept[i] && 0 <= x < 5 && 0 <= y < 5 && b[Idx(x, y)] == UNSET) &&
    (kept == [] ==> (x, y) == (0, 0))
  }

  /** The loop and the draw of PlayMove, for the board value bv. */
  method Pick(p: Engine, mover: int, bv: int, deterministic: bool, rnd: int) returns (x: int, y: int, value: int)
    requires p.Valid() && (mover == MAXIMIZER || mover == MINIMIZER)
    requires Drawable(p.rule, p.Setting(), p.bd[..], mover, bv, deterministic, rnd)
    modifies p.bd, p`leafNodeCount
    ensures p.Valid() && p.bd[..] == old(p.bd[..]) && p.Setting() == old(p.Setting())
    ensures Picked(p.rule, p.Setting(), p.bd[..], mover, bv, deterministic, rnd, x, y, value)
  {
    ghost var e, b := p.Setting(), p.bd[..];
    ghost var os := Offers(p.rule, e, b, mover, bv, Cells);
    var moves, next, best := Sweep(p, mover, bv);
    assert p.Setting() == e && p.bd[..] == b;
    var r := 0;
    if !deterministic {
      r := rnd;
    }
    x, y, value := moves[r].0, moves[r].1, best;
    if next > 0 {
      PickedEmpty(p.rule, e, b, mover, bv, best, r);
    }
  }

  /** The r-th kept cell names an empty cell on the board. */
  lemma PickedEmpty(r: SearchRule, e: Env, b: seq<int>, mover: int, bv: int, best: int, k: nat)
    requires EnvOk(e) && |b| == Cells && k < |CellsValued(Offers(r, e, b, mover, bv, Cells), best)|
    ensures var c := CellsValued(Offers(r, e, b, mover, bv, Cells), best)[k]; 0 <= c.0 < 5 && 0 <= c.1 < 5 && b[Idx(c.0, c.1)] == UNSET
  {
    var os := Offers(r, e, b, mover, bv, Cells);
    CellsValuedOffered(os, best, k);
    var i :| 0 <= i < |os| && os[i].value == best && CellsValued(os, best)[k] == (os[i].x, os[i].y);
    OffersEmpty(r, e, b, mover, bv, Cells, i);
  }

  /** The set-up of playoff2.go: one bias table for both sides and both plies. */
  method NewPlayoff2(maxdepth: int, index: LineIndex, scores: seq<int>) returns (p: Engine)
    requires index.Valid() && |scores| == Cells
    modifies index
    ensures p.Valid() && fresh(p) && fresh(p.bd) && p.index == index && index.Built()
    ensures p.bd[..] == seq(Cells, _ => UNSET) && p.maxDepth == maxdepth && p.rule == PlayoffRule
    ensures p.scoresEven == scores && p.scoresOdd == scores
  {
    p := new Engine(false, maxdepth, index, PlayoffRule, Depths(maxdepth, maxdepth, maxdepth), false, scores);
  }

  /** The set-up of playoff4.go: maximizerScores for even plies and the maximizer, minimizerScores for odd plies and the minimizer. */
  method NewPlayoff4(maxdepth: int, index: LineIndex, maximizerScores: seq<int>, minimizerScores: seq<int>) returns (p: Engine)
    requires index.Valid() && |maximizerScores| == Cells && |minimizerScores| == Cells
    modifies index
    ensures p.Valid() && fresh(p) && fresh(p.bd) && p.index == index && index.Built()
    ensures p.bd[..] == seq(Cells, _ => UNSET) && p.maxDepth == maxdepth && p.rule == PlayoffRule
    ensures TableOf(p, MAXIMIZER) == maximizerScores && TableOf(p, MINIMIZER) == minimizerScores
  {
    p := new Engine(false, maxdepth, index, PlayoffRule, Depths(maxdepth, maxdepth, maxdepth), false, maximizerScores);
    p.scoresOdd := minimizerScores;
  }
}

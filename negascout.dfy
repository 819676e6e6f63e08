/**
 * The NegaScout engines (src/negascout/negascout.go and sns.go; the two
 * searches are the same code, but sns.go's minimizer order lists most empty
 * cells twice). Each node first asks staticValue whether to stop; otherwise
 * it tries the empty cells in the order reorderMoves fixed at the root,
 * probing each child with a null window (-n, -alpha) and searching it again
 * with the full window when the probe beats the best score and the window
 * was narrowed, except one ply above the horizon. The board is changed
 * in place and each cell is cleared again after its child.
 *
 * NS, Loop and Probe specify the search as functions of the board; the
 * methods of ScoutEngine are proved to compute them, to restore the board and
 * to count one leaf per staticValue call. RootLoop specifies the root loop of
 * ChooseMove, which offers every tried cell with the running alpha.
 */
module Scout {
  import opened Lines
  import opened Evaluate
  import opened Static
  import opened Ordering
  import opened Keeper
  import opened LineIndexing
  import opened Search

  /**
   * What the search reads besides the board: the staticValue variant, the
   * depth limit, the per-cell quad and triplet lists, the checkable cells, the
   * deadly quads, the bias table, and the maximizer's and minimizer's orders
   * (orderedMoves[2] and orderedMoves[0]).
   */
  datatype ScoutEnv = ScoutEnv(rule: StaticRule, maxDepth: int, qi: seq<seq<Line>>, ti: seq<seq<Line>>,
                               cs: seq<nat>, dq: seq<Line>, bias: seq<int>, maxOrd: seq<nat>, minOrd: seq<nat>)

  predicate ScoutOk(e: ScoutEnv)
  {
    IndexShaped(e.qi, e.ti) && OnBoard(e.cs) && Shaped(e.dq, 4) && |e.bias| == Cells &&
    OnBoard(e.maxOrd) && OnBoard(e.minOrd) && |e.maxOrd| <= Cells
  }

  /** orderedMoves[player + 1]. */
  function OrderFor(e: ScoutEnv, player: int): seq<nat>
  {
    if player == MAXIMIZER then e.maxOrd else e.minOrd
  }

  /** A search result: the value and the number of staticValue calls made, each of which counts one leaf. */
  datatype Scored = Scored(value: int, evals: nat)

  /** staticValue on board b at this ply. */
  function Judgement(e: ScoutEnv, b: seq<int>, ply: int): Verdict
    requires ScoutOk(e) && |b| == Cells
  {
    StaticValue(e.rule, b, ply, e.maxDepth, e.qi, e.ti, e.cs, e.dq, e.bias)
  }

  /**
   * negaScout(ply, player, alpha, beta): a stop returns the static value from
   * the mover's side; otherwise the loop runs from a score of 3*LOSS with the
   * probe bound n at beta.
   */
  function NS(e: ScoutEnv, b: seq<int>, ply: int, player: int, alpha: int, beta: int): Scored
    requires ScoutOk(e) && |b| == Cells && (player == MAXIMIZER || player == MINIMIZER)
    decreases Empties(b), 2
  {
    var v := Judgement(e, b, ply);
    if v.stop then Scored(player * v.value, 1)
    else
      var l := Loop(e, b, ply, player, alpha, beta, 0, 3 * LOSS, beta, 0);
      Scored(l.value, l.evals + 1)
  }

  /**
   * The loop of negaScout from the k-th cell of the mover's order on: an
   * occupied cell is skipped; an empty one is probed, alpha rises to the
   * score, the loop ends once alpha >= beta and otherwise goes on with
   * n = alpha + 1.
   */
  function Loop(e: ScoutEnv, b: seq<int>, ply: int, player: int, alpha: int, beta: int,
                k: nat, score: int, n: int, evals: nat): Scored
    requires ScoutOk(e) && |b| == Cells && (player == MAXIMIZER || player == MINIMIZER)
    decreases Empties(b), 1, |OrderFor(e, player)| - k
  {
    var ord := OrderFor(e, player);
    if k >= |ord| then Scored(score, evals)
    else if b[ord[k]] != UNSET then Loop(e, b, ply, player, alpha, beta, k + 1, score, n, evals)
    else
      var p := Probe(e, b, ply, player, alpha, beta, ord[k], score, n, false);
      var a := if p.value > alpha then p.value else alpha;
      if a >= beta then Scored(p.value, evals + p.evals)
      else Loop(e, b, ply, player, a, beta, k + 1, p.value, a + 1, evals + p.evals)
  }

  /**
   * One empty cell c: the mover's mark goes in and the child is probed with
   * the window (-n, -alpha). A result that beats the score replaces it,
   * directly when n == beta (or, below the root, at ply maxDepth - 2), and
   * otherwise through a second search with the window (-beta, -cur). The
   * result is the new score and the staticValue calls of both searches.
   */
  function Probe(e: ScoutEnv, b: seq<int>, ply: int, player: int, alpha: int, beta: int,
                 c: nat, score: int, n: int, root: bool): Scored
    requires ScoutOk(e) && |b| == Cells && c < Cells && b[c] == UNSET
    requires player == MAXIMIZER || player == MINIMIZER
    decreases Empties(b), 0
  {
    var b' := b[c := player];
    EmptiesFill(b, c, player);
    var first := NS(e, b', ply + 1, -player, -n, -alpha);
    var cur := -first.value;
    if cur <= score then Scored(score, first.evals)
    else if n == beta || (!root && ply == e.maxDepth - 2) then Scored(cur, first.evals)
    else
      var second := NS(e, b', ply + 1, -player, -beta, -cur);
      Scored(-second.value, first.evals + second.evals)
  }

  /** Probe's three outcomes, given the first search's result. */
  lemma ProbeCases(e: ScoutEnv, b: seq<int>, ply: int, player: int, alpha: int, beta: int,
                   c: nat, score: int, n: int, root: bool, first: Scored)
    requires ScoutOk(e) && |b| == Cells && c < Cells && b[c] == UNSET
    requires player == MAXIMIZER || player == MINIMIZER
    requires first == NS(e, b[c := player], ply + 1, -player, -n, -alpha)
    ensures -first.value <= score ==> Probe(e, b, ply, player, alpha, beta, c, score, n, root) == Scored(score, first.evals)
    ensures -first.value > score && (n == beta || (!root && ply == e.maxDepth - 2)) ==>
      Probe(e, b, ply, player, alpha, beta, c, score, n, root) == Scored(-first.value, first.evals)
    ensures -first.value > score && !(n == beta || (!root && ply == e.maxDepth - 2)) ==>
      var second := NS(e, b[c := player], ply + 1, -player, -beta, first.value);
      Probe(e, b, ply, player, alpha, beta, c, score, n, root) == Scored(-second.value, first.evals + second.evals)
  {
  }

  /** The offers the root loop made and the staticValue calls it caused. */
  datatype RootRun = RootRun(offers: seq<Offer>, evals: nat)

  /**
   * The root loop of ChooseMove from the k-th cell of the maximizer's order
   * on, with the window (alpha, 2*WIN): every empty cell is probed at ply 0
   * and offered with the running alpha; the loop ends once alpha >= 2*WIN.
   */
  function RootLoop(e: ScoutEnv, b: seq<int>, k: nat, alpha: int, score: int, n: int,
                    os: seq<Offer>, evals: nat): RootRun
    requires ScoutOk(e) && |b| == Cells
    decreases |e.maxOrd| - k
  {
    if k >= |e.maxOrd| then RootRun(os, evals)
    else
      var c := e.maxOrd[k];
      if b[c] != UNSET then RootLoop(e, b, k + 1, alpha, score, n, os, evals)
      else
        var p := Probe(e, b, 0, MAXIMIZER, alpha, 2 * WIN, c, score, n, true);
        var a := if p.value > alpha then p.value else alpha;
        var os' := os + [Offer(Row(c), Col(c), a)];
        if a >= 2 * WIN then RootRun(os', evals + p.evals)
        else RootLoop(e, b, k + 1, a, p.value, a + 1, os', evals + p.evals)
  }

  /** The whole root loop: alpha from 2*LOSS, score from 3*LOSS, n from beta = 2*WIN, nothing offered yet. */
  function Root(e: ScoutEnv, b: seq<int>): RootRun
    requires ScoutOk(e) && |b| == Cells
  {
    RootLoop(e, b, 0, 2 * LOSS, 3 * LOSS, 2 * WIN, [], 0)
  }

  /** The offered values never fall. */
  predicate Rising(os: seq<Offer>)
  {
    forall i, j :: 0 <= i < j < |os| ==> os[i].value <= os[j].value
  }

  /** Every offered value is at least lo. */
  predicate Floor(os: seq<Offer>, lo: int)
  {
    forall i :: 0 <= i < |os| ==> os[i].value >= lo
  }

  /** An offer names a cell of the board that is empty. */
  predicate Vacant(b: seq<int>, o: Offer)
    requires |b| == Cells
  {
    0 <= o.x < 5 && 0 <= o.y < 5 && b[Idx(o.x, o.y)] == UNSET
  }

  /** Every offer names an empty cell. */
  predicate AllVacant(b: seq<int>, os: seq<Offer>)
    requires |b| == Cells
  {
    forall i :: 0 <= i < |os| ==> Vacant(b, os[i])
  }

  /**
   * The root records the running alpha, so the offers rise and never drop
   * below the alpha they started from.
   */
  lemma {:induction false} RootRises(e: ScoutEnv, b: seq<int>, k: nat, alpha: int, score: int, n: int,
                                     os: seq<Offer>, evals: nat, lo: int)
    requires ScoutOk(e) && |b| == Cells
    requires Rising(os) && Floor(os, lo) && alpha >= lo && (os != [] ==> os[|os| - 1].value <= alpha)
    ensures Rising(RootLoop(e, b, k, alpha, score, n, os, evals).offers)
    ensures Floor(RootLoop(e, b, k, alpha, score, n, os, evals).offers, lo)
    decreases |e.maxOrd| - k
  {
    if k < |e.maxOrd| {
      var c := e.maxOrd[k];
      if b[c] != UNSET {
        RootRises(e, b, k + 1, alpha, score, n, os, evals, lo);
      } else {
        var p := Probe(e, b, 0, MAXIMIZER, alpha, 2 * WIN, c, score, n, true);
        var a := if p.value > alpha then p.value else alpha;
        var os' := os + [Offer(Row(c), Col(c), a)];
        assert Rising(os') by {
          forall i, j | 0 <= i < j < |os'|
            ensures os'[i].value <= os'[j].value
          {
            if j < |os| {
              assert os'[i] == os[i] && os'[j] == os[j];
            } else if |os| > 0 {
              assert os'[i].value <= os[|os| - 1].value;
            }
          }
        }
        assert Floor(os', lo) by {
          forall i | 0 <= i < |os'|
            ensures os'[i].value >= lo
          {
            if i < |os| {
              assert os'[i] == os[i];
            }
          }
        }
        if a < 2 * WIN {
          RootRises(e, b, k + 1, a, p.value, a + 1, os', evals + p.evals, lo);
        }
      }
    }
  }

  lemma VacantAppend(b: seq<int>, os: seq<Offer>, c: nat, a: int)
    requires |b| == Cells && AllVacant(b, os) && c < Cells && b[c] == UNSET
    ensures AllVacant(b, os + [Offer(Row(c), Col(c), a)])
  {
    IdxRowCol(c);
    assert forall i :: 0 <= i < |os| ==> (os + [Offer(Row(c), Col(c), a)])[i] == os[i];
  }

  /** Every cell the root offers is an empty cell of the board. */
  lemma {:induction false} RootOffersVacant(e: ScoutEnv, b: seq<int>, k: nat, alpha: int, score: int, n: int,
                                            os: seq<Offer>, evals: nat)
    requires ScoutOk(e) && |b| == Cells && AllVacant(b, os)
    ensures AllVacant(b, RootLoop(e, b, k, alpha, score, n, os, evals).offers)
    decreases |e.maxOrd| - k
  {
    if k < |e.maxOrd| {
      var c := e.maxOrd[k];
      if b[c] != UNSET {
        assert RootLoop(e, b, k, alpha, score, n, os, evals) == RootLoop(e, b, k + 1, alpha, score, n, os, evals);
        RootOffersVacant(e, b, k + 1, alpha, score, n, os, evals);
      } else {
        var p := Probe(e, b, 0, MAXIMIZER, alpha, 2 * WIN, c, score, n, true);
        var a := if p.value > alpha then p.value else alpha;
        var os' := os + [Offer(Row(c), Col(c), a)];
        VacantAppend(b, os, c, a);
        if a < 2 * WIN {
          assert RootLoop(e, b, k, alpha, score, n, os, evals) == RootLoop(e, b, k + 1, a, p.value, a + 1, os', evals + p.evals);
          RootOffersVacant(e, b, k + 1, a, p.value, a + 1, os', evals + p.evals);
        } else {
          assert RootLoop(e, b, k, alpha, score, n, os, evals).offers == os';
        }
      }
    }
  }

  /** An empty cell left in the order guarantees one more offer: the loop only stops after offering. */
  lemma {:induction false} RootOffersMade(e: ScoutEnv, b: seq<int>, k: nat, alpha: int, score: int, n: int,
                                          os: seq<Offer>, evals: nat, j: nat)
    requires ScoutOk(e) && |b| == Cells && k <= j < |e.maxOrd| && b[e.maxOrd[j]] == UNSET
    ensures |RootLoop(e, b, k, alpha, score, n, os, evals).offers| > |os|
    decreases |e.maxOrd| - k
  {
    var c := e.maxOrd[k];
    if b[c] != UNSET {
      RootOffersMade(e, b, k + 1, alpha, score, n, os, evals, j);
    } else {
      var p := Probe(e, b, 0, MAXIMIZER, alpha, 2 * WIN, c, score, n, true);
      var a := if p.value > alpha then p.value else alpha;
      if a < 2 * WIN {
        RootOffersLonger(e, b, k + 1, a, p.value, a + 1, os + [Offer(Row(c), Col(c), a)], evals + p.evals);
      }
    }
  }

  /** The root loop only adds offers. */
  lemma {:induction false} RootOffersLonger(e: ScoutEnv, b: seq<int>, k: nat, alpha: int, score: int, n: int,
                                            os: seq<Offer>, evals: nat)
    requires ScoutOk(e) && |b| == Cells
    ensures |RootLoop(e, b, k, alpha, score, n, os, evals).offers| >= |os|
    decreases |e.maxOrd| - k
  {
    if k < |e.maxOrd| {
      var c := e.maxOrd[k];
      if b[c] != UNSET {
        RootOffersLonger(e, b, k + 1, alpha, score, n, os, evals);
      } else {
        var p := Probe(e, b, 0, MAXIMIZER, alpha, 2 * WIN, c, score, n, true);
        var a := if p.value > alpha then p.value else alpha;
        if a < 2 * WIN {
          RootOffersLonger(e, b, k + 1, a, p.value, a + 1, os + [Offer(Row(c), Col(c), a)], evals + p.evals);
        }
      }
    }
  }

  /** Of rising offers that all beat init, the best is the last one. */
  lemma {:induction false} RisingBest(init: int, os: seq<Offer>)
    requires os != [] && Rising(os) && Floor(os, init + 1)
    ensures Best(init, os) == os[|os| - 1].value
  {
    var r := Best(init, os);
    assert r >= os[|os| - 1].value && r > init;
    var i :| 0 <= i < |os| && os[i].value == r;
    assert os[i].value <= os[|os| - 1].value;
  }

  /**
   * ChooseMove's keeper, started at 3*LOSS, keeps a move whenever the board
   * has an empty cell in the maximizer's order; its value is the final
   * running alpha, and every offered cell is empty.
   */
  lemma RootKeeps(e: ScoutEnv, b: seq<int>, j: nat)
    requires ScoutOk(e) && |b| == Cells && j < |e.maxOrd| && b[e.maxOrd[j]] == UNSET
    ensures var os := Root(e, b).offers;
      os != [] && Best(3 * LOSS, os) == os[|os| - 1].value && Best(3 * LOSS, os) >= 2 * LOSS &&
      CellsValued(os, Best(3 * LOSS, os)) != []
  {
    var os := Root(e, b).offers;
    RootOffersMade(e, b, 0, 2 * LOSS, 3 * LOSS, 2 * WIN, [], 0, j);
    RootRises(e, b, 0, 2 * LOSS, 3 * LOSS, 2 * WIN, [], 0, 2 * LOSS);
    RisingBest(3 * LOSS, os);
    var m := Best(3 * LOSS, os);
    CellsValuedCount(os, m);
    assert |os| - 1 in set i | 0 <= i < |os| && os[i].value == m;
  }

  /** Every offer of ChooseMove's root loop names an empty cell. */
  lemma RootVacant(e: ScoutEnv, b: seq<int>)
    requires ScoutOk(e) && |b| == Cells
    ensures AllVacant(b, Root(e, b).offers)
  {
    RootOffersVacant(e, b, 0, 2 * LOSS, 3 * LOSS, 2 * WIN, [], 0);
  }

  /** Every move the root keeper holds names an empty cell of the board searched. */
  lemma KeptVacant(e: ScoutEnv, b: seq<int>, k: int)
    requires ScoutOk(e) && |b| == Cells
    requires var os := Root(e, b).offers; 0 <= k < |CellsValued(os, Best(3 * LOSS, os))|
    ensures var os := Root(e, b).offers; var p := CellsValued(os, Best(3 * LOSS, os))[k];
      0 <= p.0 < 5 && 0 <= p.1 < 5 && b[Idx(p.0, p.1)] == UNSET
  {
    var os := Root(e, b).offers;
    RootVacant(e, b);
    CellsValuedOffered(os, Best(3 * LOSS, os), k);
    var i :| 0 <= i < |os| && os[i].value == Best(3 * LOSS, os) && CellsValued(os, Best(3 * LOSS, os))[k] == (os[i].x, os[i].y);
    assert Vacant(b, os[i]);
  }

  /** A loop whose remaining cells are all occupied returns the score it holds, with no further staticValue call. */
  lemma {:induction false} LoopExhausted(e: ScoutEnv, b: seq<int>, ply: int, player: int, alpha: int, beta: int,
                                         k: nat, score: int, n: int, evals: nat)
    requires ScoutOk(e) && |b| == Cells && (player == MAXIMIZER || player == MINIMIZER)
    requires forall j :: k <= j < |OrderFor(e, player)| ==> b[OrderFor(e, player)[j]] != UNSET
    ensures Loop(e, b, ply, player, alpha, beta, k, score, n, evals) == Scored(score, evals)
    decreases |OrderFor(e, player)| - k
  {
    if k < |OrderFor(e, player)| {
      LoopExhausted(e, b, ply, player, alpha, beta, k + 1, score, n, evals);
    }
  }

  /**
   * A full board whose static value does not stop the search (no complete
   * line, ply within the limit) scores 3*LOSS: the cat game the source's
   * comment warns about is valued as a loss for the mover.
   */
  lemma FullBoardScore(e: ScoutEnv, b: seq<int>, ply: int, player: int, alpha: int, beta: int)
    requires ScoutOk(e) && |b| == Cells && (player == MAXIMIZER || player == MINIMIZER)
    requires forall c :: 0 <= c < Cells ==> b[c] != UNSET
    requires !Judgement(e, b, ply).stop
    ensures NS(e, b, ply, player, alpha, beta) == Scored(3 * LOSS, 1)
  {
    var ord := OrderFor(e, player);
    assert forall j :: 0 <= j < |ord| ==> b[ord[j]] != UNSET;
    LoopExhausted(e, b, ply, player, alpha, beta, 0, 3 * LOSS, beta, 0);
    assert Loop(e, b, ply, player, alpha, beta, 0, 3 * LOSS, beta, 0) == Scored(3 * LOSS, 0);
  }

  /** The orders reorderMoves builds from ord, put into the environment; whole picks sns.go's minimizer order. */
  function Reordered(e: ScoutEnv, b: seq<int>, ord: seq<nat>, whole: bool): ScoutEnv
    requires |b| == Cells && IndexShaped(e.qi, e.ti) && OnBoard(ord)
  {
    e.(maxOrd := MaxOrder(b, e.qi, e.ti, ord), minOrd := MinOrderOf(whole, b, e.qi, e.ti, ord))
  }

  lemma {:induction false} EmptyCellsFewer(b: seq<int>, ord: seq<nat>)
    requires |b| == Cells && OnBoard(ord)
    ensures |EmptyCells(b, ord)| <= |ord|
  {
    if ord != [] {
      ReadyOnBoard(ord, |ord| - 1);
      EmptyCellsFewer(b, ord[..|ord| - 1]);
    }
  }

  lemma ReadyOnBoard(ord: seq<nat>, n: nat)
    requires OnBoard(ord) && n <= |ord|
    ensures OnBoard(ord[..n])
  {
    assert forall i :: 0 <= i < n ==> ord[..n][i] == ord[i];
  }

  /** The reordered environment is one the search can run in, and an empty cell of ord is in the maximizer's order. */
  lemma ReorderedOk(e: ScoutEnv, b: seq<int>, ord: seq<nat>, whole: bool)
    requires ScoutOk(e) && |b| == Cells && OnBoard(ord) && |ord| <= Cells
    ensures ScoutOk(Reordered(e, b, ord, whole))
    ensures forall c :: c in ord && b[c] == UNSET ==> c in Reordered(e, b, ord, whole).maxOrd
  {
    var mx := MaxOrder(b, e.qi, e.ti, ord);
    var mn := MinOrderOf(whole, b, e.qi, e.ti, ord);
    forall i | 0 <= i < |mx|
      ensures mx[i] < Cells
    {
      var c := mx[i];
      var k := if c in Pick(b, e.qi, e.ti, ord, Good) then Good
               else if c in Pick(b, e.qi, e.ti, ord, Dull) then Dull else Bad;
      PickMembers(b, e.qi, e.ti, ord, k, c);
    }
    forall i | 0 <= i < |mn|
      ensures mn[i] < Cells
    {
      var c := mn[i];
      var k := if c in Pick(b, e.qi, e.ti, ord, Good) then Good
               else if c in Pick(b, e.qi, e.ti, ord, Dull) then Dull else Bad;
      PickMembers(b, e.qi, e.ti, ord, k, c);
    }
    OrdersArePermutations(b, e.qi, e.ti, ord);
    EmptyCellsFewer(b, ord);
    forall c | c in ord && b[c] == UNSET
      ensures c in mx
    {
      PickMembers(b, e.qi, e.ti, ord, Classify(b, e.qi[c], e.ti[c]), c);
    }
  }

  /** With an empty cell in ord, the root loop over the reordered moves keeps a move, valued at the final alpha. */
  lemma PlannedKeeps(e: ScoutEnv, b: seq<int>, ord: seq<nat>, whole: bool, c: nat)
    requires ScoutOk(e) && |b| == Cells && OnBoard(ord) && |ord| <= Cells && c in ord && b[c] == UNSET
    ensures ScoutOk(Reordered(e, b, ord, whole))
    ensures var os := Root(Reordered(e, b, ord, whole), b).offers;
      os != [] && Best(3 * LOSS, os) == os[|os| - 1].value && CellsValued(os, Best(3 * LOSS, os)) != []
  {
    ReorderedOk(e, b, ord, whole);
    var r := Reordered(e, b, ord, whole);
    var j :| 0 <= j < |r.maxOrd| && r.maxOrd[j] == c;
    RootKeeps(r, b, j);
  }

  /**
   * The root loop on board b kept a move, valued at the final alpha, and
   * (x, y), the kept move at index k, names an empty cell.
   */
  ghost predicate RootChosen(e: ScoutEnv, b: seq<int>, k: int, x: int, y: int, value: int)
  {
    ScoutOk(e) && |b| == Cells &&
    var os := Root(e, b).offers; var kept := CellsValued(os, Best(3 * LOSS, os));
    os != [] && value == Best(3 * LOSS, os) == os[|os| - 1].value && 0 <= k < |kept| && (x, y) == kept[k] &&
    0 <= x < 5 && 0 <= y < 5 && b[Idx(x, y)] == UNSET
  }

  /** With an empty cell in the maximizer's order, the keeper's choice is a kept move on an empty cell. */
  lemma ChoiceMade(e: ScoutEnv, b: seq<int>, c: nat, k: int, x: int, y: int, value: int)
    requires ScoutOk(e) && |b| == Cells && c in e.maxOrd && b[c] == UNSET
    requires var os := Root(e, b).offers; var kept := CellsValued(os, Best(3 * LOSS, os));
      kept != [] ==> 0 <= k < |kept| && value == Best(3 * LOSS, os) && (x, y) == kept[k]
    ensures RootChosen(e, b, k, x, y, value)
  {
    var j :| 0 <= j < |e.maxOrd| && e.maxOrd[j] == c;
    RootKeeps(e, b, j);
    KeptVacant(e, b, k);
  }

  /**
   * The state of a NegaScout engine: its board, leaf counter, depth limit,
   * tie-breaking flag, bias table and the two orders reorderMoves keeps, with
   * the shared line index, the file's staticValue variant and depth limits,
   * the checkable cells, the deadly quads, the initial move order, and
   * whether the minimizer's order ends with the whole maximizer's order
   * (sns.go) or with its good cells only (negascout.go).
   */
  class ScoutEngine {
    var bd: array<int>
    var leafNodeCount: int
    var maxDepth: int
    var deterministic: bool
    var scores: seq<int>
    var maxOrder: seq<nat>
    var minOrder: seq<nat>
    const index: LineIndex
    const rule: StaticRule
    const depths: Depths
    const cs: seq<nat>
    const dq: seq<Line>
    const initial: seq<nat>
    const wholeMax: bool

    /** The board has 25 cells, the environment suits the search, and the initial order lists every cell. */
    ghost predicate Valid()
      reads `bd, bd, `maxDepth, `scores, `maxOrder, `minOrder, index`quads, index`triplets
    {
      bd.Length == Cells && ScoutOk(Setting()) &&
      OnBoard(initial) && |initial| <= Cells && forall c :: 0 <= c < Cells ==> c in initial
    }

    /** The environment the specification functions read. */
    ghost function Setting(): ScoutEnv
      reads `maxDepth, `scores, `maxOrder, `minOrder, index`quads, index`triplets
    {
      ScoutEnv(rule, maxDepth, index.quads, index.triplets, cs, dq, scores, maxOrder, minOrder)
    }

    /** The environment once reorderMoves has run on the current board. */
    ghost function Planned(): (e: ScoutEnv)
      requires Valid()
      reads `bd, bd, `maxDepth, `scores, `maxOrder, `minOrder, index`quads, index`triplets
      ensures ScoutOk(e) && forall c :: 0 <= c < Cells && bd[c] == UNSET ==> c in e.maxOrd
    {
      ReorderedOk(Setting(), bd[..], initial, wholeMax);
      Reordered(Setting(), bd[..], initial, wholeMax)
    }

    /**
     * New: the line index built on first use, an empty board and the given
     * depth and flag; the orders start empty, as the global orderedMoves do.
     */
    constructor (deterministic: bool, maxdepth: int, index: LineIndex, rule: StaticRule, depths: Depths, scores: seq<int>,
                 wholeMax: bool)
      requires index.Valid() && |scores| == Cells
      modifies index
      ensures Valid() && fresh(bd) && this.index == index && index.Built() && index.indexedCalcs
      ensures bd[..] == seq(Cells, _ => UNSET) && leafNodeCount == 0
      ensures this.maxDepth == maxdepth && this.deterministic == deterministic
      ensures this.rule == rule && this.depths == depths && this.scores == scores
      ensures cs == Checkable && dq == DeadlyQuads && initial == InitialOrder && this.wholeMax == wholeMax
      ensures maxOrder == [] && minOrder == []
    {
      index.Prepare();
      bd := new int[Cells](_ => UNSET);
      leafNodeCount := 0;
      this.maxDepth := maxdepth;
      this.deterministic := deterministic;
      this.index := index;
      this.rule := rule;
      this.depths := depths;
      this.scores := scores;
      cs, dq, initial := Checkable, DeadlyQuads, InitialOrder;
      this.wholeMax := wholeMax;
      maxOrder, minOrder := [], [];
      BuiltIndexShaped(index.quads, index.triplets);
      CheckableOnBoard();
      DeadlyQuadsShaped();
      InitialOrderOnce();
      PositionsFindCells();
      forall c | 0 <= c < Cells
        ensures c in InitialOrder
      {
        assert InitialOrder[OrderPosition[c]] == c;
      }
    }

    /** MakeMove: writes the mark into cell (x, y). */
    method MakeMove(x: int, y: int, player: int)
      requires Valid() && 0 <= x < 5 && 0 <= y < 5
      modifies bd
      ensures Valid() && bd[..] == old(bd[..])[Idx(x, y) := player]
    {
      bd[Idx(x, y)] := player;
    }

    /** SetDepth: three thresholds on the move counter, checked in turn. */
    method SetDepth(moveCounter: int)
      modifies `maxDepth
      ensures maxDepth == DepthFor(depths, moveCounter)
    {
      if moveCounter < 4 {
        maxDepth := depths.opening;
      }
      if moveCounter > 3 {
        maxDepth := depths.middle;
      }
      if moveCounter > 10 {
        maxDepth := depths.late;
      }
    }

    /** staticValue: one more leaf counted, and the verdict of the file's evaluator on the current board. */
    method StaticValue(ply: int) returns (stop: bool, value: int)
      requires Valid()
      modifies `leafNodeCount
      ensures Verdict(stop, value) == Judgement(Setting(), bd[..], ply)
      ensures leafNodeCount == old(leafNodeCount) + 1
    {
      leafNodeCount := leafNodeCount + 1;
      stop, value := StaticValueOf(bd, rule, ply, maxDepth, index.quads, index.triplets, cs, dq, scores);
    }

    /** reorderMoves: both orders rebuilt from the initial order on the current board. */
    method ReorderMoves()
      requires Valid()
      modifies `maxOrder, `minOrder
      ensures Valid() && Setting() == old(Planned())
      ensures maxOrder == MaxOrder(bd[..], index.quads, index.triplets, initial)
      ensures minOrder == MinOrderOf(wholeMax, bd[..], index.quads, index.triplets, initial)
    {
      ghost var e := Setting();
      ReorderedOk(e, bd[..], initial, wholeMax);
      maxOrder, minOrder := Reorder(bd, index.quads, index.triplets, initial, wholeMax);
    }

    /**
     * negaScout: returns the value NS specifies, counts one leaf per
     * staticValue call in the subtree, and leaves the board as it was.
     */
    method NegaScout(ghost e: ScoutEnv, ply: int, player: int, alpha: int, beta: int) returns (value: int)
      requires Valid() && e == Setting() && (player == MAXIMIZER || player == MINIMIZER)
      modifies bd, `leafNodeCount
      ensures Valid() && e == Setting() && bd[..] == old(bd[..])
      ensures var s := NS(e, old(bd[..]), ply, player, alpha, beta);
        value == s.value && leafNodeCount == old(leafNodeCount) + s.evals
      decreases Empties(bd[..]), 3
    {
      var stop, boardValue := StaticValue(ply);
      if stop {
        return player * boardValue;
      }
      value := Sweep(e, ply, player, alpha, beta);
    }

    /** The loop of negaScout over orderedMoves[player + 1]. */
    method Sweep(ghost e: ScoutEnv, ply: int, player: int, alpha: int, beta: int) returns (value: int)
      requires Valid() && e == Setting() && (player == MAXIMIZER || player == MINIMIZER)
      modifies bd, `leafNodeCount
      ensures Valid() && e == Setting() && bd[..] == old(bd[..])
      ensures var s := Loop(e, old(bd[..]), ply, player, alpha, beta, 0, 3 * LOSS, beta, 0);
        value == s.value && leafNodeCount == old(leafNodeCount) + s.evals
      decreases Empties(bd[..]), 2
    {
      ghost var b0 := bd[..];
      ghost var goal := Loop(e, b0, ply, player, alpha, beta, 0, 3 * LOSS, beta, 0);
      var ord := if player == MAXIMIZER then maxOrder else minOrder;
      var a, score, n := alpha, 3 * LOSS, beta;
      ghost var evals: nat := 0;
      var k := 0;
      while k < |ord|
        invariant 0 <= k <= |ord| && ord == OrderFor(e, player) && bd[..] == b0 && e == Setting() && Valid()
        invariant leafNodeCount == old(leafNodeCount) + evals
        invariant goal == Loop(e, b0, ply, player, a, beta, k, score, n, evals)
        decreases |ord| - k
      {
        var done;
        done, a, score, n, evals := Visit(e, ord, ply, player, a, beta, k, score, n, evals);
        if done {
          return score;
        }
        k := k + 1;
      }
      value := score;
    }

    /** One pass of the loop over the k-th cell of ord: passed over when occupied, probed when empty; done on a cut-off. */
    method Visit(ghost e: ScoutEnv, ord: seq<nat>, ply: int, player: int, a: int, beta: int, k: nat, score: int, n: int,
                 ghost evals: nat)
      returns (done: bool, a': int, score': int, n': int, ghost evals': nat)
      requires Valid() && e == Setting() && (player == MAXIMIZER || player == MINIMIZER)
      requires ord == OrderFor(e, player) && k < |ord|
      modifies bd, `leafNodeCount
      ensures Valid() && e == Setting() && bd[..] == old(bd[..])
      ensures leafNodeCount == old(leafNodeCount) + evals' - evals
      ensures Loop(e, old(bd[..]), ply, player, a, beta, k, score, n, evals) ==
        if done then Scored(score', evals') else Loop(e, old(bd[..]), ply, player, a', beta, k + 1, score', n', evals')
      decreases Empties(bd[..]), 1
    {
      var c := ord[k];
      done, a', score', n', evals' := false, a, score, n, evals;
      if bd[c] == UNSET {
        ghost var p := Probe(e, bd[..], ply, player, a, beta, c, score, n, false);
        score' := ProbeCell(e, ply, player, a, beta, c, score, n, false);
        evals' := evals + p.evals;
        if score' > a {
          a' := score';
        }
        done := a' >= beta;
        n' := a' + 1;
      }
    }

    /**
     * One empty cell c of the loop: the mark goes in, the child is probed and
     * perhaps searched again as Probe says, and the cell is cleared.
     */
    method ProbeCell(ghost e: ScoutEnv, ply: int, player: int, alpha: int, beta: int, c: nat, score: int, n: int, root: bool)
      returns (s: int)
      requires Valid() && e == Setting() && c < Cells && bd[c] == UNSET && (player == MAXIMIZER || player == MINIMIZER)
      modifies bd, `leafNodeCount
      ensures Valid() && e == Setting() && bd[..] == old(bd[..])
      ensures var p := Probe(e, old(bd[..]), ply, player, alpha, beta, c, score, n, root);
        s == p.value && leafNodeCount == old(leafNodeCount) + p.evals
      decreases Empties(bd[..]), 0
    {
      ghost var b0 := bd[..];
      bd[c] := player;
      assert bd[..] == b0[c := player];
      EmptiesFill(b0, c, player);
      s := ProbeChild(e, ply, player, alpha, beta, c, score, n, root, b0);
      bd[c] := UNSET;
      assert bd[..] == b0;
    }

    /** ProbeCell with the mark in place on b0: the probe, and the re-search when Probe calls for one. */
    method ProbeChild(ghost e: ScoutEnv, ply: int, player: int, alpha: int, beta: int, c: nat, score: int, n: int, root: bool,
                      ghost b0: seq<int>)
      returns (s: int)
      requires Valid() && e == Setting() && c < Cells && |b0| == Cells && b0[c] == UNSET && bd[..] == b0[c := player]
      requires player == MAXIMIZER || player == MINIMIZER
      modifies bd, `leafNodeCount
      ensures Valid() && e == Setting() && bd[..] == old(bd[..])
      ensures var p := Probe(e, b0, ply, player, alpha, beta, c, score, n, root);
        s == p.value && leafNodeCount == old(leafNodeCount) + p.evals
      decreases Empties(bd[..]), 4
    {
      var cur := NegaScout(e, ply + 1, -player, -n, -alpha);
      ProbeCases(e, b0, ply, player, alpha, beta, c, score, n, root, NS(e, b0[c := player], ply + 1, -player, -n, -alpha));
      cur := -cur;
      s := score;
      if cur > score {
        if n == beta || (!root && ply == maxDepth - 2) {
          s := cur;
        } else {
          var again := NegaScout(e, ply + 1, -player, -beta, -cur);
          s := -again;
        }
      }
    }

    /**
     * One pass of the root loop over cell c: an occupied cell is skipped;
     * an empty one is probed (re-searching only when n != beta), alpha
     * takes the better score, the keeper is offered (c, alpha), and the
     * loop stops once alpha reaches beta = 2*WIN.
     */
    method RootStep(ghost e: ScoutEnv, moves: MoveKeeper, k: nat, alpha: int, score: int, n: int, ghost evals: nat)
      returns (alpha': int, score': int, n': int, done: bool, ghost evals': nat)
      requires Valid() && e == Setting() && k < |maxOrder|
      requires moves.Valid() && |moves.offered| <= k
      modifies bd, `leafNodeCount, moves, moves.moves
      ensures Valid() && bd[..] == old(bd[..]) && Setting() == e
      ensures moves.Valid() && moves.moves == old(moves.moves) && moves.init == old(moves.init)
      ensures moves.deterministic == old(moves.deterministic) && |moves.offered| <= k + 1
      ensures leafNodeCount == old(leafNodeCount) + evals' - evals
      ensures RootLoop(e, old(bd[..]), k, alpha, score, n, old(moves.offered), evals) ==
        if done then RootRun(moves.offered, evals') else RootLoop(e, old(bd[..]), k + 1, alpha', score', n', moves.offered, evals')
    {
      var c := maxOrder[k];
      alpha', score', n', done, evals' := alpha, score, n, false, evals;
      if bd[c] == UNSET {
        ghost var p := Probe(e, bd[..], 0, MAXIMIZER, alpha, 2 * WIN, c, score, n, true);
        alpha', score' := RootTry(e, moves, c, alpha, score, n);
        evals' := evals + p.evals;
        done := alpha' >= 2 * WIN;
        n' := alpha' + 1;
      }
    }

    /** The empty cell c at the root: probed, alpha raised to its score, and (c, alpha) offered to the keeper. */
    method RootTry(ghost e: ScoutEnv, moves: MoveKeeper, c: nat, alpha: int, score: int, n: int)
      returns (alpha': int, score': int)
      requires Valid() && e == Setting() && c < Cells && bd[c] == UNSET
      requires moves.Valid() && |moves.offered| < Cells
      modifies bd, `leafNodeCount, moves, moves.moves
      ensures Valid() && bd[..] == old(bd[..]) && Setting() == e
      ensures moves.Valid() && moves.moves == old(moves.moves) && moves.init == old(moves.init)
      ensures moves.deterministic == old(moves.deterministic)
      ensures var p := Probe(e, old(bd[..]), 0, MAXIMIZER, alpha, 2 * WIN, c, score, n, true);
        score' == p.value && alpha' == (if p.value > alpha then p.value else alpha) &&
        leafNodeCount == old(leafNodeCount) + p.evals &&
        moves.offered == old(moves.offered) + [Offer(Row(c), Col(c), alpha')]
    {
      score' := ProbeCell(e, 0, MAXIMIZER, alpha, 2 * WIN, c, score, n, true);
      alpha' := alpha;
      if score' > alpha {
        alpha' := score';
      }
      assert |CellsValued(moves.offered, moves.max)| <= |moves.offered| < Cells;
      moves.SetMove(Row(c), Col(c), alpha');
    }

    /**
     * The root loop of ChooseMove (negascout.go) and chooseMove (sns.go)
     * over orderedMoves[2], each tried cell offered to the keeper with the
     * running alpha.
     */
    method RootSweep(moves: MoveKeeper)
      requires Valid() && moves.Valid() && moves.offered == []
      modifies bd, `leafNodeCount, moves, moves.moves
      ensures Valid() && bd[..] == old(bd[..])
      ensures moves.Valid() && moves.moves == old(moves.moves) && moves.init == old(moves.init)
      ensures moves.deterministic == old(moves.deterministic)
      ensures Setting() == old(Setting())
      ensures var r := Root(old(Setting()), old(bd[..])); moves.offered == r.offers && leafNodeCount == old(leafNodeCount) + r.evals
    {
      ghost var b0 := bd[..];
      ghost var e := Setting();
      ghost var goal := Root(e, b0);
      var alpha, score, n := 2 * LOSS, 3 * LOSS, 2 * WIN;
      ghost var evals: nat := 0;
      var k := 0;
      while k < |maxOrder|
        invariant 0 <= k <= |maxOrder| && bd[..] == b0 && e == Setting() && Valid()
        invariant moves.Valid() && moves.moves == old(moves.moves) && moves.init == old(moves.init)
        invariant moves.deterministic == old(moves.deterministic)
        invariant |moves.offered| <= k && leafNodeCount == old(leafNodeCount) + evals
        invariant goal == RootLoop(e, b0, k, alpha, score, n, moves.offered, evals)
        decreases |maxOrder| - k
      {
        var done;
        alpha, score, n, done, evals := RootStep(e, moves, k, alpha, score, n, evals);
        if done {
          return;
        }
        k := k + 1;
      }
    }

    /**
     * chooseMove of sns.go (and the search part of ChooseMove in
     * negascout.go): reorder the moves, run the root loop with a keeper
     * started at 3*LOSS, and return the keeper's choice, (-1, -1, 0) when it
     * kept nothing. The board is as before.
     */
    method Choose(rnd: int) returns (x: int, y: int, value: int)
      requires Valid()
      requires var os := Root(Planned(), bd[..]).offers; var kept := CellsValued(os, Best(3 * LOSS, os));
        !deterministic && kept != [] ==> 0 <= rnd < |kept|
      modifies bd, `leafNodeCount, `maxOrder, `minOrder
      ensures Valid() && bd[..] == old(bd[..]) && Setting() == old(Planned())
      ensures leafNodeCount == old(leafNodeCount) + Root(old(Planned()), old(bd[..])).evals
      ensures var os := Root(old(Planned()), old(bd[..])).offers; var kept := CellsValued(os, Best(3 * LOSS, os));
        (kept == [] ==> x == -1 && y == -1 && value == 0) &&
        (kept != [] ==> value == Best(3 * LOSS, os) && (x, y) == kept[if deterministic then 0 else rnd])
    {
      var moves := new MoveKeeper(3 * LOSS, deterministic);
      ReorderMoves();
      ghost var b0, e := bd[..], Setting();
      RootSweep(moves);
      x, y, value := moves.ChooseMove(rnd);
    }

    /**
     * The search part of ChooseMove in negascout.go, on a board with an
     * empty cell: the leaf counter restarts and the root loop runs as in
     * Choose; the keeper keeps a move, and the one chosen names an empty
     * cell.
     */
    method CountedChoose(rnd: int) returns (x: int, y: int, value: int)
      requires Valid() && exists c :: 0 <= c < Cells && bd[c] == UNSET
      requires var os := Root(Planned(), bd[..]).offers; var kept := CellsValued(os, Best(3 * LOSS, os));
        !deterministic ==> 0 <= rnd < |kept|
      modifies bd, `leafNodeCount, `maxOrder, `minOrder
      ensures Valid() && bd[..] == old(bd[..]) && Setting() == old(Planned())
      ensures leafNodeCount == Root(old(Planned()), old(bd[..])).evals
      ensures RootChosen(old(Planned()), old(bd[..]), if deterministic then 0 else rnd, x, y, value)
    {
      ghost var c :| 0 <= c < Cells && bd[c] == UNSET;
      ghost var e0, b0 := Planned(), bd[..];
      leafNodeCount := 0;
      assert Planned() == e0 && bd[..] == b0;
      x, y, value := Choose(rnd);
      ChoiceMade(e0, b0, c, if deterministic then 0 else rnd, x, y, value);
    }

    /**
     * ChooseMove of negascout.go: the leaf counter restarts, the root loop
     * picks a move and the move is made. The board must have an empty cell:
     * with none the keeper returns (-1, -1) and MakeMove would index outside
     * the board.
     */
    method ChooseMove(rnd: int) returns (x: int, y: int, value: int, leafcount: int)
      requires Valid() && exists c :: 0 <= c < Cells && bd[c] == UNSET
      requires var os := Root(Planned(), bd[..]).offers; var kept := CellsValued(os, Best(3 * LOSS, os));
        !deterministic ==> 0 <= rnd < |kept|
      modifies bd, `leafNodeCount, `maxOrder, `minOrder
      ensures Valid() && Setting() == old(Planned())
      ensures 0 <= x < 5 && 0 <= y < 5 && old(bd[Idx(x, y)]) == UNSET
      ensures bd[..] == old(bd[..])[Idx(x, y) := MAXIMIZER]
      ensures var os := Root(old(Planned()), old(bd[..])).offers; var kept := CellsValued(os, Best(3 * LOSS, os));
        os != [] && value == Best(3 * LOSS, os) == os[|os| - 1].value && (x, y) == kept[if deterministic then 0 else rnd]
      ensures leafcount == leafNodeCount == Root(old(Planned()), old(bd[..])).evals
    {
      x, y, value := CountedChoose(rnd);
      MakeMove(x, y, MAXIMIZER);
      leafcount := leafNodeCount;
    }
  }
}

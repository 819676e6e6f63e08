/**
 * The history-keeping NegaScout engine (sns3.go). Its staticValue judges a
 * win or loss without a ply term and always adds the bias; its negaScout
 * scans the board row by row and returns, with the value, the line of play
 * that produced it: one MoveValue per ply, deepest first, ending with the
 * node's own move and value. The root tries the cells in the fixed opening
 * order and keeps one move in a single-slot keeper.
 *
 * NS3, Scan3 and Probe3 specify the search as functions of the board and of
 * the leaf counter (a leaf's history records the counter); the methods of
 * HistoryEngine are proved to compute them and to restore the board.
 */
module History {
  import opened Lines
  import opened Static
  import opened Keeper
  import opened LineIndexing
  import opened Ordering
  import opened Search
  import opened Evaluate
  import opened Scout
  import opened Referee

  /** One entry of a history: the value, the cell (x, y), the ply, the mover and, at a leaf, the leaf counter. */
  datatype MoveValue = MoveValue(value: int, x: int, y: int, ply: int, player: int, leafnode: int)

  /** staticValue of sns3.go: no ply term in a win or loss, no deadly quads, the bias always added. */
  const Rule3: StaticRule := StaticRule(false, NoDeadly, true)

  /**
   * What the search reads besides the board: the depth limit, the per-cell
   * quad and triplet lists, the cells staticValue scans through (Checkable),
   * the deadly quads (unused by this rule), the bias table and the order
   * in which the root tries the cells (orderedMoves).
   */
  datatype Env3 = Env3(maxDepth: int, qi: seq<seq<Line>>, ti: seq<seq<Line>>, cs: seq<nat>, dq: seq<Line>, bias: seq<int>,
                       order: seq<nat>)

  predicate Ok3(e: Env3)
  {
    IndexShaped(e.qi, e.ti) && OnBoard(e.cs) && Shaped(e.dq, 4) && |e.bias| == Cells && OnBoard(e.order)
  }

  /** staticValue on board b at this ply, scanning through the checkable cells. */
  function Judge3(e: Env3, b: seq<int>, ply: int): Verdict
    requires Ok3(e) && |b| == Cells
  {
    StaticValue(Rule3, b, ply, e.maxDepth, e.qi, e.ti, e.cs, e.dq, e.bias)
  }

  /**
   * With the index main builds: a complete quad stops the search with its
   * owner's WIN and no ply term; otherwise a complete triplet stops it with
   * WIN against its owner; otherwise the value is the three-of-four
   * partials plus the whole bias sum, and the search stops exactly past the
   * depth limit.
   */
  lemma Judge3Meaning(e: Env3, b: seq<int>, ply: int)
    requires ValidBoard(b) && Indexed(e.qi, e.ti) && e.cs == Checkable && e.dq == DeadlyQuads && |e.bias| == Cells
    requires OnBoard(e.order)
    ensures Ok3(e) && LinesOk(Quads) && LinesOk(Triplets) && LinesOk(Gather(e.qi, Checkable, 0))
    ensures var v := Judge3(e, b, ply);
      (AnyComplete(b, Quads) ==> v.stop && SettledBy(b, Quads, v.value, WIN)) &&
      (!AnyComplete(b, Quads) && AnyComplete(b, Triplets) ==> v.stop && SettledBy(b, Triplets, v.value, -WIN)) &&
      (!AnyComplete(b, Quads) && !AnyComplete(b, Triplets) ==>
        (v.stop <==> ply > e.maxDepth) && v.value == Partials(b, Gather(e.qi, Checkable, 0)) + BiasSum(b, e.bias, Cells))
  {
    StaticMeaning(Rule3, b, ply, e.maxDepth, e.qi, e.ti, e.bias);
    NoDeadlyTerm(b, DeadlyQuads);
    assert Judge3(e, b, ply) == StaticValue(Rule3, b, ply, e.maxDepth, e.qi, e.ti, Checkable, DeadlyQuads, e.bias);
    assert WinSize(Rule3, ply) == WIN && Rule3.biasAlways;
  }

  /** A search result: the value, the history, and the leaf counter afterwards. */
  datatype Found = Found(value: int, hist: seq<MoveValue>, count: int)

  /** Where a node's loop ends: the final alpha, the last improving cell, its child's history, the counter. */
  datatype LoopEnd = LoopEnd(alpha: int, x: int, y: int, hist: seq<MoveValue>, count: int)

  /**
   * negaScout(ply, player, alpha, beta) with the leaf counter at count: a
   * stop yields the static value from the mover's side and a one-entry
   * history at (-2, -2) recording the counter; otherwise the loop's alpha,
   * with the node's own entry appended to the kept child's history.
   */
  function NS3(e: Env3, b: seq<int>, ply: int, player: int, alpha: int, beta: int, count: int): Found
    requires Ok3(e) && |b| == Cells && (player == MAXIMIZER || player == MINIMIZER)
    decreases Empties(b), 2
  {
    var v := Judge3(e, b, ply);
    if v.stop then Found(player * v.value, [MoveValue(player * v.value, -2, -2, ply, player, count + 1)], count + 1)
    else
      var s := Scan3(e, b, ply, player, alpha, beta, 0, beta, false, 0, 0, [], count + 1);
      Found(s.alpha, s.hist + [MoveValue(s.alpha, s.x, s.y, ply, player, 0)], s.count)
  }

  /**
   * The loop of negaScout from cell k on, in row-major order: an occupied
   * cell only sets later; an empty one is probed, a better value becomes
   * alpha with its cell and history, the loop ends once alpha >= beta and
   * otherwise goes on with n = alpha + 1.
   */
  function Scan3(e: Env3, b: seq<int>, ply: int, player: int, alpha: int, beta: int,
                 k: nat, n: int, later: bool, x: int, y: int, hist: seq<MoveValue>, count: int): LoopEnd
    requires Ok3(e) && |b| == Cells && (player == MAXIMIZER || player == MINIMIZER)
    decreases Empties(b), 1, Cells - k
  {
    if k >= Cells then LoopEnd(alpha, x, y, hist, count)
    else if b[k] != UNSET then Scan3(e, b, ply, player, alpha, beta, k + 1, n, true, x, y, hist, count)
    else
      var p := Probe3(e, b, ply, player, alpha, beta, k, n, later, count);
      if p.value > alpha then
        if p.value >= beta then LoopEnd(p.value, Row(k), Col(k), p.hist, p.count)
        else Scan3(e, b, ply, player, p.value, beta, k + 1, p.value + 1, true, Row(k), Col(k), p.hist, p.count)
      else if alpha >= beta then LoopEnd(alpha, x, y, hist, p.count)
      else Scan3(e, b, ply, player, alpha, beta, k + 1, alpha + 1, true, x, y, hist, p.count)
  }

  /**
   * The mark goes into the empty cell k and the child is searched with the
   * window (-n, -alpha); when that beats alpha without reaching beta, and
   * an earlier cell was scanned, it is searched again with (-beta, -alpha).
   */
  function Probe3(e: Env3, b: seq<int>, ply: int, player: int, alpha: int, beta: int,
                  k: nat, n: int, later: bool, count: int): Found
    requires Ok3(e) && |b| == Cells && (player == MAXIMIZER || player == MINIMIZER)
    requires k < Cells && b[k] == UNSET
    decreases Empties(b), 0
  {
    var b' := b[k := player];
    EmptiesFill(b, k, player);
    var first := NS3(e, b', ply + 1, -player, -n, -alpha, count);
    var t := -first.value;
    if t > alpha && t < beta && later then
      var second := NS3(e, b', ply + 1, -player, -beta, -alpha, first.count);
      Found(-second.value, second.hist, second.count)
    else Found(t, first.hist, first.count)
  }

  /**
   * h is a line of play from a node at ply for player: its last entry is
   * the node's own (that ply, that player), and what precedes it is a line
   * of play from the child, one ply deeper with the other player to move.
   */
  predicate PathFrom(h: seq<MoveValue>, ply: int, player: int)
    decreases |h|
  {
    h == [] ||
    (h[|h| - 1].ply == ply && h[|h| - 1].player == player && PathFrom(h[..|h| - 1], ply + 1, -player))
  }

  /** The entry j places from the end of a line of play is at ply + j, made by the same player every second ply. */
  lemma {:induction false} PathEntry(h: seq<MoveValue>, ply: int, player: int, j: nat)
    requires PathFrom(h, ply, player) && j < |h|
    ensures h[|h| - 1 - j].ply == ply + j
    ensures h[|h| - 1 - j].player == if j % 2 == 0 then player else -player
  {
    if j > 0 {
      var init := h[..|h| - 1];
      PathEntry(init, ply + 1, -player, j - 1);
      assert init[|init| - 1 - (j - 1)] == h[|h| - 1 - j];
    }
  }

  /** Appending a node's own entry to a line of play from its child gives a line of play from the node. */
  lemma PathExtend(h: seq<MoveValue>, ply: int, player: int, m: MoveValue)
    requires PathFrom(h, ply + 1, -player)
    requires m.ply == ply && m.player == player
    ensures PathFrom(h + [m], ply, player)
  {
    assert (h + [m])[..|h|] == h;
  }

  /** Probe3's two outcomes, given the first search's result. */
  lemma ProbeCases3(e: Env3, b: seq<int>, ply: int, player: int, alpha: int, beta: int,
                    k: nat, n: int, later: bool, count: int, first: Found)
    requires Ok3(e) && |b| == Cells && (player == MAXIMIZER || player == MINIMIZER)
    requires k < Cells && b[k] == UNSET
    requires first == NS3(e, b[k := player], ply + 1, -player, -n, -alpha, count)
    ensures -first.value > alpha && -first.value < beta && later ==>
      var second := NS3(e, b[k := player], ply + 1, -player, -beta, -alpha, first.count);
      Probe3(e, b, ply, player, alpha, beta, k, n, later, count) == Found(-second.value, second.hist, second.count)
    ensures !(-first.value > alpha && -first.value < beta && later) ==>
      Probe3(e, b, ply, player, alpha, beta, k, n, later, count) == Found(-first.value, first.hist, first.count)
  {
  }

  /** Every search calls staticValue at least once: the counter grows. */
  lemma {:induction false} NSCount(e: Env3, b: seq<int>, ply: int, player: int, alpha: int, beta: int, count: int)
    requires Ok3(e) && |b| == Cells && (player == MAXIMIZER || player == MINIMIZER)
    ensures NS3(e, b, ply, player, alpha, beta, count).count > count
    decreases Empties(b), 2
  {
    if !Judge3(e, b, ply).stop {
      ScanCount(e, b, ply, player, alpha, beta, 0, beta, false, 0, 0, [], count + 1);
    }
  }

  /** The loop never lowers alpha or the counter. */
  lemma {:induction false} ScanCount(e: Env3, b: seq<int>, ply: int, player: int, alpha: int, beta: int,
                                     k: nat, n: int, later: bool, x: int, y: int, hist: seq<MoveValue>, count: int)
    requires Ok3(e) && |b| == Cells && (player == MAXIMIZER || player == MINIMIZER)
    ensures var s := Scan3(e, b, ply, player, alpha, beta, k, n, later, x, y, hist, count);
      s.alpha >= alpha && s.count >= count
    decreases Empties(b), 1, Cells - k
  {
    if k < Cells && b[k] == UNSET {
      var p := Probe3(e, b, ply, player, alpha, beta, k, n, later, count);
      ProbeCount(e, b, ply, player, alpha, beta, k, n, later, count);
      if p.value > alpha {
        if p.value < beta {
          ScanCount(e, b, ply, player, p.value, beta, k + 1, p.value + 1, true, Row(k), Col(k), p.hist, p.count);
        }
      } else if alpha < beta {
        ScanCount(e, b, ply, player, alpha, beta, k + 1, alpha + 1, true, x, y, hist, p.count);
      }
    } else if k < Cells {
      ScanCount(e, b, ply, player, alpha, beta, k + 1, n, true, x, y, hist, count);
    }
  }

  /** A probe searches its child once or twice, so the counter grows. */
  lemma {:induction false} ProbeCount(e: Env3, b: seq<int>, ply: int, player: int, alpha: int, beta: int,
                                      k: nat, n: int, later: bool, count: int)
    requires Ok3(e) && |b| == Cells && (player == MAXIMIZER || player == MINIMIZER)
    requires k < Cells && b[k] == UNSET
    ensures Probe3(e, b, ply, player, alpha, beta, k, n, later, count).count > count
    decreases Empties(b), 0
  {
    var b' := b[k := player];
    EmptiesFill(b, k, player);
    var first := NS3(e, b', ply + 1, -player, -n, -alpha, count);
    NSCount(e, b', ply + 1, -player, -n, -alpha, count);
    ProbeCases3(e, b, ply, player, alpha, beta, k, n, later, count, first);
    if -first.value > alpha && -first.value < beta && later {
      NSCount(e, b', ply + 1, -player, -beta, -alpha, first.count);
    }
  }

  /**
   * Every search returns a history that is a line of play from its node,
   * ending with an entry that carries the returned value.
   */
  lemma {:induction false} NSPath(e: Env3, b: seq<int>, ply: int, player: int, alpha: int, beta: int, count: int)
    requires Ok3(e) && |b| == Cells && (player == MAXIMIZER || player == MINIMIZER)
    ensures var r := NS3(e, b, ply, player, alpha, beta, count);
      PathFrom(r.hist, ply, player) && r.hist != [] && r.hist[|r.hist| - 1].value == r.value
    decreases Empties(b), 2
  {
    var v := Judge3(e, b, ply);
    if !v.stop {
      var s := Scan3(e, b, ply, player, alpha, beta, 0, beta, false, 0, 0, [], count + 1);
      ScanPath(e, b, ply, player, alpha, beta, 0, beta, false, 0, 0, [], count + 1);
      PathExtend(s.hist, ply, player, MoveValue(s.alpha, s.x, s.y, ply, player, 0));
    }
  }

  /** The loop keeps either the history it started with or a probed child's: a line of play from a child. */
  lemma {:induction false} ScanPath(e: Env3, b: seq<int>, ply: int, player: int, alpha: int, beta: int,
                                    k: nat, n: int, later: bool, x: int, y: int, hist: seq<MoveValue>, count: int)
    requires Ok3(e) && |b| == Cells && (player == MAXIMIZER || player == MINIMIZER)
    requires PathFrom(hist, ply + 1, -player)
    ensures PathFrom(Scan3(e, b, ply, player, alpha, beta, k, n, later, x, y, hist, count).hist, ply + 1, -player)
    decreases Empties(b), 1, Cells - k
  {
    if k < Cells && b[k] == UNSET {
      var p := Probe3(e, b, ply, player, alpha, beta, k, n, later, count);
      ProbePath(e, b, ply, player, alpha, beta, k, n, later, count);
      if p.value > alpha {
        if p.value < beta {
          ScanPath(e, b, ply, player, p.value, beta, k + 1, p.value + 1, true, Row(k), Col(k), p.hist, p.count);
        }
      } else if alpha < beta {
        ScanPath(e, b, ply, player, alpha, beta, k + 1, alpha + 1, true, x, y, hist, p.count);
      }
    } else if k < Cells {
      ScanPath(e, b, ply, player, alpha, beta, k + 1, n, true, x, y, hist, count);
    }
  }

  /** A probe returns its child's history: a nonempty line of play from the child. */
  lemma {:induction false} ProbePath(e: Env3, b: seq<int>, ply: int, player: int, alpha: int, beta: int,
                                     k: nat, n: int, later: bool, count: int)
    requires Ok3(e) && |b| == Cells && (player == MAXIMIZER || player == MINIMIZER)
    requires k < Cells && b[k] == UNSET
    ensures var p := Probe3(e, b, ply, player, alpha, beta, k, n, later, count);
      PathFrom(p.hist, ply + 1, -player) && p.hist != []
    decreases Empties(b), 0
  {
    var b' := b[k := player];
    EmptiesFill(b, k, player);
    var first := NS3(e, b', ply + 1, -player, -n, -alpha, count);
    ProbeCases3(e, b, ply, player, alpha, beta, k, n, later, count, first);
    if -first.value > alpha && -first.value < beta && later {
      NSPath(e, b', ply + 1, -player, -beta, -alpha, first.count);
    } else {
      NSPath(e, b', ply + 1, -player, -n, -alpha, count);
    }
  }

  /** A node that does not stop returns at least the alpha it was given. */
  lemma InnerValueAtLeastAlpha(e: Env3, b: seq<int>, ply: int, player: int, alpha: int, beta: int, count: int)
    requires Ok3(e) && |b| == Cells && (player == MAXIMIZER || player == MINIMIZER)
    requires !Judge3(e, b, ply).stop
    ensures NS3(e, b, ply, player, alpha, beta, count).value >= alpha
  {
    ScanCount(e, b, ply, player, alpha, beta, 0, beta, false, 0, 0, [], count + 1);
  }

  /** A loop over occupied cells only returns what it holds: no probe, no counted leaf. */
  lemma {:induction false} ScanOverFull(e: Env3, b: seq<int>, ply: int, player: int, alpha: int, beta: int,
                                        k: nat, n: int, later: bool, x: int, y: int, hist: seq<MoveValue>, count: int)
    requires Ok3(e) && |b| == Cells && (player == MAXIMIZER || player == MINIMIZER)
    requires forall c :: k <= c < Cells ==> b[c] != UNSET
    ensures Scan3(e, b, ply, player, alpha, beta, k, n, later, x, y, hist, count) == LoopEnd(alpha, x, y, hist, count)
    decreases Cells - k
  {
    if k < Cells {
      ScanOverFull(e, b, ply, player, alpha, beta, k + 1, n, true, x, y, hist, count);
    }
  }

  /**
   * A full board on which staticValue does not stop (no complete line,
   * ply within the limit) yields alpha with the single entry at (0, 0):
   * the loop never sets x and y.
   */
  lemma FullBoardNode(e: Env3, b: seq<int>, ply: int, player: int, alpha: int, beta: int, count: int)
    requires Ok3(e) && |b| == Cells && (player == MAXIMIZER || player == MINIMIZER)
    requires Empties(b) == 0 && !Judge3(e, b, ply).stop
    ensures NS3(e, b, ply, player, alpha, beta, count) ==
      Found(alpha, [MoveValue(alpha, 0, 0, ply, player, 0)], count + 1)
  {
    forall c | 0 <= c < Cells
      ensures b[c] != UNSET
    {
      EmptiesZero(b, c);
    }
    ScanOverFull(e, b, ply, player, alpha, beta, 0, beta, false, 0, 0, [], count + 1);
  }

  /** The offers of the root loop (one per improvement of alpha), the histories that came with them, and the counter. */
  datatype RootRun3 = RootRun3(offers: seq<Offer>, hists: seq<seq<MoveValue>>, count: int)

  /**
   * The root loop of chooseMove from the k-th cell of the root order: an
   * empty cell is probed as a maximizer's move at ply 0 (later is set only
   * after an empty cell); a value above alpha raises alpha and is offered
   * to the keeper with its history; the loop ends once alpha >= beta = 2*WIN.
   */
  function RootScan3(e: Env3, b: seq<int>, k: nat, alpha: int, n: int, later: bool,
                     os: seq<Offer>, hs: seq<seq<MoveValue>>, count: int): RootRun3
    requires Ok3(e) && |b| == Cells
    decreases |e.order| - k
  {
    if k >= |e.order| then RootRun3(os, hs, count)
    else
      var c := e.order[k];
      if b[c] != UNSET then RootScan3(e, b, k + 1, alpha, n, later, os, hs, count)
      else
        var p := Probe3(e, b, 0, MAXIMIZER, alpha, 2 * WIN, c, n, later, count);
        var up := p.value > alpha;
        var a := if up then p.value else alpha;
        var os' := if up then os + [Offer(Row(c), Col(c), a)] else os;
        var hs' := if up then hs + [p.hist] else hs;
        if a >= 2 * WIN then RootRun3(os', hs', p.count)
        else RootScan3(e, b, k + 1, a, a + 1, true, os', hs', p.count)
  }

  /** The whole root loop: alpha from 2*LOSS, n from beta = 2*WIN, nothing offered yet. */
  function Root3(e: Env3, b: seq<int>, count: int): RootRun3
    requires Ok3(e) && |b| == Cells
  {
    RootScan3(e, b, 0, 2 * LOSS, 2 * WIN, false, [], [], count)
  }

  /** Each root step as a function of the probe's result. */
  lemma RootCases3(e: Env3, b: seq<int>, k: nat, alpha: int, n: int, later: bool,
                   os: seq<Offer>, hs: seq<seq<MoveValue>>, count: int)
    requires Ok3(e) && |b| == Cells && k < |e.order|
    ensures b[e.order[k]] != UNSET ==>
      RootScan3(e, b, k, alpha, n, later, os, hs, count) == RootScan3(e, b, k + 1, alpha, n, later, os, hs, count)
    ensures b[e.order[k]] == UNSET ==>
      var c := e.order[k];
      var p := Probe3(e, b, 0, MAXIMIZER, alpha, 2 * WIN, c, n, later, count);
      var a := if p.value > alpha then p.value else alpha;
      var os' := if p.value > alpha then os + [Offer(Row(c), Col(c), a)] else os;
      var hs' := if p.value > alpha then hs + [p.hist] else hs;
      RootScan3(e, b, k, alpha, n, later, os, hs, count) ==
        if a >= 2 * WIN then RootRun3(os', hs', p.count) else RootScan3(e, b, k + 1, a, a + 1, true, os', hs', p.count)
  {
  }

  /** The root loop offers one history with each offer. */
  lemma {:induction false} RootPaired(e: Env3, b: seq<int>, k: nat, alpha: int, n: int, later: bool,
                                      os: seq<Offer>, hs: seq<seq<MoveValue>>, count: int)
    requires Ok3(e) && |b| == Cells && |hs| == |os|
    ensures var r := RootScan3(e, b, k, alpha, n, later, os, hs, count); |r.hists| == |r.offers|
    decreases |e.order| - k
  {
    if k < |e.order| {
      RootCases3(e, b, k, alpha, n, later, os, hs, count);
      var c := e.order[k];
      if b[c] != UNSET {
        RootPaired(e, b, k + 1, alpha, n, later, os, hs, count);
      } else {
        var p := Probe3(e, b, 0, MAXIMIZER, alpha, 2 * WIN, c, n, later, count);
        if p.value > alpha {
          if p.value < 2 * WIN {
            RootPaired(e, b, k + 1, p.value, p.value + 1, true, os + [Offer(Row(c), Col(c), p.value)], hs + [p.hist], p.count);
          }
        } else if alpha < 2 * WIN {
          RootPaired(e, b, k + 1, alpha, alpha + 1, true, os, hs, p.count);
        }
      }
    }
  }

  /** Every history in hs is a nonempty line of play from the minimizer's reply at ply 1. */
  predicate RepliesFromOne(hs: seq<seq<MoveValue>>)
  {
    forall i :: 0 <= i < |hs| ==> PathFrom(hs[i], 1, MINIMIZER) && hs[i] != []
  }

  /** Every history the root keeps is a nonempty line of play from the minimizer's reply at ply 1. */
  lemma {:induction false} RootHistories(e: Env3, b: seq<int>, k: nat, alpha: int, n: int, later: bool,
                                         os: seq<Offer>, hs: seq<seq<MoveValue>>, count: int)
    requires Ok3(e) && |b| == Cells && RepliesFromOne(hs)
    ensures RepliesFromOne(RootScan3(e, b, k, alpha, n, later, os, hs, count).hists)
    decreases |e.order| - k
  {
    if k < |e.order| {
      RootCases3(e, b, k, alpha, n, later, os, hs, count);
      var c := e.order[k];
      if b[c] != UNSET {
        RootHistories(e, b, k + 1, alpha, n, later, os, hs, count);
      } else {
        var p := Probe3(e, b, 0, MAXIMIZER, alpha, 2 * WIN, c, n, later, count);
        ProbePath(e, b, 0, MAXIMIZER, alpha, 2 * WIN, c, n, later, count);
        if p.value > alpha {
          var hs' := hs + [p.hist];
          assert RepliesFromOne(hs') by {
            forall i | 0 <= i < |hs'| ensures PathFrom(hs'[i], 1, MINIMIZER) && hs'[i] != [] {
              if i == |hs| { assert hs'[i] == p.hist; } else { assert hs'[i] == hs[i]; }
            }
          }
          if p.value < 2 * WIN {
            RootHistories(e, b, k + 1, p.value, p.value + 1, true, os + [Offer(Row(c), Col(c), p.value)], hs', p.count);
          }
        } else if alpha < 2 * WIN {
          RootHistories(e, b, k + 1, alpha, alpha + 1, true, os, hs, p.count);
        }
      }
    }
  }

  /** The root loop only offers empty cells. */
  lemma {:induction false} RootVacated(e: Env3, b: seq<int>, k: nat, alpha: int, n: int, later: bool,
                                       os: seq<Offer>, hs: seq<seq<MoveValue>>, count: int)
    requires Ok3(e) && |b| == Cells && AllVacant(b, os)
    ensures AllVacant(b, RootScan3(e, b, k, alpha, n, later, os, hs, count).offers)
    decreases |e.order| - k
  {
    if k < |e.order| {
      RootCases3(e, b, k, alpha, n, later, os, hs, count);
      var c := e.order[k];
      if b[c] != UNSET {
        RootVacated(e, b, k + 1, alpha, n, later, os, hs, count);
      } else {
        var p := Probe3(e, b, 0, MAXIMIZER, alpha, 2 * WIN, c, n, later, count);
        if p.value > alpha {
          VacantAppend(b, os, c, p.value);
          if p.value < 2 * WIN {
            RootVacated(e, b, k + 1, p.value, p.value + 1, true, os + [Offer(Row(c), Col(c), p.value)], hs + [p.hist], p.count);
          }
        } else if alpha < 2 * WIN {
          RootVacated(e, b, k + 1, alpha, alpha + 1, true, os, hs, p.count);
        }
      }
    }
  }

  /** An offer at or above the last one and above lo keeps the offers rising and above lo. */
  lemma RiseAppend(os: seq<Offer>, o: Offer, lo: int)
    requires Rising(os) && Floor(os, lo) && o.value >= lo
    requires os != [] ==> os[|os| - 1].value <= o.value
    ensures Rising(os + [o]) && Floor(os + [o], lo)
  {
    assert forall i :: 0 <= i < |os| ==> (os + [o])[i] == os[i];
  }

  /**
   * The root offers the running alpha each time it rises, so the offers
   * rise, all lie above the starting alpha 2*LOSS, and the last one is alpha.
   */
  lemma {:induction false} RootRises3(e: Env3, b: seq<int>, k: nat, alpha: int, n: int, later: bool,
                                      os: seq<Offer>, hs: seq<seq<MoveValue>>, count: int)
    requires Ok3(e) && |b| == Cells && Rising(os) && Floor(os, 2 * LOSS + 1)
    requires os != [] ==> os[|os| - 1].value == alpha
    requires os == [] ==> alpha == 2 * LOSS
    ensures var os' := RootScan3(e, b, k, alpha, n, later, os, hs, count).offers;
      Rising(os') && Floor(os', 2 * LOSS + 1)
    decreases |e.order| - k
  {
    if k < |e.order| {
      RootCases3(e, b, k, alpha, n, later, os, hs, count);
      var c := e.order[k];
      if b[c] != UNSET {
        RootRises3(e, b, k + 1, alpha, n, later, os, hs, count);
      } else {
        var p := Probe3(e, b, 0, MAXIMIZER, alpha, 2 * WIN, c, n, later, count);
        var up := p.value > alpha;
        var a := if up then p.value else alpha;
        var os' := if up then os + [Offer(Row(c), Col(c), a)] else os;
        if up {
          RiseAppend(os, Offer(Row(c), Col(c), a), 2 * LOSS + 1);
        }
        if a < 2 * WIN {
          RootRises3(e, b, k + 1, a, a + 1, true, os', if up then hs + [p.hist] else hs, p.count);
        }
      }
    }
  }

  /** On a board with no empty cell the root loop offers nothing and counts nothing. */
  lemma {:induction false} RootOverFull(e: Env3, b: seq<int>, k: nat, alpha: int, n: int, later: bool,
                                        os: seq<Offer>, hs: seq<seq<MoveValue>>, count: int)
    requires Ok3(e) && |b| == Cells && Empties(b) == 0
    ensures RootScan3(e, b, k, alpha, n, later, os, hs, count) == RootRun3(os, hs, count)
    decreases |e.order| - k
  {
    if k < |e.order| {
      EmptiesZero(b, e.order[k]);
      RootOverFull(e, b, k + 1, alpha, n, later, os, hs, count);
    }
  }

  /** What chooseMove returns: the cell, its value, and the history ending with the root's own entry. */
  datatype Choice = Choice(x: int, y: int, value: int, hist: seq<MoveValue>)

  /**
   * The move chooseMove reports when the keeper's slot starts at (sx, sy)
   * with max 3*LOSS and no history: the last offer when there is one (the
   * offers rise and setMove overwrites on value >= max), the untouched
   * slot otherwise; the root's entry (that cell, that value, ply 0, the
   * maximizer) is appended to the kept history.
   */
  function Chosen(e: Env3, b: seq<int>, count: int, sx: int, sy: int): (c: Choice)
    requires Ok3(e) && |b| == Cells
    ensures c.hist != [] && c.hist[|c.hist| - 1] == MoveValue(c.value, c.x, c.y, 0, MAXIMIZER, 0)
  {
    RootPaired(e, b, 0, 2 * LOSS, 2 * WIN, false, [], [], count);
    var r := Root3(e, b, count);
    if r.offers == [] then Choice(sx, sy, 3 * LOSS, [MoveValue(3 * LOSS, sx, sy, 0, MAXIMIZER, 0)])
    else
      var o := r.offers[|r.offers| - 1];
      Choice(o.x, o.y, o.value, r.hists[|r.hists| - 1] + [MoveValue(o.value, o.x, o.y, 0, MAXIMIZER, 0)])
  }

  /**
   * When the root offered anything, the chosen cell is an empty cell of the
   * board, its value is the best offered value and lies above 2*LOSS, and
   * the history is a line of play from the root; the slot's start is never
   * reported.
   */
  lemma ChosenOffered(e: Env3, b: seq<int>, count: int, sx: int, sy: int)
    requires Ok3(e) && |b| == Cells && Root3(e, b, count).offers != []
    ensures var c := Chosen(e, b, count, sx, sy); var os := Root3(e, b, count).offers;
      0 <= c.x < 5 && 0 <= c.y < 5 && b[Idx(c.x, c.y)] == UNSET &&
      c.value == Best(3 * LOSS, os) && c.value > 2 * LOSS &&
      PathFrom(c.hist, 0, MAXIMIZER)
  {
    var os := Root3(e, b, count).offers;
    RootVacated(e, b, 0, 2 * LOSS, 2 * WIN, false, [], [], count);
    RootRises3(e, b, 0, 2 * LOSS, 2 * WIN, false, [], [], count);
    RisingBest(3 * LOSS, os);
    assert Vacant(b, os[|os| - 1]);
    RootHistories(e, b, 0, 2 * LOSS, 2 * WIN, false, [], [], count);
    RootPaired(e, b, 0, 2 * LOSS, 2 * WIN, false, [], [], count);
    var hs := Root3(e, b, count).hists;
    PathExtend(hs[|hs| - 1], 0, MAXIMIZER, MoveValue(os[|os| - 1].value, os[|os| - 1].x, os[|os| - 1].y, 0, MAXIMIZER, 0));
  }

  /**
   * As written (the slot starts at (0, 0)): on a full board the root offers
   * nothing and chooseMove reports (0, 0), an occupied cell; the caller's
   * "a < 0 means no move" test never fires and it writes the maximizer's
   * mark over that cell.
   */
  lemma FullBoardChoosesOccupied(e: Env3, b: seq<int>, count: int)
    requires Ok3(e) && |b| == Cells && Empties(b) == 0
    ensures var c := Chosen(e, b, count, 0, 0); c.x == 0 && c.y == 0 && b[Idx(c.x, c.y)] != UNSET
  {
    RootOverFull(e, b, 0, 2 * LOSS, 2 * WIN, false, [], [], count);
    EmptiesZero(b, 0);
  }

  /** No line of ls is complete on b. */
  predicate OpenOn(b: seq<int>, ls: seq<Line>)
    requires |b| == Cells
  {
    forall i :: 0 <= i < |ls| ==> WellFormed(ls[i], |ls[i]|) && !Complete(b, ls[i])
  }

  lemma OpenOnAppend(b: seq<int>, x: seq<Line>, y: seq<Line>)
    requires |b| == Cells && OpenOn(b, x) && OpenOn(b, y)
    ensures OpenOn(b, x + y)
  {
    forall i | 0 <= i < |x + y|
      ensures WellFormed((x + y)[i], |(x + y)[i]|) && !Complete(b, (x + y)[i])
    {
      if i >= |x| {
        assert (x + y)[i] == y[i - |x|];
      }
    }
  }

  /**
   * A full board with thirteen O and twelve X and no complete quad or
   * triplet: the position after O's thirteenth move in a game O opened.
   */
  const Drawn: seq<int> := [-1, 1, 1, -1, -1, 1, -1, -1, 1, 1, -1, 1, 1, -1, -1, 1, -1, -1, 1, 1, -1, 1, 1, -1, -1]

  lemma DrawnOpenOnQuadsA()
    ensures OpenOn(Drawn, QuadsA)
  {
    forall i | 0 <= i < |QuadsA|
      ensures WellFormed(QuadsA[i], |QuadsA[i]|) && !Complete(Drawn, QuadsA[i])
    {
    }
  }

  lemma DrawnOpenOnQuadsB()
    ensures OpenOn(Drawn, QuadsB)
  {
    forall i | 0 <= i < |QuadsB|
      ensures WellFormed(QuadsB[i], |QuadsB[i]|) && !Complete(Drawn, QuadsB[i])
    {
    }
  }

  lemma DrawnOpenOnTripletsA()
    ensures OpenOn(Drawn, TripletsA)
  {
    forall i | 0 <= i < |TripletsA|
      ensures WellFormed(TripletsA[i], |TripletsA[i]|) && !Complete(Drawn, TripletsA[i])
    {
    }
  }

  lemma DrawnOpenOnTripletsB()
    ensures OpenOn(Drawn, TripletsB)
  {
    forall i | 0 <= i < |TripletsB|
      ensures WellFormed(TripletsB[i], |TripletsB[i]|) && !Complete(Drawn, TripletsB[i])
    {
    }
  }

  lemma DrawnOpenOnTripletsC()
    ensures OpenOn(Drawn, TripletsC)
  {
    forall i | 0 <= i < |TripletsC|
      ensures WellFormed(TripletsC[i], |TripletsC[i]|) && !Complete(Drawn, TripletsC[i])
    {
    }
  }

  /** The drawn board is full and holds only marks. */
  lemma DrawnIsFull()
    ensures ValidBoard(Drawn) && Empties(Drawn) == 0
  {
    forall c | 0 <= c < Cells
      ensures Drawn[c] == MAXIMIZER || Drawn[c] == MINIMIZER
    {
      assert c < 5 || c < 10 || c < 15 || c < 20 || c < 25;
    }
    AllMarkedNoEmpties(Drawn);
  }

  /** A board without an empty cell has no empties to count. */
  lemma {:induction false} AllMarkedNoEmpties(b: seq<int>)
    requires forall c :: 0 <= c < |b| ==> b[c] != UNSET
    ensures Empties(b) == 0
    decreases |b|
  {
    if b != [] {
      AllMarkedNoEmpties(b[1..]);
    }
  }

  /** A board on which no line of ls is complete has none complete in the sense of the referee. */
  lemma OpenOnMeans(b: seq<int>, ls: seq<Line>)
    requires |b| == Cells && LinesOk(ls) && OpenOn(b, ls)
    ensures !AnyComplete(b, ls)
  {
  }

  /** The drawn board has no complete quad or triplet. */
  lemma DrawnIsOpen()
    ensures LinesOk(Quads) && LinesOk(Triplets)
    ensures !AnyComplete(Drawn, Quads) && !AnyComplete(Drawn, Triplets)
  {
    CatalogueOk();
    DrawnOpenOnQuadsA();
    DrawnOpenOnQuadsB();
    OpenOnAppend(Drawn, QuadsA, QuadsB);
    OpenOnMeans(Drawn, Quads);
    DrawnOpenOnTripletsA();
    DrawnOpenOnTripletsB();
    DrawnOpenOnTripletsC();
    OpenOnAppend(Drawn, TripletsA, TripletsB);
    OpenOnAppend(Drawn, TripletsA + TripletsB, TripletsC);
    OpenOnMeans(Drawn, Triplets);
  }

  /**
   * The game reaches that full board: staticValue at ply 0 does not end
   * it, so main calls chooseMove, which as written reports (0, 0), a cell
   * O holds.
   */
  lemma DrawnBoardChoosesOccupied(e: Env3, count: int)
    requires Indexed(e.qi, e.ti) && e.cs == Checkable && e.dq == DeadlyQuads && |e.bias| == Cells
    requires OnBoard(e.order) && e.maxDepth >= 0
    ensures Ok3(e) && !Judge3(e, Drawn, 0).stop
    ensures var c := Chosen(e, Drawn, count, 0, 0); (c.x, c.y) == (0, 0) && Drawn[Idx(c.x, c.y)] == MINIMIZER
  {
    DrawnIsFull();
    DrawnIsOpen();
    Judge3Meaning(e, Drawn, 0);
    FullBoardChoosesOccupied(e, Drawn, count);
  }

  /** With the slot started at (-1, -1), a full board reports no cell, and the caller's test ends the game. */
  lemma FullBoardChoosesNone(e: Env3, b: seq<int>, count: int)
    requires Ok3(e) && |b| == Cells && Empties(b) == 0
    ensures var c := Chosen(e, b, count, -1, -1); c.x < 0 && c.y < 0 && c.value == 3 * LOSS
  {
    RootOverFull(e, b, 0, 2 * LOSS, 2 * WIN, false, [], [], count);
  }

  /**
   * The engine of sns3.go: the board, the leaf counter and the depth limit
   * are its globals, the bias table and the line index are set up once by
   * main, and the root order is orderedMoves.
   */
  class HistoryEngine {
    var bd: array<int>
    var leafNodeCount: int
    var maxDepth: int
    const scores: seq<int>
    const index: LineIndex
    const cs: seq<nat>
    const dq: seq<Line>
    const order: seq<nat>

    /** The board has 25 cells and the environment suits the search. */
    ghost predicate Valid()
      reads `bd, `maxDepth, index`quads, index`triplets
    {
      bd.Length == Cells && Ok3(Setting())
    }

    /** The environment the specification functions read. */
    ghost function Setting(): Env3
      reads `maxDepth, index`quads, index`triplets
    {
      Env3(maxDepth, index.quads, index.triplets, cs, dq, scores, order)
    }

    /**
     * main's set-up: the per-cell index lists are built from the catalogue,
     * the board starts empty, the depth limit at 10 and the bias table is
     * the one given (setScores).
     */
    constructor (scores: seq<int>)
      requires |scores| == Cells
      ensures Valid() && fresh(bd) && fresh(index) && index.Built()
      ensures bd[..] == seq(Cells, _ => UNSET) && leafNodeCount == 0 && maxDepth == 10
      ensures this.scores == scores && cs == Checkable && order == InitialOrder
    {
      var ix := new LineIndex();
      ghost var t0, q0 := ix.triplets, ix.quads;
      ix.CalculateIndexedMatrices();
      forall c | 0 <= c < Cells
        ensures ix.triplets[c] == Through(Triplets, c) && ix.quads[c] == Through(Quads, c)
      {
        assert t0[c] == [] && q0[c] == [];
      }
      bd := new int[Cells](_ => UNSET);
      leafNodeCount := 0;
      maxDepth := 10;
      this.scores := scores;
      index := ix;
      cs, dq, order := Checkable, DeadlyQuads, InitialOrder;
      BuiltIndexShaped(ix.quads, ix.triplets);
      CheckableOnBoard();
      DeadlyQuadsShaped();
      InitialOrderOnce();
    }

    /** The caller's move: the mark goes into cell (x, y). */
    method MakeMove(x: int, y: int, player: int)
      requires Valid() && 0 <= x < 5 && 0 <= y < 5
      modifies bd
      ensures Valid() && bd[..] == old(bd[..])[Idx(x, y) := player]
    {
      bd[Idx(x, y)] := player;
    }

    /** setDepth: 6 for the first four moves, 8 after three, the given end-game depth after ten. */
    method SetDepth(moveCounter: int, endGameDepth: int)
      modifies `maxDepth
      ensures maxDepth == DepthFor(Depths(6, 8, endGameDepth), moveCounter)
    {
      if moveCounter < 4 {
        maxDepth := 6;
      }
      if moveCounter > 3 {
        maxDepth := 8;
      }
      if moveCounter > 10 {
        maxDepth := endGameDepth;
      }
    }

    /** staticValue: one more leaf counted, and the verdict Judge3 gives on the current board. */
    method StaticValue(ply: int) returns (stop: bool, value: int)
      requires Valid()
      modifies `leafNodeCount
      ensures Verdict(stop, value) == Judge3(Setting(), bd[..], ply)
      ensures leafNodeCount == old(leafNodeCount) + 1
    {
      leafNodeCount := leafNodeCount + 1;
      stop, value := StaticValueOf(bd, Rule3, ply, maxDepth, index.quads, index.triplets, cs, dq, scores);
    }

    /**
     * negaScout: returns the value and history NS3 specifies, advances the
     * leaf counter as NS3 says, and leaves the board as it was.
     */
    method NegaScout(ghost e: Env3, ply: int, player: int, alpha: int, beta: int) returns (val: int, hist: seq<MoveValue>)
      requires Valid() && e == Setting() && (player == MAXIMIZER || player == MINIMIZER)
      modifies bd, `leafNodeCount
      ensures Valid() && e == Setting() && bd[..] == old(bd[..])
      ensures Found(val, hist, leafNodeCount) == NS3(e, old(bd[..]), ply, player, alpha, beta, old(leafNodeCount))
      decreases Empties(bd[..]), 2
    {
      var stop, boardValue := StaticValue(ply);
      if stop {
        var m := MoveValue(player * boardValue, -2, -2, ply, player, leafNodeCount);
        return m.value, [m];
      }
      var a, x, y, h := Sweep(e, ply, player, alpha, beta);
      hist := h + [MoveValue(a, x, y, ply, player, 0)];
      val := a;
    }

    /** The loop of negaScout over the board in row-major order, ending as Scan3 says. */
    method Sweep(ghost e: Env3, ply: int, player: int, alpha: int, beta: int)
      returns (a: int, x: int, y: int, hist: seq<MoveValue>)
      requires Valid() && e == Setting() && (player == MAXIMIZER || player == MINIMIZER)
      modifies bd, `leafNodeCount
      ensures Valid() && e == Setting() && bd[..] == old(bd[..])
      ensures LoopEnd(a, x, y, hist, leafNodeCount) ==
        Scan3(e, old(bd[..]), ply, player, alpha, beta, 0, beta, false, 0, 0, [], old(leafNodeCount))
      decreases Empties(bd[..]), 1
    {
      ghost var b0 := bd[..];
      ghost var goal := Scan3(e, b0, ply, player, alpha, beta, 0, beta, false, 0, 0, [], leafNodeCount);
      a, x, y, hist := alpha, 0, 0, [];
      var n, later := beta, false;
      var k := 0;
      while k < Cells
        invariant 0 <= k <= Cells && bd[..] == b0 && e == Setting() && Valid()
        invariant goal == Scan3(e, b0, ply, player, a, beta, k, n, later, x, y, hist, leafNodeCount)
        decreases Cells - k
      {
        if bd[k] == UNSET {
          var t, h := Probe(e, ply, player, a, beta, k, n, later);
          if t > a {
            x, y, hist, a := Row(k), Col(k), h, t;
          }
          if a >= beta {
            return;
          }
          n := a + 1;
        }
        later := true;
        k := k + 1;
      }
    }

    /**
     * One empty cell k of the loop: the mark goes in, the child is searched
     * and perhaps searched again as Probe3 says, and the cell is cleared.
     */
    method Probe(ghost e: Env3, ply: int, player: int, alpha: int, beta: int, k: nat, n: int, later: bool)
      returns (t: int, h: seq<MoveValue>)
      requires Valid() && e == Setting() && k < Cells && bd[k] == UNSET && (player == MAXIMIZER || player == MINIMIZER)
      modifies bd, `leafNodeCount
      ensures Valid() && e == Setting() && bd[..] == old(bd[..])
      ensures Found(t, h, leafNodeCount) == Probe3(e, old(bd[..]), ply, player, alpha, beta, k, n, later, old(leafNodeCount))
      decreases Empties(bd[..]), 0
    {
      ghost var b0, count := bd[..], leafNodeCount;
      bd[k] := player;
      assert bd[..] == b0[k := player];
      EmptiesFill(b0, k, player);
      t, h := NegaScout(e, ply + 1, -player, -n, -alpha);
      ProbeCases3(e, b0, ply, player, alpha, beta, k, n, later, count, Found(t, h, leafNodeCount));
      t := -t;
      if t > alpha && t < beta && later {
        t, h := NegaScout(e, ply + 1, -player, -beta, -alpha);
        t := -t;
      }
      bd[k] := UNSET;
      assert bd[..] == b0;
    }

    /**
     * chooseMove's work on an empty cell c: it is searched as a maximizer's
     * move (again when the first search lands inside the window and an
     * earlier empty cell was tried), and a better value raises alpha and
     * goes to the keeper with its history.
     */
    method RootTry(ghost e: Env3, moves: SlotKeeper<seq<MoveValue>>, c: nat, alpha: int, n: int, later: bool)
      returns (alpha': int)
      requires Valid() && e == Setting() && c < Cells && bd[c] == UNSET && moves.Valid()
      modifies bd, `leafNodeCount, moves
      ensures Valid() && bd[..] == old(bd[..]) && Setting() == e
      ensures moves.Valid() && moves.init == old(moves.init)
      ensures moves.start == old(moves.start) && moves.startHist == old(moves.startHist)
      ensures var p := Probe3(e, old(bd[..]), 0, MAXIMIZER, alpha, 2 * WIN, c, n, later, old(leafNodeCount));
        leafNodeCount == p.count && alpha' == (if p.value > alpha then p.value else alpha) &&
        moves.offered == (if p.value > alpha then old(moves.offered) + [Offer(Row(c), Col(c), p.value)] else old(moves.offered)) &&
        moves.hists == (if p.value > alpha then old(moves.hists) + [p.hist] else old(moves.hists))
    {
      var val, hist := Probe(e, 0, MAXIMIZER, alpha, 2 * WIN, c, n, later);
      alpha' := alpha;
      if val > alpha {
        alpha' := val;
        moves.SetMove(Row(c), Col(c), alpha', hist);
      }
    }

    /**
     * One pass of chooseMove's loop over the k-th cell of orderedMoves: an
     * occupied cell is passed over; an empty one is tried, and the loop
     * stops once alpha reaches beta = 2*WIN.
     */
    method RootStep(ghost e: Env3, moves: SlotKeeper<seq<MoveValue>>, k: nat, alpha: int, n: int, later: bool)
      returns (alpha': int, n': int, later': bool, done: bool)
      requires Valid() && e == Setting() && k < |order| && moves.Valid()
      modifies bd, `leafNodeCount, moves
      ensures Valid() && bd[..] == old(bd[..]) && Setting() == e
      ensures moves.Valid() && moves.init == old(moves.init)
      ensures moves.start == old(moves.start) && moves.startHist == old(moves.startHist)
      ensures RootScan3(e, old(bd[..]), k, alpha, n, later, old(moves.offered), old(moves.hists), old(leafNodeCount)) ==
        if done then RootRun3(moves.offered, moves.hists, leafNodeCount)
        else RootScan3(e, old(bd[..]), k + 1, alpha', n', later', moves.offered, moves.hists, leafNodeCount)
    {
      ghost var b0, os, hs, count := bd[..], moves.offered, moves.hists, leafNodeCount;
      RootCases3(e, b0, k, alpha, n, later, os, hs, count);
      var c := order[k];
      alpha', n', later', done := alpha, n, later, false;
      if bd[c] == UNSET {
        ghost var p := Probe3(e, b0, 0, MAXIMIZER, alpha, 2 * WIN, c, n, later, count);
        alpha' := RootTry(e, moves, c, alpha, n, later);
        done := alpha' >= 2 * WIN;
        n', later' := alpha' + 1, true;
      }
    }

    /** The loop of chooseMove over orderedMoves, every improvement offered to the keeper. */
    method RootSweep(moves: SlotKeeper<seq<MoveValue>>)
      requires Valid() && moves.Valid() && moves.offered == [] && moves.hists == []
      modifies bd, `leafNodeCount, moves
      ensures Valid() && bd[..] == old(bd[..]) && Setting() == old(Setting())
      ensures moves.Valid() && moves.init == old(moves.init)
      ensures moves.start == old(moves.start) && moves.startHist == old(moves.startHist)
      ensures var r := Root3(old(Setting()), old(bd[..]), old(leafNodeCount));
        moves.offered == r.offers && moves.hists == r.hists && leafNodeCount == r.count
    {
      ghost var b0, e := bd[..], Setting();
      ghost var goal := Root3(e, b0, leafNodeCount);
      var alpha, n, later := 2 * LOSS, 2 * WIN, false;
      var k := 0;
      while k < |order|
        invariant 0 <= k <= |order| && bd[..] == b0 && e == Setting() && Valid()
        invariant moves.Valid() && moves.init == old(moves.init)
        invariant moves.start == old(moves.start) && moves.startHist == old(moves.startHist)
        invariant goal == RootScan3(e, b0, k, alpha, n, later, moves.offered, moves.hists, leafNodeCount)
        decreases |order| - k
      {
        var done;
        alpha, n, later, done := RootStep(e, moves, k, alpha, n, later);
        if done {
          return;
        }
        k := k + 1;
      }
    }

    /**
     * chooseMove, with the keeper's slot started at (-1, -1): the root loop
     * runs with a keeper at 3*LOSS and the keeper's slot is reported with
     * the root's own entry appended to its history, as Chosen says; the
     * board is as before. A cell is reported exactly when the root offered
     * one, and it is then an empty cell.
     */
    method ChooseMove() returns (x: int, y: int, value: int, hist: seq<MoveValue>)
      requires Valid()
      modifies bd, `leafNodeCount
      ensures Valid() && bd[..] == old(bd[..]) && Setting() == old(Setting())
      ensures Choice(x, y, value, hist) == Chosen(old(Setting()), old(bd[..]), old(leafNodeCount), -1, -1)
      ensures leafNodeCount == Root3(old(Setting()), old(bd[..]), old(leafNodeCount)).count
    {
      ghost var e, b0, count := Setting(), bd[..], leafNodeCount;
      var moves := new SlotKeeper<seq<MoveValue>>(-1, -1, 3 * LOSS, []);
      RootSweep(moves);
      var h;
      x, y, value, h := moves.ChooseMove();
      ghost var os := Root3(e, b0, count).offers;
      RootPaired(e, b0, 0, 2 * LOSS, 2 * WIN, false, [], [], count);
      if os != [] {
        RootRises3(e, b0, 0, 2 * LOSS, 2 * WIN, false, [], [], count);
        RisingBest(3 * LOSS, os);
        assert LastValued(os, value) == |os| - 1;
      }
      hist := h + [MoveValue(value, x, y, 0, MAXIMIZER, 0)];
    }
  }
}

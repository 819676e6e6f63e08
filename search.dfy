/**
 * The alpha-beta searches of the minimax engines. The board is changed in
 * place: each empty cell, in row-major order, gets the mover's mark, the
 * search descends, and the cell is cleared again on every way out.
 *
 * Two shapes occur. In the "after" shape (the AlphaBeta, AlphaBetaGeo and
 * AlphaBetaBook engines, squavathr.go, probe.go) a node judges the previous
 * move (x, y) inside its loop, after placing its own candidate, and returns
 * that verdict at once when it says stop. In the "entry" shape (squava.go,
 * playoff2.go, playoff4.go) a node judges the previous move once on entry.
 *
 * Node and Scan specify the search as functions of the board; the methods
 * of Engine are proved to compute them and to restore the board.
 */
module Search {
  import opened Lines
  import opened Evaluate
  import opened LineIndexing
  import opened Keeper

  /**
   * The two shapes. deltaOnly: the child gets delta alone rather than
   * boardValue + delta; accumulate: a stop returns boardValue + delta.
   */
  datatype Family = After(deltaOnly: bool) | Entry(accumulate: bool)

  /** Which returns bump the engine's leaf counter: none, stop returns, or cut-off returns. */
  datatype Tally = NoTally | AtStop | AtCutoff

  /**
   * A file's search variant: its evaluator, its shape, what it counts, and
   * whether a stop at the root is counted too (squava.go).
   */
  datatype SearchRule = SearchRule(delta: DeltaRule, family: Family, tally: Tally, rootStopCounts: bool)

  /**
   * What the search reads besides the board: the depth limit, the per-cell
   * quad and triplet lists, and the bias tables for even and odd plies
   * (the same table for both, except in playoff4.go).
   */
  datatype Env = Env(maxDepth: int, qi: seq<seq<Line>>, ti: seq<seq<Line>>, biasEven: seq<int>, biasOdd: seq<int>)

  predicate EnvOk(e: Env)
  {
    |e.qi| == Cells && |e.ti| == Cells && |e.biasEven| == Cells && |e.biasOdd| == Cells &&
    forall c :: 0 <= c < Cells ==> Shaped(e.qi[c], 4) && Shaped(e.ti[c], 3)
  }

  /** The bias table for a ply; Go's ply%2 == 0 holds for exactly the plies where Dafny's does. */
  function BiasFor(e: Env, ply: int): seq<int>
  {
    if ply % 2 == 0 then e.biasEven else e.biasOdd
  }

  /** deltaValue for the move in cell c on board b. */
  function Eval(r: SearchRule, e: Env, b: seq<int>, ply: int, c: nat, bv: int): Verdict
    requires EnvOk(e) && |b| == Cells && c < Cells
  {
    Delta(r.delta, b, c, ply, e.maxDepth, bv, e.qi[c], e.ti[c], BiasFor(e, ply))
  }

  /**
   * A search result: the value, the leaf count squavathr.go and probe.go
   * return (stop and cut-off returns in the subtree), and what the
   * engine's own leaf counter gains.
   */
  datatype Outcome = Outcome(value: int, leaves: nat, counted: nat)

  function StopTick(r: SearchRule): nat { if r.tally.AtStop? then 1 else 0 }
  function CutTick(r: SearchRule): nat { if r.tally.AtCutoff? then 1 else 0 }

  /** The value a node starts from: 2*LOSS for the maximizer, 2*WIN for the minimizer. */
  function Opening(player: int): int
  {
    if player == MAXIMIZER then 2 * LOSS else 2 * WIN
  }

  /**
   * alphaBeta(ply, player, alpha, beta, x, y, boardValue), with c the
   * cell (x, y) of the previous move.
   */
  function Node(r: SearchRule, e: Env, b: seq<int>, ply: int, player: int, alpha: int, beta: int, c: nat, bv: int): Outcome
    requires EnvOk(e) && |b| == Cells && c < Cells
    decreases Empties(b), 1
  {
    match r.family
    case After(_) => Scan(r, e, b, ply, player, alpha, beta, c, bv, 0, Opening(player), 0, 0)
    case Entry(accumulate) =>
      var v := Eval(r, e, b, ply, c, bv);
      if v.stop then Outcome(if accumulate then bv + v.value else v.value, 1, StopTick(r))
      else Scan(r, e, b, ply, player, alpha, beta, c, bv + v.value, 0, Opening(player), 0, 0)
  }

  /**
   * The loop of a node from cell k on, with the window, the best value so
   * far and the counts so far. A player other than the two falls through
   * the switch and yields 0.
   */
  function Scan(r: SearchRule, e: Env, b: seq<int>, ply: int, player: int, alpha: int, beta: int, c: nat, bv: int,
                k: nat, value: int, leaves: nat, counted: nat): Outcome
    requires EnvOk(e) && |b| == Cells && c < Cells
    decreases Empties(b), 0, Cells - k, 2
  {
    if player != MAXIMIZER && player != MINIMIZER then Outcome(0, leaves, counted)
    else if k >= Cells then Outcome(value, leaves, counted)
    else if b[k] != UNSET then Scan(r, e, b, ply, player, alpha, beta, c, bv, k + 1, value, leaves, counted)
    else Place(r, e, b, ply, player, alpha, beta, c, bv, k, value, leaves, counted)
  }

  /** The in-loop judgement of the "after" shape; the "entry" shape never stops inside the loop. */
  function Judged(r: SearchRule, e: Env, b: seq<int>, ply: int, c: nat, bv: int): Verdict
    requires EnvOk(e) && |b| == Cells && c < Cells
  {
    if r.family.After? then Eval(r, e, b, ply, c, bv) else Verdict(false, 0)
  }

  /** The boardValue a child gets: unchanged in the "entry" shape; delta alone or added in the "after" shape. */
  function ChildValue(f: Family, bv: int, delta: int): int
  {
    if f.Entry? then bv else if f.deltaOnly then delta else bv + delta
  }

  /**
   * The mover's mark goes into the empty cell k; the "after" shape judges
   * the previous move on that board and a stop ends the node; otherwise
   * the child node is searched.
   */
  function Place(r: SearchRule, e: Env, b: seq<int>, ply: int, player: int, alpha: int, beta: int, c: nat, bv: int,
                 k: nat, value: int, leaves: nat, counted: nat): Outcome
    requires EnvOk(e) && |b| == Cells && c < Cells && k < Cells && b[k] == UNSET
    requires player == MAXIMIZER || player == MINIMIZER
    decreases Empties(b), 0, Cells - k, 1
  {
    var b' := b[k := player];
    EmptiesFill(b, k, player);
    var v := Judged(r, e, b', ply, c, bv);
    if v.stop then Outcome(v.value, leaves + 1, counted + StopTick(r))
    else
      Step(r, e, b, ply, player, alpha, beta, c, bv, k, value, leaves, counted,
           Node(r, e, b', ply + 1, -player, alpha, beta, k, ChildValue(r.family, bv, v.value)))
  }

  /**
   * The child's result is folded in: the best value, then the window; a
   * closed window is a cut-off, otherwise the loop goes on at k + 1.
   */
  function Step(r: SearchRule, e: Env, b: seq<int>, ply: int, player: int, alpha: int, beta: int, c: nat, bv: int,
                k: nat, value: int, leaves: nat, counted: nat, child: Outcome): Outcome
    requires EnvOk(e) && |b| == Cells && c < Cells && k < Cells
    decreases Empties(b), 0, Cells - k, 0
  {
    var lv, ct := leaves + child.leaves, counted + child.counted;
    if player == MAXIMIZER then
      var best := if child.value > value then child.value else value;
      var a := if best > alpha then best else alpha;
      if beta <= a then Outcome(best, lv + 1, ct + CutTick(r))
      else Scan(r, e, b, ply, player, a, beta, c, bv, k + 1, best, lv, ct)
    else
      var best := if child.value < value then child.value else value;
      var bb := if best < beta then best else beta;
      if bb <= alpha then Outcome(best, lv + 1, ct + CutTick(r))
      else Scan(r, e, b, ply, player, alpha, bb, c, bv, k + 1, best, lv, ct)
  }

  /** Step's two cases spelled out, for the loop that computes it. */
  lemma StepCases(r: SearchRule, e: Env, b: seq<int>, ply: int, player: int, alpha: int, beta: int, c: nat, bv: int,
                  k: nat, value: int, leaves: nat, counted: nat, child: Outcome)
    requires EnvOk(e) && |b| == Cells && c < Cells && k < Cells
    ensures player == MAXIMIZER ==>
      var best := if child.value > value then child.value else value;
      var a := if best > alpha then best else alpha;
      Step(r, e, b, ply, player, alpha, beta, c, bv, k, value, leaves, counted, child) ==
        if beta <= a then Outcome(best, leaves + child.leaves + 1, counted + child.counted + CutTick(r))
        else Scan(r, e, b, ply, player, a, beta, c, bv, k + 1, best, leaves + child.leaves, counted + child.counted)
    ensures player != MAXIMIZER ==>
      var best := if child.value < value then child.value else value;
      var bb := if best < beta then best else beta;
      Step(r, e, b, ply, player, alpha, beta, c, bv, k, value, leaves, counted, child) ==
        if bb <= alpha then Outcome(best, leaves + child.leaves + 1, counted + child.counted + CutTick(r))
        else Scan(r, e, b, ply, player, alpha, bb, c, bv, k + 1, best, leaves + child.leaves, counted + child.counted)
  {
  }

  /** The per-cell lists of a built index have the shapes the evaluator needs. */
  lemma BuiltIndexShaped(qi: seq<seq<Line>>, ti: seq<seq<Line>>)
    requires |qi| == Cells && |ti| == Cells
    requires forall c :: 0 <= c < Cells ==> qi[c] == Through(Quads, c) && ti[c] == Through(Triplets, c)
    ensures forall c :: 0 <= c < Cells ==> Shaped(qi[c], 4) && Shaped(ti[c], 3)
  {
    forall c | 0 <= c < Cells
      ensures Shaped(qi[c], 4) && Shaped(ti[c], 3)
    {
      IndexedLinesWellFormed(c);
    }
  }

  /**
   * The value of the root move into the empty cell k: the maximizer's mark
   * goes in and is judged at ply 0 with no carried value; unless that
   * stops, the minimizer's reply is searched at ply 1 with the full window
   * (2*LOSS, 2*WIN), carrying the judgement's value.
   */
  function RootOutcome(r: SearchRule, e: Env, b: seq<int>, k: nat): Outcome
    requires EnvOk(e) && |b| == Cells && k < Cells && b[k] == UNSET
  {
    var b' := b[k := MAXIMIZER];
    var v := Eval(r, e, b', 0, k, 0);
    if v.stop then Outcome(v.value, 1, if r.rootStopCounts then 1 else 0)
    else Node(r, e, b', 1, MINIMIZER, 2 * LOSS, 2 * WIN, k, v.value)
  }

  /** The offers the root loop makes for the cells below k: every empty one, in row-major order, with its value. */
  function RootOffers(r: SearchRule, e: Env, b: seq<int>, k: nat): (os: seq<Offer>)
    requires EnvOk(e) && |b| == Cells && k <= Cells
    ensures |os| <= k
  {
    if k == 0 then []
    else
      RootOffers(r, e, b, k - 1) +
        (if b[k - 1] == UNSET then [Offer(Row(k - 1), Col(k - 1), RootOutcome(r, e, b, k - 1).value)] else [])
  }

  /** What the root loop adds to the leaf counter for the cells below k. */
  function RootCounted(r: SearchRule, e: Env, b: seq<int>, k: nat): nat
    requires EnvOk(e) && |b| == Cells && k <= Cells
  {
    if k == 0 then 0
    else RootCounted(r, e, b, k - 1) + (if b[k - 1] == UNSET then RootOutcome(r, e, b, k - 1).counted else 0)
  }

  /** One more cell of the root loop: an offer and its count when the cell is empty, nothing otherwise. */
  lemma RootStep(r: SearchRule, e: Env, b: seq<int>, k: nat)
    requires EnvOk(e) && |b| == Cells && k < Cells
    ensures b[k] == UNSET ==>
      RootOffers(r, e, b, k + 1) == RootOffers(r, e, b, k) + [Offer(k / 5, k % 5, RootOutcome(r, e, b, k).value)] &&
      RootCounted(r, e, b, k + 1) == RootCounted(r, e, b, k) + RootOutcome(r, e, b, k).counted
    ensures b[k] != UNSET ==>
      RootOffers(r, e, b, k + 1) == RootOffers(r, e, b, k) && RootCounted(r, e, b, k + 1) == RootCounted(r, e, b, k)
  {
  }

  /** Every root offer names an empty cell of the board. */
  lemma {:induction false} RootOffersEmpty(r: SearchRule, e: Env, b: seq<int>, k: nat, i: nat)
    requires EnvOk(e) && |b| == Cells && k <= Cells && i < |RootOffers(r, e, b, k)|
    ensures var o := RootOffers(r, e, b, k)[i]; 0 <= o.x < 5 && 0 <= o.y < 5 && b[Idx(o.x, o.y)] == UNSET
  {
    var init := RootOffers(r, e, b, k - 1);
    if i < |init| {
      RootOffersEmpty(r, e, b, k - 1, i);
    } else {
      IdxRowCol(k - 1);
    }
  }

  /** The root makes one offer per empty cell. */
  lemma {:induction false} RootOffersCount(r: SearchRule, e: Env, b: seq<int>, k: nat)
    requires EnvOk(e) && |b| == Cells && k <= Cells
    ensures |RootOffers(r, e, b, k)| == Empties(b) - Empties(b[k..])
  {
    if k > 0 {
      RootOffersCount(r, e, b, k - 1);
      assert b[k - 1..][1..] == b[k..];
    }
  }

  /** The depth limits a file's SetDepth picks from: before move 4, up to move 10, and after. */
  datatype Depths = Depths(opening: int, middle: int, late: int)

  /** The depth SetDepth picks for a move counter. */
  function DepthFor(d: Depths, moveCounter: int): int
  {
    if moveCounter > 10 then d.late else if moveCounter > 3 then d.middle else d.opening
  }

  /** With growing limits the search never gets shallower as the game goes on. */
  lemma DepthGrows(d: Depths, m1: int, m2: int)
    requires d.opening <= d.middle <= d.late && m1 <= m2
    ensures DepthFor(d, m1) <= DepthFor(d, m2)
  {
  }

  /**
   * The state of one minimax engine: its board, leaf counter, depth limit,
   * bias tables, move counter and the shared line index, with the file's
   * search variant and depth limits.
   */
  class Engine {
    var bd: array<int>
    var leafNodeCount: int
    var maxDepth: int
    var deterministic: bool
    var scoresEven: seq<int>
    var scoresOdd: seq<int>
    var moveCount: int
    const index: LineIndex
    const rule: SearchRule
    const depths: Depths
    const countsMoves: bool

    /** The board is 25 cells of marks, and the per-cell lists and bias tables have the evaluator's shapes. */
    ghost predicate Valid()
      reads `bd, bd, `maxDepth, `scoresEven, `scoresOdd, index`quads, index`triplets
    {
      bd.Length == Cells && ValidBoard(bd[..]) && EnvOk(Setting())
    }

    /** The environment the specification functions read. */
    ghost function Setting(): Env
      reads `maxDepth, `scoresEven, `scoresOdd, index`quads, index`triplets
    {
      Env(maxDepth, index.quads, index.triplets, scoresEven, scoresOdd)
    }

    /**
     * New: an empty board, the line index built on first use, the given
     * depth and flag, and one bias table for both parities.
     */
    constructor (deterministic: bool, maxdepth: int, index: LineIndex, rule: SearchRule, depths: Depths,
                 countsMoves: bool, scores: seq<int>)
      requires index.Valid() && |scores| == Cells
      modifies index
      ensures Valid() && fresh(bd) && this.index == index && index.Built() && index.indexedCalcs
      ensures bd[..] == seq(Cells, _ => UNSET) && leafNodeCount == 0 && moveCount == 0
      ensures this.maxDepth == maxdepth && this.deterministic == deterministic
      ensures this.rule == rule && this.depths == depths && this.countsMoves == countsMoves
      ensures scoresEven == scores && scoresOdd == scores
    {
      index.Prepare();
      bd := new int[Cells](_ => UNSET);
      leafNodeCount, moveCount := 0, 0;
      this.maxDepth := maxdepth;
      this.deterministic := deterministic;
      this.index := index;
      this.rule := rule;
      this.depths := depths;
      this.countsMoves := countsMoves;
      scoresEven, scoresOdd := scores, scores;
      BuiltIndexShaped(index.quads, index.triplets);
    }

    /** MakeMove: writes the mark into cell (x, y); AlphaBetaBook also counts the move. */
    method MakeMove(x: int, y: int, player: int)
      requires Valid() && 0 <= x < 5 && 0 <= y < 5 && (player == MAXIMIZER || player == MINIMIZER)
      modifies bd, `moveCount
      ensures Valid() && bd[..] == old(bd[..])[Idx(x, y) := player]
      ensures moveCount == old(moveCount) + (if countsMoves then 1 else 0)
    {
      if countsMoves {
        moveCount := moveCount + 1;
      }
      bd[Idx(x, y)] := player;
    }

    /** SetDepth: three thresholds on the move counter, checked in turn. */
    method SetDepth(moveCounter: int)
      modifies `maxDepth
      ensures maxDepth == DepthFor(depths, moveCounter)
    {
      if moveCounter < 4 {
        maxDepth := depths.opening;
      }
      if moveCounter > 3 {
        maxDepth := depths.middle;
      }
      if moveCounter > 10 {
        maxDepth := depths.late;
      }
    }

    /** The evaluator call on the current board, with the bias table for the ply. */
    method Judge(ply: int, c: nat, current: int) returns (stop: bool, value: int)
      requires Valid() && c < Cells
      ensures Verdict(stop, value) == Eval(rule, Setting(), bd[..], ply, c, current)
    {
      var bias := if ply % 2 == 0 then scoresEven else scoresOdd;
      stop, value := DeltaValue(bd, rule.delta, ply, c, maxDepth, current, index.quads[c], index.triplets[c], bias);
    }

    /**
     * alphaBeta: returns the value Node specifies and the leaf count
     * squavathr.go and probe.go return; the engine's leaf counter grows as
     * the file counts; the board is as before.
     */
    method AlphaBeta(ply: int, player: int, alpha: int, beta: int, c: nat, boardValue: int) returns (value: int, leaves: int)
      requires Valid() && c < Cells
      modifies bd, `leafNodeCount
      ensures Valid() && bd[..] == old(bd[..])
      ensures var o := Node(rule, Setting(), old(bd[..]), ply, player, alpha, beta, c, boardValue);
        value == o.value && leaves == o.leaves && leafNodeCount == old(leafNodeCount) + o.counted
      decreases Empties(bd[..]), 3
    {
      var bv := boardValue;
      if rule.family.Entry? {
        var stop, delta := Judge(ply, c, bv);
        if stop {
          leafNodeCount := leafNodeCount + StopTick(rule);
          if rule.family.accumulate {
            return bv + delta, 1;
          }
          return delta, 1;
        }
        bv := bv + delta;
      }
      value, leaves := Sweep(ply, player, alpha, beta, c, bv);
    }

    /**
     * The loop of alphaBeta over the board in row-major order, for the
     * player's case of the switch; a player other than the two yields 0.
     */
    method Sweep(ply: int, player: int, alpha: int, beta: int, c: nat, bv: int) returns (value: int, leaves: int)
      requires Valid() && c < Cells
      modifies bd, `leafNodeCount
      ensures Valid() && bd[..] == old(bd[..])
      ensures var o := Scan(rule, Setting(), old(bd[..]), ply, player, alpha, beta, c, bv, 0, Opening(player), 0, 0);
        value == o.value && leaves == o.leaves && leafNodeCount == old(leafNodeCount) + o.counted
      decreases Empties(bd[..]), 2
    {
      ghost var b0 := bd[..];
      ghost var e := Setting();
      ghost var goal := Scan(rule, e, b0, ply, player, alpha, beta, c, bv, 0, Opening(player), 0, 0);
      if player != MAXIMIZER && player != MINIMIZER {
        return 0, 0;
      }
      value := Opening(player);
      var a, b := alpha, beta;
      leaves := 0;
      ghost var counted: nat := 0;
      var k := 0;
      while k < Cells
        invariant 0 <= k <= Cells && bd[..] == b0 && e == Setting() && Valid()
        invariant leaves >= 0 && leafNodeCount == old(leafNodeCount) + counted
        invariant goal == Scan(rule, e, b0, ply, player, a, b, c, bv, k, value, leaves, counted)
      {
        var done;
        done, value, a, b, leaves, counted := Visit(ply, player, a, b, c, bv, k, value, leaves, counted, e, b0, goal);
        if done {
          return;
        }
        k := k + 1;
      }
    }

    /**
     * The loop's body at cell k: an occupied cell is passed over; an empty
     * one is tried and, unless that ends the node, its child's result is
     * folded into the best value and the window, a closed window being a
     * cut-off. done says the node has its result.
     */
    method Visit(ply: int, player: int, a: int, b: int, c: nat, bv: int, k: nat, value: int, leaves: int,
                 ghost counted: nat, ghost e: Env, ghost b0: seq<int>, ghost goal: Outcome)
      returns (done: bool, value': int, a': int, b': int, leaves': int, ghost counted': nat)
      requires Valid() && bd[..] == b0 && e == Setting() && c < Cells && k < Cells && leaves >= 0
      requires player == MAXIMIZER || player == MINIMIZER
      requires goal == Scan(rule, e, b0, ply, player, a, b, c, bv, k, value, leaves, counted)
      modifies bd, `leafNodeCount
      ensures Valid() && bd[..] == b0 && e == Setting() && leaves' >= 0
      ensures done ==> value' == goal.value && leaves' == goal.leaves && leafNodeCount - old(leafNodeCount) == goal.counted - counted
      ensures !done ==>
        goal == Scan(rule, e, b0, ply, player, a', b', c, bv, k + 1, value', leaves', counted') &&
        leafNodeCount - old(leafNodeCount) == counted' - counted
      decreases Empties(bd[..]), 1
    {
      done, value', a', b', leaves', counted' := false, value, a, b, leaves, counted;
      if bd[k] == UNSET {
        assert goal == Place(rule, e, b0, ply, player, a, b, c, bv, k, value, leaves, counted);
        ghost var child;
        var stop, n, l;
        stop, n, l, child := TryCell(ply, player, a, b, c, bv, k);
        if stop {
          return true, n, a, b, leaves + l, counted;
        }
        assert goal == Step(rule, e, b0, ply, player, a, b, c, bv, k, value, leaves, counted, child);
        StepCases(rule, e, b0, ply, player, a, b, c, bv, k, value, leaves, counted, child);
        var cut;
        value', a', b', cut := Fold(player, n, value, a, b);
        leaves', counted' := leaves + l, counted + child.counted;
        if cut {
          leafNodeCount := leafNodeCount + CutTick(rule);
          return true, value', a', b', leaves' + 1, counted';
        }
      }
    }

    /**
     * The child's value n folded into the loop's state: the maximizer keeps
     * the larger value and raises alpha, the minimizer keeps the smaller and
     * lowers beta; cut when the window has closed.
     */
    static method Fold(player: int, n: int, value: int, alpha: int, beta: int) returns (value': int, alpha': int, beta': int, cut: bool)
      ensures player == MAXIMIZER ==>
        value' == (if n > value then n else value) && alpha' == (if value' > alpha then value' else alpha) && beta' == beta
      ensures player != MAXIMIZER ==>
        value' == (if n < value then n else value) && beta' == (if value' < beta then value' else beta) && alpha' == alpha
      ensures cut <==> beta' <= alpha'
    {
      value', alpha', beta' := value, alpha, beta;
      if player == MAXIMIZER {
        if n > value' {
          value' := n;
        }
        if value' > alpha' {
          alpha' := value';
        }
      } else {
        if n < value' {
          value' := n;
        }
        if value' < beta' {
          beta' := value';
        }
      }
      cut := beta' <= alpha';
    }

    /**
     * One empty cell k of alphaBeta's loop: the mover's mark goes in, the
     * "after" shape judges the previous move c and may stop, otherwise the
     * child is searched; the cell is cleared again on both ways out.
     */
    method TryCell(ply: int, player: int, alpha: int, beta: int, c: nat, bv: int, k: nat)
      returns (stop: bool, n: int, l: int, ghost child: Outcome)
      requires Valid() && c < Cells && k < Cells && bd[k] == UNSET
      requires player == MAXIMIZER || player == MINIMIZER
      modifies bd, `leafNodeCount
      ensures Valid() && bd[..] == old(bd[..])
      ensures var v := Judged(rule, Setting(), old(bd[..])[k := player], ply, c, bv);
        stop == v.stop && (stop ==> n == v.value && l == 1 && leafNodeCount == old(leafNodeCount) + StopTick(rule))
      ensures !stop ==>
        child == Node(rule, Setting(), old(bd[..])[k := player], ply + 1, -player, alpha, beta, k,
                      ChildValue(rule.family, bv, Judged(rule, Setting(), old(bd[..])[k := player], ply, c, bv).value))
      ensures !stop ==> n == child.value && l == child.leaves && leafNodeCount == old(leafNodeCount) + child.counted
      decreases Empties(bd[..]), 0
    {
      ghost var b0 := bd[..];
      bd[k] := player;
      assert bd[..] == b0[k := player];
      EmptiesFill(b0, k, player);
      stop, n, l, child := Descend(ply, player, alpha, beta, c, bv, k);
      bd[k] := UNSET;
      assert bd[..] == b0;
    }

    /**
     * TryCell with the mark in place: the "after" shape judges the previous
     * move c and may stop; otherwise the child at k is searched. The board
     * is as before on both ways out.
     */
    method Descend(ply: int, player: int, alpha: int, beta: int, c: nat, bv: int, k: nat)
      returns (stop: bool, n: int, l: int, ghost child: Outcome)
      requires Valid() && c < Cells && k < Cells
      modifies bd, `leafNodeCount
      ensures Valid() && bd[..] == old(bd[..])
      ensures var v := Judged(rule, Setting(), bd[..], ply, c, bv);
        stop == v.stop && (stop ==> n == v.value && l == 1 && leafNodeCount == old(leafNodeCount) + StopTick(rule))
      ensures !stop ==>
        child == Node(rule, Setting(), bd[..], ply + 1, -player, alpha, beta, k,
                      ChildValue(rule.family, bv, Judged(rule, Setting(), bd[..], ply, c, bv).value))
      ensures !stop ==> n == child.value && l == child.leaves && leafNodeCount == old(leafNodeCount) + child.counted
      decreases Empties(bd[..]), 4
    {
      var cbv := bv;
      stop := false;
      if rule.family.After? {
        var delta;
        stop, delta := Judge(ply, c, bv);
        if stop {
          leafNodeCount := leafNodeCount + StopTick(rule);
          return true, delta, 1, Outcome(0, 0, 0);
        }
        cbv := ChildValue(rule.family, bv, delta);
      }
      child := Node(rule, Setting(), bd[..], ply + 1, -player, alpha, beta, k, cbv);
      n, l := AlphaBeta(ply + 1, -player, alpha, beta, k, cbv);
    }

    /**
     * One root move of chooseMove: the maximizer's mark goes into the empty
     * cell k, is judged at ply 0 and, unless that stops, the minimizer's
     * reply is searched; the cell is cleared again.
     */
    method RootCell(k: nat) returns (v: int)
      requires Valid() && k < Cells && bd[k] == UNSET
      modifies bd, `leafNodeCount
      ensures Valid() && bd[..] == old(bd[..])
      ensures var o := RootOutcome(rule, Setting(), old(bd[..]), k);
        v == o.value && leafNodeCount == old(leafNodeCount) + o.counted
    {
      ghost var b0 := bd[..];
      bd[k] := MAXIMIZER;
      assert bd[..] == b0[k := MAXIMIZER];
      var stop;
      stop, v := Judge(0, k, 0);
      if !stop {
        var leaves;
        v, leaves := AlphaBeta(1, MINIMIZER, 2 * LOSS, 2 * WIN, k, v);
      } else if rule.rootStopCounts {
        leafNodeCount := leafNodeCount + 1;
      }
      bd[k] := UNSET;
      assert bd[..] == b0;
    }

    /** The loop of chooseMove over the board: each empty cell's RootCell value is offered to the keeper, in row-major order. */
    method RootSweep(moves: MoveKeeper)
      requires Valid() && moves.Valid() && moves.offered == []
      modifies bd, `leafNodeCount, moves, moves.moves
      ensures Valid() && bd[..] == old(bd[..])
      ensures moves.Valid() && moves.moves == old(moves.moves) && moves.init == old(moves.init)
      ensures moves.deterministic == old(moves.deterministic)
      ensures moves.offered == RootOffers(rule, Setting(), bd[..], Cells)
      ensures leafNodeCount == old(leafNodeCount) + RootCounted(rule, Setting(), bd[..], Cells)
    {
      ghost var b0 := bd[..];
      ghost var e := Setting();
      var k := 0;
      while k < Cells
        invariant 0 <= k <= Cells && bd[..] == b0 && e == Setting() && Valid()
        invariant moves.Valid() && moves.moves == old(moves.moves) && moves.init == old(moves.init)
        invariant moves.deterministic == old(moves.deterministic)
        invariant moves.offered == RootOffers(rule, e, b0, k)
        invariant leafNodeCount == old(leafNodeCount) + RootCounted(rule, e, b0, k)
      {
        RootVisit(moves, k, e, b0);
        k := k + 1;
      }
    }

    /** The root loop's body at cell k: an empty cell's RootCell value is offered to the keeper, an occupied cell passed over. */
    method RootVisit(moves: MoveKeeper, k: nat, ghost e: Env, ghost b0: seq<int>)
      requires Valid() && bd[..] == b0 && e == Setting() && k < Cells
      requires moves.Valid() && moves.offered == RootOffers(rule, e, b0, k)
      modifies bd, `leafNodeCount, moves, moves.moves
      ensures Valid() && bd[..] == b0 && e == Setting()
      ensures moves.Valid() && moves.moves == old(moves.moves) && moves.init == old(moves.init)
      ensures moves.deterministic == old(moves.deterministic)
      ensures moves.offered == RootOffers(rule, e, b0, k + 1)
      ensures leafNodeCount - old(leafNodeCount) == RootCounted(rule, e, b0, k + 1) - RootCounted(rule, e, b0, k)
    {
      RootStep(rule, e, b0, k);
      if bd[k] == UNSET {
        var v := RootCell(k);
        assert |CellsValued(moves.offered, moves.max)| <= |moves.offered| <= k;
        moves.SetMove(k / 5, k % 5, v);
      }
    }

    /**
     * The root loop of chooseMove: every empty cell, in row-major order,
     * gets the maximizer's mark, is valued as RootOutcome says and offered
     * to a fresh keeper started at 2*LOSS; the board is as before, and the
     * keeper's choice is returned ((-1, -1, 0) when it kept nothing).
     */
    method Choose(rnd: int) returns (x: int, y: int, value: int)
      requires Valid()
      requires var os := RootOffers(rule, Setting(), bd[..], Cells); var kept := CellsValued(os, Best(2 * LOSS, os));
        !deterministic && kept != [] ==> 0 <= rnd < |kept|
      modifies bd, `leafNodeCount
      ensures Valid() && bd[..] == old(bd[..])
      ensures leafNodeCount == old(leafNodeCount) + RootCounted(rule, Setting(), bd[..], Cells)
      ensures var os := RootOffers(rule, Setting(), bd[..], Cells); var kept := CellsValued(os, Best(2 * LOSS, os));
        (kept == [] ==> x == -1 && y == -1 && value == 0) &&
        (kept != [] ==> value == Best(2 * LOSS, os) && (x, y) == kept[if deterministic then 0 else rnd]) &&
        (kept != [] ==> 0 <= x < 5 && 0 <= y < 5 && bd[Idx(x, y)] == UNSET)
    {
      ghost var b0 := bd[..];
      ghost var e := Setting();
      var moves := new MoveKeeper(2 * LOSS, deterministic);
      RootSweep(moves);
      assert moves.offered == RootOffers(rule, e, b0, Cells);
      x, y, value := moves.ChooseMove(rnd);
      if moves.next > 0 {
        ghost var i :| 0 <= i < |moves.offered| && moves.offered[i] == Offer(x, y, value);
        RootOffersEmpty(rule, e, b0, Cells, i);
      }
    }

    /**
     * ChooseMove of the AlphaBeta, AlphaBetaGeo and AlphaBetaBook engines:
     * the leaf counter restarts, the root loop picks a move, and the move
     * is made. The keeper must have kept a move: with none, MakeMove(-1, -1)
     * would index outside the board.
     */
    method ChooseMove(rnd: int) returns (x: int, y: int, value: int, leafcount: int)
      requires Valid()
      requires var os := RootOffers(rule, Setting(), bd[..], Cells); var kept := CellsValued(os, Best(2 * LOSS, os));
        kept != [] && (!deterministic ==> 0 <= rnd < |kept|)
      modifies bd, `leafNodeCount, `moveCount
      ensures Valid() && 0 <= x < 5 && 0 <= y < 5 && old(bd[Idx(x, y)]) == UNSET
      ensures bd[..] == old(bd[..])[Idx(x, y) := MAXIMIZER]
      ensures var os := RootOffers(rule, Setting(), old(bd[..]), Cells); var kept := CellsValued(os, Best(2 * LOSS, os));
        value == Best(2 * LOSS, os) && (x, y) == kept[if deterministic then 0 else rnd]
      ensures leafcount == leafNodeCount == RootCounted(rule, Setting(), old(bd[..]), Cells)
      ensures moveCount == old(moveCount) + (if countsMoves then 1 else 0)
    {
      leafNodeCount := 0;
      x, y, value := Choose(rnd);
      MakeMove(x, y, MAXIMIZER);
      leafcount := leafNodeCount;
    }
  }
}

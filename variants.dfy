/**
 * The copies of the search differ in a handful of constants: the loss
 * formula, the avoid penalties, the cut-off test, whether the carried value
 * is added at the cut-off, the shape of the search and what it counts, and
 * the three depth limits of SetDepth. Each engine is the generic Engine (or
 * ScoutEngine) with its own file's constants, fixed here.
 */
module Variants {
  import opened Lines
  import opened Evaluate
  import opened Static
  import opened LineIndexing
  import opened Search
  import opened Scout

  /** src/alphabeta/alphabeta.go: sum/3*(LOSS+ply), ply >= maxDepth with the carried value, counted at stops. */
  const AlphaBetaRule := SearchRule(DeltaRule(LossPlusPly, false, false, true), After(false), AtStop, false)
  const AlphaBetaDepths := Depths(6, 8, 10)

  /** src/abgeo/alphabetavoid.go: as AlphaBeta with the avoid penalties, and a child gets delta alone. */
  const AlphaBetaGeoRule := SearchRule(DeltaRule(LossPlusPly, true, false, true), After(true), AtStop, false)
  const AlphaBetaGeoDepths := Depths(8, 10, 12)

  /** src/abbook/abbook.go: as AlphaBeta, but deltaValue takes no carried value. */
  const AlphaBetaBookRule := SearchRule(DeltaRule(LossPlusPly, false, false, false), After(false), AtStop, false)
  const AlphaBetaBookDepths := Depths(6, 8, 10)

  /** squavathr.go and probe.go: -sum/3*(WIN-ply), the avoid penalties, ply == maxDepth with the carried value; leaf counts are returned, not kept. */
  const ReturnedCountRule := SearchRule(DeltaRule(NegatedWinMinusPly, true, true, true), After(false), NoTally, false)
  const ThreadedDepths := Depths(6, 8, 10)

  /** squava.go: judged on entry, ply == maxDepth with the carried value, a stop returns delta alone, cut-offs counted and root stops too. */
  const SquavaRule := SearchRule(DeltaRule(NegatedWinMinusPly, false, true, true), Entry(false), AtCutoff, true)
  const SquavaDepths := Depths(8, 10, 12)

  /** playoff2.go and playoff4.go: judged on entry, ply >= maxDepth, no carried value, a stop returns boardValue + delta, nothing counted. */
  const PlayoffRule := SearchRule(DeltaRule(NegatedWinMinusPly, false, false, false), Entry(true), NoTally, false)

  /** src/negascout/negascout.go: ply-adjusted values, the deadly term inner/2*5 subtracted, bias only on a zero total. */
  const NegaScoutRule := StaticRule(true, HalfDeadly, false)
  const NegaScoutDepths := Depths(6, 8, 10)

  /** sns.go: as NegaScout with the deadly term -inner*5; its late depth is the caller's end-game depth. */
  const SnsRule := StaticRule(true, FullDeadly, false)

  /** The rule with the other cut-off test: ply == maxDepth for ply >= maxDepth and back. */
  function OtherCutoff(r: SearchRule): (o: SearchRule)
    ensures o.delta.stopExact != r.delta.stopExact && o.family == r.family && o.tally == r.tally
  {
    r.(delta := r.delta.(stopExact := !r.delta.stopExact))
  }

  /** Below or at the cut-off ply the two cut-off tests give the same verdict. */
  lemma EvalCutoffForms(r: SearchRule, e: Env, b: seq<int>, ply: int, c: nat, bv: int)
    requires EnvOk(e) && |b| == Cells && c < Cells && ply <= e.maxDepth
    ensures Eval(OtherCutoff(r), e, b, ply, c, bv) == Eval(r, e, b, ply, c, bv)
    ensures !Eval(r, e, b, ply, c, bv).stop ==> ply < e.maxDepth
  {
  }

  /**
   * A search entered at or above the cut-off ply gives the same value and
   * counts whichever cut-off test the file writes: every node it reaches
   * lies at or above the cut-off ply, where the tests agree.
   */
  lemma {:induction false} NodeCutoffForms(r: SearchRule, e: Env, b: seq<int>, ply: int, player: int, alpha: int, beta: int,
                                           c: nat, bv: int)
    requires EnvOk(e) && |b| == Cells && c < Cells && ply <= e.maxDepth
    ensures Node(OtherCutoff(r), e, b, ply, player, alpha, beta, c, bv) == Node(r, e, b, ply, player, alpha, beta, c, bv)
    decreases Empties(b), 1
  {
    match r.family
    case After(_) =>
      ScanCutoffForms(r, e, b, ply, player, alpha, beta, c, bv, 0, Opening(player), 0, 0);
    case Entry(_) =>
      EvalCutoffForms(r, e, b, ply, c, bv);
      var v := Eval(r, e, b, ply, c, bv);
      if !v.stop {
        ScanCutoffForms(r, e, b, ply, player, alpha, beta, c, bv + v.value, 0, Opening(player), 0, 0);
      }
  }

  lemma {:induction false} ScanCutoffForms(r: SearchRule, e: Env, b: seq<int>, ply: int, player: int, alpha: int, beta: int,
                                           c: nat, bv: int, k: nat, value: int, leaves: nat, counted: nat)
    requires EnvOk(e) && |b| == Cells && c < Cells && ply <= e.maxDepth
    requires r.family.Entry? ==> ply < e.maxDepth
    ensures Scan(OtherCutoff(r), e, b, ply, player, alpha, beta, c, bv, k, value, leaves, counted) ==
            Scan(r, e, b, ply, player, alpha, beta, c, bv, k, value, leaves, counted)
    decreases Empties(b), 0, Cells - k, 2
  {
    if (player != MAXIMIZER && player != MINIMIZER) || k >= Cells {
    } else if b[k] != UNSET {
      ScanCutoffForms(r, e, b, ply, player, alpha, beta, c, bv, k + 1, value, leaves, counted);
    } else {
      PlaceCutoffForms(r, e, b, ply, player, alpha, beta, c, bv, k, value, leaves, counted);
    }
  }

  lemma {:induction false} PlaceCutoffForms(r: SearchRule, e: Env, b: seq<int>, ply: int, player: int, alpha: int, beta: int,
                                            c: nat, bv: int, k: nat, value: int, leaves: nat, counted: nat)
    requires EnvOk(e) && |b| == Cells && c < Cells && k < Cells && b[k] == UNSET
    requires player == MAXIMIZER || player == MINIMIZER
    requires ply <= e.maxDepth && (r.family.Entry? ==> ply < e.maxDepth)
    ensures Place(OtherCutoff(r), e, b, ply, player, alpha, beta, c, bv, k, value, leaves, counted) ==
            Place(r, e, b, ply, player, alpha, beta, c, bv, k, value, leaves, counted)
    decreases Empties(b), 0, Cells - k, 1
  {
    var b' := b[k := player];
    EmptiesFill(b, k, player);
    EvalCutoffForms(r, e, b', ply, c, bv);
    var v := Judged(r, e, b', ply, c, bv);
    assert Judged(OtherCutoff(r), e, b', ply, c, bv) == v;
    if !v.stop {
      var cbv := ChildValue(r.family, bv, v.value);
      NodeCutoffForms(r, e, b', ply + 1, -player, alpha, beta, k, cbv);
      var child := Node(r, e, b', ply + 1, -player, alpha, beta, k, cbv);
      StepCutoffForms(r, e, b, ply, player, alpha, beta, c, bv, k, value, leaves, counted, child);
    }
  }

  lemma {:induction false} StepCutoffForms(r: SearchRule, e: Env, b: seq<int>, ply: int, player: int, alpha: int, beta: int,
                                           c: nat, bv: int, k: nat, value: int, leaves: nat, counted: nat, child: Outcome)
    requires EnvOk(e) && |b| == Cells && c < Cells && k < Cells
    requires ply <= e.maxDepth && (r.family.Entry? ==> ply < e.maxDepth)
    ensures Step(OtherCutoff(r), e, b, ply, player, alpha, beta, c, bv, k, value, leaves, counted, child) ==
            Step(r, e, b, ply, player, alpha, beta, c, bv, k, value, leaves, counted, child)
    decreases Empties(b), 0, Cells - k, 0
  {
    StepCases(r, e, b, ply, player, alpha, beta, c, bv, k, value, leaves, counted, child);
    StepCases(OtherCutoff(r), e, b, ply, player, alpha, beta, c, bv, k, value, leaves, counted, child);
    var lv, ct := leaves + child.leaves, counted + child.counted;
    if player == MAXIMIZER {
      var best := if child.value > value then child.value else value;
      var a := if best > alpha then best else alpha;
      if beta > a {
        ScanCutoffForms(r, e, b, ply, player, a, beta, c, bv, k + 1, best, lv, ct);
      }
    } else {
      var best := if child.value < value then child.value else value;
      var bb := if best < beta then best else beta;
      if bb > alpha {
        ScanCutoffForms(r, e, b, ply, player, alpha, bb, c, bv, k + 1, best, lv, ct);
      }
    }
  }

  /**
   * The root loop offers the same values and counts under either cut-off
   * test when the depth limit is not negative: squava.go's ply == maxDepth
   * and alphabeta.go's ply >= maxDepth choose alike.
   */
  lemma {:induction false} RootCutoffForms(r: SearchRule, e: Env, b: seq<int>, k: nat)
    requires EnvOk(e) && |b| == Cells && k <= Cells && e.maxDepth >= 0
    ensures RootOffers(OtherCutoff(r), e, b, k) == RootOffers(r, e, b, k)
    ensures RootCounted(OtherCutoff(r), e, b, k) == RootCounted(r, e, b, k)
  {
    if k > 0 {
      RootCutoffForms(r, e, b, k - 1);
      var j := k - 1;
      if b[j] == UNSET {
        var b' := b[j := MAXIMIZER];
        EvalCutoffForms(r, e, b', 0, j, 0);
        var v := Eval(r, e, b', 0, j, 0);
        if !v.stop {
          NodeCutoffForms(r, e, b', 1, MINIMIZER, 2 * LOSS, 2 * WIN, j, v.value);
        }
        assert RootOutcome(OtherCutoff(r), e, b, j) == RootOutcome(r, e, b, j);
      }
    }
  }

  /** New of src/alphabeta/alphabeta.go. */
  method NewAlphaBeta(deterministic: bool, maxdepth: int, index: LineIndex, scores: seq<int>) returns (p: Engine)
    requires index.Valid() && |scores| == Cells
    modifies index
    ensures p.Valid() && fresh(p) && fresh(p.bd) && p.index == index && index.Built()
    ensures p.bd[..] == seq(Cells, _ => UNSET) && p.leafNodeCount == 0 && p.maxDepth == maxdepth
    ensures p.deterministic == deterministic && p.rule == AlphaBetaRule && p.depths == AlphaBetaDepths && !p.countsMoves
  {
    p := new Engine(deterministic, maxdepth, index, AlphaBetaRule, AlphaBetaDepths, false, scores);
  }

  /** New of src/abgeo/alphabetavoid.go. */
  method NewAlphaBetaGeo(deterministic: bool, maxdepth: int, index: LineIndex, scores: seq<int>) returns (p: Engine)
    requires index.Valid() && |scores| == Cells
    modifies index
    ensures p.Valid() && fresh(p) && fresh(p.bd) && p.index == index && index.Built()
    ensures p.bd[..] == seq(Cells, _ => UNSET) && p.leafNodeCount == 0 && p.maxDepth == maxdepth
    ensures p.deterministic == deterministic && p.rule == AlphaBetaGeoRule && p.depths == AlphaBetaGeoDepths && !p.countsMoves
  {
    p := new Engine(deterministic, maxdepth, index, AlphaBetaGeoRule, AlphaBetaGeoDepths, false, scores);
  }

  /** The search part of New of src/abbook/abbook.go; MakeMove counts moves there. */
  method NewAlphaBetaBook(deterministic: bool, maxdepth: int, index: LineIndex, scores: seq<int>) returns (p: Engine)
    requires index.Valid() && |scores| == Cells
    modifies index
    ensures p.Valid() && fresh(p) && fresh(p.bd) && p.index == index && index.Built()
    ensures p.bd[..] == seq(Cells, _ => UNSET) && p.leafNodeCount == 0 && p.maxDepth == maxdepth && p.moveCount == 0
    ensures p.deterministic == deterministic && p.rule == AlphaBetaBookRule && p.depths == AlphaBetaBookDepths && p.countsMoves
  {
    p := new Engine(deterministic, maxdepth, index, AlphaBetaBookRule, AlphaBetaBookDepths, true, scores);
  }

  /** The globals of squava.go: an empty board, maxDepth 10 and the bias table. */
  method NewSquava(deterministic: bool, index: LineIndex, scores: seq<int>) returns (p: Engine)
    requires index.Valid() && |scores| == Cells
    modifies index
    ensures p.Valid() && fresh(p) && fresh(p.bd) && p.index == index && index.Built()
    ensures p.bd[..] == seq(Cells, _ => UNSET) && p.leafNodeCount == 0 && p.maxDepth == 10
    ensures p.deterministic == deterministic && p.rule == SquavaRule && p.depths == SquavaDepths && !p.countsMoves
  {
    p := new Engine(deterministic, 10, index, SquavaRule, SquavaDepths, false, scores);
  }

  /** New of src/negascout/negascout.go. */
  method NewNegaScout(deterministic: bool, maxdepth: int, index: LineIndex, scores: seq<int>) returns (p: ScoutEngine)
    requires index.Valid() && |scores| == Cells
    modifies index
    ensures p.Valid() && fresh(p) && fresh(p.bd) && p.index == index && index.Built()
    ensures p.bd[..] == seq(Cells, _ => UNSET) && p.leafNodeCount == 0 && p.maxDepth == maxdepth
    ensures p.deterministic == deterministic && p.rule == NegaScoutRule && p.depths == NegaScoutDepths && !p.wholeMax
  {
    p := new ScoutEngine(deterministic, maxdepth, index, NegaScoutRule, NegaScoutDepths, scores, false);
  }

  /**
   * The globals of sns.go: maxDepth 10, setDepth's end-game depth as the
   * late limit, and reorderMoves appending the whole maximizer's order to
   * the minimizer's, so that a minimizer node tries its cells a second time.
   */
  method NewSns(deterministic: bool, endGameDepth: int, index: LineIndex, scores: seq<int>) returns (p: ScoutEngine)
    requires index.Valid() && |scores| == Cells
    modifies index
    ensures p.Valid() && fresh(p) && fresh(p.bd) && p.index == index && index.Built()
    ensures p.bd[..] == seq(Cells, _ => UNSET) && p.leafNodeCount == 0 && p.maxDepth == 10
    ensures p.deterministic == deterministic && p.rule == SnsRule && p.depths == Depths(6, 8, endGameDepth) && p.wholeMax
  {
    p := new ScoutEngine(deterministic, 10, index, SnsRule, Depths(6, 8, endGameDepth), scores, true);
  }
}

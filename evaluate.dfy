/**
 * The incremental evaluator (deltaValue and its copies): the value of the
 * position as far as the lines through one cell are concerned. A complete
 * quad through the cell is a win for its owner, a complete triplet a loss for
 * its owner, and otherwise a heuristic total decides, with a flag telling the
 * search to stop at the depth cut-off.
 */
module Evaluate {
  import opened Lines
  import opened Referee

  /** How a file writes the value of a lost position: sum/3*(LOSS+ply) or -sum/3*(WIN-ply). */
  datatype LossForm = LossPlusPly | NegatedWinMinusPly

  /**
   * The points on which the copies of deltaValue differ: the loss formula,
   * whether the no2 and noMiddle2 penalties apply, whether the cut-off is
   * ply == maxDepth or ply >= maxDepth, and whether the carried board value is
   * added at the cut-off.
   */
  datatype DeltaRule = DeltaRule(loss: LossForm, avoid: bool, stopExact: bool, carry: bool)

  /** The result of deltaValue: stop searching below this move, and the value. */
  datatype Verdict = Verdict(stop: bool, value: int)

  /** Triplets in which holding two cells with the third blank is penalised. */
  const No2: seq<Line> := [[10, 6, 2], [2, 8, 14], [22, 18, 14], [22, 16, 10]]

  /** Quads in which holding the two middle cells is penalised. */
  const NoMiddle2: seq<Line> := [[15, 11, 7, 3], [5, 11, 17, 23], [1, 7, 13, 19], [9, 13, 17, 21]]

  /** Every line of ls is well formed with n cells. */
  predicate Shaped(ls: seq<Line>, n: nat)
  {
    forall i :: 0 <= i < |ls| ==> WellFormed(ls[i], n)
  }

  lemma ShapedLinesOk(ls: seq<Line>, n: nat)
    requires Shaped(ls, n)
    ensures LinesOk(ls)
  {
    forall i | 0 <= i < |ls|
      ensures WellFormed(ls[i], |ls[i]|)
    {
      assert WellFormed(ls[i], n);
    }
  }

  lemma AvoidTablesShaped()
    ensures Shaped(No2, 3) && Shaped(NoMiddle2, 4)
  {
  }

  /** The cut-off test: ply == maxDepth in some files, ply >= maxDepth in others. */
  predicate Stops(rule: DeltaRule, ply: int, maxDepth: int)
  {
    if rule.stopExact then ply == maxDepth else ply >= maxDepth
  }

  /** The loss value for a complete triplet summing to sum, as the file writes it (Go's / truncates, exact here). */
  function LossValue(form: LossForm, sum: int, ply: int): int
  {
    match form
    case LossPlusPly => sum / 3 * (LOSS + ply)
    case NegatedWinMinusPly => -sum / 3 * (WIN - ply)
  }

  /** Both loss formulas give the owner's win negated, because LOSS == -WIN. */
  lemma LossFormsAgree(sum: int, ply: int)
    requires sum == 3 || sum == -3
    ensures LossValue(LossPlusPly, sum, ply) == LossValue(NegatedWinMinusPly, sum, ply) == -(sum / 3) * (WIN - ply)
  {
    if sum == 3 {
      assert sum / 3 == 1 && -sum / 3 == -1;
    } else {
      assert sum / 3 == -1 && -sum / 3 == 1;
    }
  }

  /** 10 times the sum of every quad of qs that sums to +-3. */
  function QuadBonus(b: seq<int>, qs: seq<Line>): int
    requires |b| == Cells && Shaped(qs, 4)
  {
    if qs == [] then 0
    else
      var s := Sum(b, qs[|qs| - 1]);
      QuadBonus(b, qs[..|qs| - 1]) + (if s == 3 || s == -3 then 10 * s else 0)
  }

  /** The no2 penalty: -100 times the mark on c for each listed triplet through c summing to +-2. */
  function No2Penalty(b: seq<int>, c: nat, ls: seq<Line>): int
    requires |b| == Cells && c < Cells && Shaped(ls, 3)
  {
    if ls == [] then 0
    else
      var l := ls[|ls| - 1];
      var s := Sum(b, l);
      No2Penalty(b, c, ls[..|ls| - 1]) + (if c in l && (s == 2 || s == -2) then b[c] * -100 else 0)
  }

  /** c is one of the two middle cells of q and the other middle cell holds the same mark. */
  predicate MiddlePair(b: seq<int>, c: nat, q: Line)
    requires |b| == Cells && c < Cells && WellFormed(q, 4)
  {
    (c == q[1] && b[c] == b[q[2]]) || (c == q[2] && b[c] == b[q[1]])
  }

  /** The noMiddle2 penalty: -100 times the mark on c for each listed quad where MiddlePair holds and the sum is +-2. */
  function NoMiddle2Penalty(b: seq<int>, c: nat, ls: seq<Line>): int
    requires |b| == Cells && c < Cells && Shaped(ls, 4)
  {
    if ls == [] then 0
    else
      var q := ls[|ls| - 1];
      var s := Sum(b, q);
      NoMiddle2Penalty(b, c, ls[..|ls| - 1]) + (if MiddlePair(b, c, q) && (s == 2 || s == -2) then b[c] * -100 else 0)
  }

  /** Triplet l passes through c and sums to +-2. */
  predicate No2Hit(b: seq<int>, c: nat, l: Line)
    requires |b| == Cells && WellFormed(l, 3)
  {
    c in l && (Sum(b, l) == 2 || Sum(b, l) == -2)
  }

  /** Quad q has c and the other middle cell alike and sums to +-2. */
  predicate NoMiddle2Hit(b: seq<int>, c: nat, q: Line)
    requires |b| == Cells && c < Cells && WellFormed(q, 4)
  {
    MiddlePair(b, c, q) && (Sum(b, q) == 2 || Sum(b, q) == -2)
  }

  /** The positions in ls of the listed triplets that c is charged for. */
  function No2Hits(b: seq<int>, c: nat, ls: seq<Line>): set<nat>
    requires |b| == Cells && c < Cells && Shaped(ls, 3)
  {
    set i: nat | i < |ls| && No2Hit(b, c, ls[i])
  }

  /** The positions in ls of the listed quads that c is charged for. */
  function NoMiddle2Hits(b: seq<int>, c: nat, ls: seq<Line>): set<nat>
    requires |b| == Cells && c < Cells && Shaped(ls, 4)
  {
    set i: nat | i < |ls| && NoMiddle2Hit(b, c, ls[i])
  }

  lemma Distribute(m: int, k: int)
    ensures m * (k + 1) == m * k + m
  {
  }

  /** Each qualifying no2 triplet costs the mover exactly 100, once. */
  lemma {:induction false} No2PenaltyCounts(b: seq<int>, c: nat, ls: seq<Line>)
    requires |b| == Cells && c < Cells && Shaped(ls, 3)
    ensures No2Penalty(b, c, ls) == -100 * b[c] * |No2Hits(b, c, ls)|
  {
    if ls != [] {
      var init := ls[..|ls| - 1];
      No2PenaltyCounts(b, c, init);
      No2HitsStep(b, c, ls);
      Distribute(-100 * b[c], |No2Hits(b, c, init)|);
    } else {
      assert No2Hits(b, c, ls) == {};
    }
  }

  lemma No2HitsStep(b: seq<int>, c: nat, ls: seq<Line>)
    requires |b| == Cells && c < Cells && Shaped(ls, 3) && ls != []
    ensures |No2Hits(b, c, ls)| == |No2Hits(b, c, ls[..|ls| - 1])| + (if No2Hit(b, c, ls[|ls| - 1]) then 1 else 0)
  {
    var init := ls[..|ls| - 1];
    var n := |ls| - 1;
    var s := No2Hits(b, c, init);
    var t := No2Hits(b, c, ls);
    forall i: nat
      ensures i in t <==> i in s || (No2Hit(b, c, ls[n]) && i == n)
    {
      if i < n {
        assert init[i] == ls[i];
      }
    }
    CountStep(t, s, n, No2Hit(b, c, ls[n]));
  }

  /** Adding one candidate position past the others grows a set of positions by one exactly when it qualifies. */
  lemma CountStep(t: set<nat>, s: set<nat>, n: nat, hit: bool)
    requires forall i :: i in s ==> i < n
    requires forall i :: i in t <==> i in s || (hit && i == n)
    ensures |t| == |s| + (if hit then 1 else 0)
  {
    if hit {
      assert t == s + {n};
    } else {
      assert t == s;
    }
  }

  lemma NoMiddle2HitsStep(b: seq<int>, c: nat, ls: seq<Line>)
    requires |b| == Cells && c < Cells && Shaped(ls, 4) && ls != []
    ensures |NoMiddle2Hits(b, c, ls)| ==
      |NoMiddle2Hits(b, c, ls[..|ls| - 1])| + (if NoMiddle2Hit(b, c, ls[|ls| - 1]) then 1 else 0)
  {
    var init := ls[..|ls| - 1];
    var n := |ls| - 1;
    var s := NoMiddle2Hits(b, c, init);
    var t := NoMiddle2Hits(b, c, ls);
    forall i: nat
      ensures i in t <==> i in s || (NoMiddle2Hit(b, c, ls[n]) && i == n)
    {
      if i < n {
        assert init[i] == ls[i];
      }
    }
    CountStep(t, s, n, NoMiddle2Hit(b, c, ls[n]));
  }

  /** Each qualifying noMiddle2 quad costs the mover exactly 100, once. */
  lemma {:induction false} NoMiddle2PenaltyCounts(b: seq<int>, c: nat, ls: seq<Line>)
    requires |b| == Cells && c < Cells && Shaped(ls, 4)
    ensures NoMiddle2Penalty(b, c, ls) == -100 * b[c] * |NoMiddle2Hits(b, c, ls)|
  {
    if ls != [] {
      var init := ls[..|ls| - 1];
      NoMiddle2PenaltyCounts(b, c, init);
      NoMiddle2HitsStep(b, c, ls);
      Distribute(-100 * b[c], |NoMiddle2Hits(b, c, init)|);
    } else {
      assert NoMiddle2Hits(b, c, ls) == {};
    }
  }

  /** A cell that is no middle cell of any listed quad is never charged the noMiddle2 penalty. */
  lemma {:induction false} NoMiddle2OnlyInterior(b: seq<int>, c: nat, ls: seq<Line>)
    requires |b| == Cells && c < Cells && Shaped(ls, 4)
    requires forall i :: 0 <= i < |ls| ==> c != ls[i][1] && c != ls[i][2]
    ensures NoMiddle2Penalty(b, c, ls) == 0
  {
    if ls != [] {
      NoMiddle2OnlyInterior(b, c, ls[..|ls| - 1]);
    }
  }

  /** The heuristic total of a position with no complete line through the cell. */
  function Heuristic(rule: DeltaRule, b: seq<int>, c: nat, qs: seq<Line>, bias: seq<int>): int
    requires |b| == Cells && c < Cells && Shaped(qs, 4) && |bias| == Cells
  {
    AvoidTablesShaped();
    QuadBonus(b, qs) +
    (if rule.avoid then No2Penalty(b, c, No2) + NoMiddle2Penalty(b, c, NoMiddle2) else 0) +
    b[c] * bias[c]
  }

  /**
   * deltaValue for cell c, with qs and ts the quads and triplets through c:
   * the first complete quad wins for its owner, else the first complete
   * triplet loses for its owner, else the heuristic total, with the carried
   * value added at the cut-off when the file does so.
   */
  function Delta(rule: DeltaRule, b: seq<int>, c: nat, ply: int, maxDepth: int, current: int,
                 qs: seq<Line>, ts: seq<Line>, bias: seq<int>): Verdict
    requires |b| == Cells && c < Cells && Shaped(qs, 4) && Shaped(ts, 3) && |bias| == Cells
  {
    ShapedLinesOk(qs, 4);
    ShapedLinesOk(ts, 3);
    var q := FirstOwner(b, qs);
    var t := FirstOwner(b, ts);
    if q != UNSET then Verdict(true, q * (WIN - ply))
    else if t != UNSET then Verdict(true, -t * (WIN - ply))
    else
      var stop := Stops(rule, ply, maxDepth);
      Verdict(stop, Heuristic(rule, b, c, qs, bias) + (if stop && rule.carry then current else 0))
  }

  /**
   * What deltaValue reports: a win of WIN - ply for the owner of a complete
   * quad, checked before any triplet; a loss of WIN - ply for the owner of a
   * complete triplet; otherwise stop exactly at the cut-off, with the carried
   * value included only then.
   */
  lemma DeltaMeaning(rule: DeltaRule, b: seq<int>, c: nat, ply: int, maxDepth: int, current: int,
                     qs: seq<Line>, ts: seq<Line>, bias: seq<int>)
    requires ValidBoard(b) && c < Cells && Shaped(qs, 4) && Shaped(ts, 3) && |bias| == Cells
    ensures LinesOk(qs) && LinesOk(ts)
    ensures var v := Delta(rule, b, c, ply, maxDepth, current, qs, ts, bias);
      AnyComplete(b, qs) ==>
        v.stop && exists i, p :: 0 <= i < |qs| && p != UNSET && OwnedBy(b, qs[i], p) && v.value == p * (WIN - ply)
    ensures var v := Delta(rule, b, c, ply, maxDepth, current, qs, ts, bias);
      !AnyComplete(b, qs) && AnyComplete(b, ts) ==>
        v.stop && exists i, p :: 0 <= i < |ts| && p != UNSET && OwnedBy(b, ts[i], p) && v.value == -p * (WIN - ply)
    ensures var v := Delta(rule, b, c, ply, maxDepth, current, qs, ts, bias);
      !AnyComplete(b, qs) && !AnyComplete(b, ts) ==>
        (v.stop <==> Stops(rule, ply, maxDepth)) &&
        v.value == Heuristic(rule, b, c, qs, bias) + (if v.stop && rule.carry then current else 0)
  {
    ShapedLinesOk(qs, 4);
    ShapedLinesOk(ts, 3);
    FirstOwnerFacts(b, qs);
    FirstOwnerFacts(b, ts);
  }

  lemma {:induction false} QuadBonusStep(b: seq<int>, qs: seq<Line>, k: nat)
    requires |b| == Cells && Shaped(qs, 4) && k < |qs|
    ensures var s := Sum(b, qs[k]);
      QuadBonus(b, qs[..k + 1]) == QuadBonus(b, qs[..k]) + (if s == 3 || s == -3 then 10 * s else 0)
  {
    assert qs[..k + 1][..k] == qs[..k];
  }

  /** The quad loop of deltaValue: a complete quad returns its owner; otherwise the +-3 bonus over all of qs. */
  method ScanQuads(bd: array<int>, qs: seq<Line>) returns (owner: int, bonus: int)
    requires bd.Length == Cells && ValidBoard(bd[..]) && Shaped(qs, 4)
    ensures LinesOk(qs) && owner == FirstOwner(bd[..], qs)
    ensures owner == UNSET ==> bonus == QuadBonus(bd[..], qs)
  {
    ShapedLinesOk(qs, 4);
    bonus := 0;
    var k := 0;
    while k < |qs|
      invariant 0 <= k <= |qs|
      invariant FirstOwner(bd[..], qs) == FirstOwner(bd[..], qs[k..])
      invariant bonus == QuadBonus(bd[..], qs[..k])
    {
      var q := qs[k];
      FirstOwnerStep(bd[..], qs, k);
      QuadBonusStep(bd[..], qs, k);
      var sum := bd[q[0]] + bd[q[1]] + bd[q[2]] + bd[q[3]];
      if sum == 4 || sum == -4 {
        CompleteOwner(bd[..], q, q[0]);
        return bd[q[0]], bonus;
      }
      if sum == 3 || sum == -3 {
        bonus := bonus + sum * 10;
      }
      k := k + 1;
    }
    assert qs[k..] == [] && qs[..k] == qs;
    owner := UNSET;
  }

  /** The triplet loop of deltaValue: the sum of the first complete triplet, or 0. */
  method ScanTriplets(bd: array<int>, ts: seq<Line>) returns (sum: int)
    requires bd.Length == Cells && ValidBoard(bd[..]) && Shaped(ts, 3)
    ensures LinesOk(ts) && sum == 3 * FirstOwner(bd[..], ts)
  {
    ShapedLinesOk(ts, 3);
    var k := 0;
    while k < |ts|
      invariant 0 <= k <= |ts|
      invariant FirstOwner(bd[..], ts) == FirstOwner(bd[..], ts[k..])
    {
      var t := ts[k];
      FirstOwnerStep(bd[..], ts, k);
      sum := bd[t[0]] + bd[t[1]] + bd[t[2]];
      if sum == 3 || sum == -3 {
        CompleteOwner(bd[..], t, t[0]);
        return;
      }
      k := k + 1;
    }
    assert ts[k..] == [];
    sum := 0;
  }

  lemma {:induction false} No2PenaltyStep(b: seq<int>, c: nat, ls: seq<Line>, k: nat)
    requires |b| == Cells && c < Cells && Shaped(ls, 3) && k < |ls|
    ensures var l := ls[k]; var s := Sum(b, l);
      No2Penalty(b, c, ls[..k + 1]) == No2Penalty(b, c, ls[..k]) + (if c in l && (s == 2 || s == -2) then b[c] * -100 else 0)
  {
    assert ls[..k + 1][..k] == ls[..k];
  }

  lemma {:induction false} NoMiddle2PenaltyStep(b: seq<int>, c: nat, ls: seq<Line>, k: nat)
    requires |b| == Cells && c < Cells && Shaped(ls, 4) && k < |ls|
    ensures var q := ls[k]; var s := Sum(b, q);
      NoMiddle2Penalty(b, c, ls[..k + 1]) == NoMiddle2Penalty(b, c, ls[..k]) + (if MiddlePair(b, c, q) && (s == 2 || s == -2) then b[c] * -100 else 0)
  {
    assert ls[..k + 1][..k] == ls[..k];
  }

  /** The no2 loop: find c in each triplet, and charge the mover when the triplet sums to +-2. */
  method ChargeNo2(bd: array<int>, c: nat, ls: seq<Line>) returns (penalty: int)
    requires bd.Length == Cells && c < Cells && Shaped(ls, 3)
    ensures penalty == No2Penalty(bd[..], c, ls)
  {
    penalty := 0;
    var i := 0;
    while i < |ls|
      invariant 0 <= i <= |ls|
      invariant penalty == No2Penalty(bd[..], c, ls[..i])
    {
      var l := ls[i];
      No2PenaltyStep(bd[..], c, ls, i);
      var j := 0;
      while j < 3
        invariant 0 <= j <= 3
        invariant c !in l[..j]
        invariant penalty == No2Penalty(bd[..], c, ls[..i])
      {
        if l[j] == c {
          var sum := bd[l[0]] + bd[l[1]] + bd[l[2]];
          if sum == 2 || sum == -2 {
            penalty := penalty + bd[c] * -100;
          }
          break;
        }
        assert l[..j + 1] == l[..j] + [l[j]];
        j := j + 1;
      }
      assert j == 3 ==> l[..j] == l;
      i := i + 1;
    }
    assert ls[..i] == ls;
  }

  /** The noMiddle2 loop: charge the mover for each quad where it holds both middle cells and the sum is +-2. */
  method ChargeNoMiddle2(bd: array<int>, c: nat, ls: seq<Line>) returns (penalty: int)
    requires bd.Length == Cells && c < Cells && Shaped(ls, 4)
    ensures penalty == NoMiddle2Penalty(bd[..], c, ls)
  {
    penalty := 0;
    var i := 0;
    while i < |ls|
      invariant 0 <= i <= |ls|
      invariant penalty == NoMiddle2Penalty(bd[..], c, ls[..i])
    {
      var q := ls[i];
      NoMiddle2PenaltyStep(bd[..], c, ls, i);
      var player := bd[c];
      if (c == q[1] && player == bd[q[2]]) || (c == q[2] && player == bd[q[1]]) {
        var sum := bd[q[0]] + bd[q[1]] + bd[q[2]] + bd[q[3]];
        if sum == 2 || sum == -2 {
          penalty := penalty + player * -100;
        }
      }
      i := i + 1;
    }
    assert ls[..i] == ls;
  }

  /**
   * deltaValue: the verdict for cell c after a move, computed with the
   * file's own loss formula, penalties, cut-off test and carried value.
   */
  method DeltaValue(bd: array<int>, rule: DeltaRule, ply: int, c: nat, maxDepth: int, current: int,
                    qs: seq<Line>, ts: seq<Line>, bias: seq<int>) returns (stop: bool, value: int)
    requires bd.Length == Cells && ValidBoard(bd[..]) && c < Cells
    requires Shaped(qs, 4) && Shaped(ts, 3) && |bias| == Cells
    ensures Verdict(stop, value) == Delta(rule, bd[..], c, ply, maxDepth, current, qs, ts, bias)
  {
    var owner, bonus := ScanQuads(bd, qs);
    if owner != UNSET {
      return true, owner * (WIN - ply);
    }
    var sum := ScanTriplets(bd, ts);
    FirstOwnerFacts(bd[..], ts);
    if sum == 3 || sum == -3 {
      LossFormsAgree(sum, ply);
      return true, LossValue(rule.loss, sum, ply);
    }
    value := bonus;
    if rule.avoid {
      AvoidTablesShaped();
      var p2 := ChargeNo2(bd, c, No2);
      var pm := ChargeNoMiddle2(bd, c, NoMiddle2);
      value := value + p2 + pm;
    }
    value := value + bd[c] * bias[c];
    stop := false;
    if Stops(rule, ply, maxDepth) {
      stop := true;
      if rule.carry {
        value := value + current;
      }
    }
  }
}

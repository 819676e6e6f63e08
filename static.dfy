/**
 * The whole-board evaluators: staticValue of the NegaScout engines and
 * wholeBoardValue of the playoff engines. Both look only at the lines
 * through the nine checkable cells: a complete quad or triplet met on the
 * way decides the value, otherwise 10 times the sum of every quad holding
 * three of one mark is added up, with the deadly-quad term and the bias
 * table on top.
 *
 * staticValue scans the quads of all nine cells, then their triplets;
 * wholeBoardValue scans each cell's quads and then its triplets before
 * going to the next cell.
 */
module Static {
  import opened Lines
  import opened Referee
  import opened Evaluate

  /** The quads whose two middle cells are watched by the deadly-quad term, outer cells first and last. */
  const DeadlyQuads: seq<Line> := [[5, 11, 17, 23], [21, 17, 13, 9], [1, 7, 13, 19], [15, 11, 7, 3]]

  /** The deadly-quad term: absent (sns3.go), inner/2*5 subtracted (negascout.go) or -inner*5 added (sns.go). */
  datatype DeadlyForm = NoDeadly | HalfDeadly | FullDeadly

  /**
   * Where the copies of staticValue differ: whether wins and losses are
   * adjusted by the ply, the deadly-quad term, and whether the bias table is
   * added always or only to a zero total.
   */
  datatype StaticRule = StaticRule(plyAdjusted: bool, deadly: DeadlyForm, biasAlways: bool)

  /** A scan over lines either meets a complete line, which decides the value, or stays open with a running total. */
  datatype Pass = Decided(value: int) | Open(total: int)

  /** The per-cell index lists have the shapes of quads and triplets. */
  predicate IndexShaped(qi: seq<seq<Line>>, ti: seq<seq<Line>>)
  {
    |qi| == Cells && |ti| == Cells && forall c :: 0 <= c < Cells ==> Shaped(qi[c], 4) && Shaped(ti[c], 3)
  }

  /** The per-cell index lists are the catalogue lines through each cell, as the index build leaves them. */
  predicate Indexed(qi: seq<seq<Line>>, ti: seq<seq<Line>>)
  {
    |qi| == Cells && |ti| == Cells &&
    forall c :: 0 <= c < Cells ==> qi[c] == Through(Quads, c) && ti[c] == Through(Triplets, c)
  }

  lemma IndexedShaped(qi: seq<seq<Line>>, ti: seq<seq<Line>>)
    requires Indexed(qi, ti)
    ensures IndexShaped(qi, ti)
  {
    CatalogueWellFormed();
    forall c | 0 <= c < Cells
      ensures Shaped(qi[c], 4) && Shaped(ti[c], 3)
    {
      ThroughWellFormed(Quads, c, 4);
      ThroughWellFormed(Triplets, c, 3);
    }
  }

  lemma LinesOkAppend(a: seq<Line>, b: seq<Line>)
    requires LinesOk(a) && LinesOk(b)
    ensures LinesOk(a + b)
  {
    forall i | 0 <= i < |a + b|
      ensures WellFormed((a + b)[i], |(a + b)[i]|)
    {
      if i >= |a| {
        assert (a + b)[i] == b[i - |a|];
      }
    }
  }

  /** Every cell of cs is on the board. */
  predicate OnBoard(cs: seq<nat>)
  {
    forall k :: 0 <= k < |cs| ==> cs[k] < Cells
  }

  /** The lines listed in idx for the cells of cs from the i-th on, cell by cell. */
  function Gather(idx: seq<seq<Line>>, cs: seq<nat>, i: nat): seq<Line>
    requires |idx| == Cells && OnBoard(cs)
    decreases |cs| - i
  {
    if i >= |cs| then [] else idx[cs[i]] + Gather(idx, cs, i + 1)
  }

  /** Each checkable cell's quads followed by its triplets, from the i-th cell on. */
  function Interleave(qi: seq<seq<Line>>, ti: seq<seq<Line>>, cs: seq<nat>, i: nat): seq<Line>
    requires |qi| == Cells && |ti| == Cells && OnBoard(cs)
    decreases |cs| - i
  {
    if i >= |cs| then [] else qi[cs[i]] + ti[cs[i]] + Interleave(qi, ti, cs, i + 1)
  }

  lemma {:induction false} GatherOk(idx: seq<seq<Line>>, cs: seq<nat>, n: nat, i: nat)
    requires |idx| == Cells && OnBoard(cs) && forall c :: 0 <= c < Cells ==> Shaped(idx[c], n)
    ensures LinesOk(Gather(idx, cs, i)) && Shaped(Gather(idx, cs, i), n)
    decreases |cs| - i
  {
    if i < |cs| {
      GatherOk(idx, cs, n, i + 1);
      ShapedLinesOk(idx[cs[i]], n);
      LinesOkAppend(idx[cs[i]], Gather(idx, cs, i + 1));
      var g := Gather(idx, cs, i);
      forall j | 0 <= j < |g|
        ensures WellFormed(g[j], n)
      {
        if j >= |idx[cs[i]]| {
          assert g[j] == Gather(idx, cs, i + 1)[j - |idx[cs[i]]|];
        }
      }
    }
  }

  lemma {:induction false} InterleaveOk(qi: seq<seq<Line>>, ti: seq<seq<Line>>, cs: seq<nat>, i: nat)
    requires IndexShaped(qi, ti) && OnBoard(cs)
    ensures LinesOk(Interleave(qi, ti, cs, i))
    decreases |cs| - i
  {
    if i < |cs| {
      var c := cs[i];
      InterleaveOk(qi, ti, cs, i + 1);
      ShapedLinesOk(qi[c], 4);
      ShapedLinesOk(ti[c], 3);
      LinesOkAppend(qi[c], ti[c]);
      LinesOkAppend(qi[c] + ti[c], Interleave(qi, ti, cs, i + 1));
    }
  }

  /** The lines the scan of staticValue meets: all the checkable cells' quads, then all their triplets. */
  function Separate(qi: seq<seq<Line>>, ti: seq<seq<Line>>, cs: seq<nat>): (ls: seq<Line>)
    requires IndexShaped(qi, ti) && OnBoard(cs)
    ensures LinesOk(ls)
  {
    GatherOk(qi, cs, 4, 0);
    GatherOk(ti, cs, 3, 0);
    LinesOkAppend(Gather(qi, cs, 0), Gather(ti, cs, 0));
    Gather(qi, cs, 0) + Gather(ti, cs, 0)
  }

  /** One line of a scan: a quad summing to +-4 or a triplet summing to +-3 decides, a quad summing to +-3 adds 10 times its sum. */
  function LineStep(b: seq<int>, l: Line, w: int, acc: int): Pass
    requires |b| == Cells && WellFormed(l, |l|)
  {
    var s := Sum(b, l);
    if |l| == 4 then
      if s == 4 || s == -4 then Decided(b[l[0]] * w)
      else if s == 3 || s == -3 then Open(acc + s * 10)
      else Open(acc)
    else if s == 3 || s == -3 then Decided(-s / 3 * w)
    else Open(acc)
  }

  /** The scan over ls in order, from the running total acc; w is the size of a win. */
  function PassLines(b: seq<int>, ls: seq<Line>, w: int, acc: int): Pass
    requires |b| == Cells && LinesOk(ls)
  {
    if ls == [] then Open(acc)
    else
      match LineStep(b, ls[0], w, acc)
      case Decided(v) => Decided(v)
      case Open(a) => PassLines(b, ls[1..], w, a)
  }

  /** What a quad holding three of one mark is worth, as an independent sum over a list of lines. */
  function Partials(b: seq<int>, ls: seq<Line>): int
    requires |b| == Cells && LinesOk(ls)
  {
    if ls == [] then 0
    else
      var s := Sum(b, ls[0]);
      (if |ls[0]| == 4 && (s == 3 || s == -3) then 10 * s else 0) + Partials(b, ls[1..])
  }

  /** The value a complete line stands for: its owner's win for a quad, its owner's loss for a triplet. */
  function LineValue(b: seq<int>, l: Line, w: int): int
    requires |b| == Cells && WellFormed(l, |l|)
  {
    if |l| == 4 then b[l[0]] * w else -b[l[0]] * w
  }

  lemma LinesOkTail(ls: seq<Line>)
    requires LinesOk(ls) && ls != []
    ensures LinesOk(ls[1..])
  {
    forall i | 0 <= i < |ls[1..]|
      ensures WellFormed(ls[1..][i], |ls[1..][i]|)
    {
      assert ls[1..][i] == ls[i + 1];
    }
  }

  /** The first line of a scan decides it exactly when that line is complete, at the line's value. */
  lemma LineStepMeaning(b: seq<int>, l: Line, w: int, acc: int)
    requires ValidBoard(b) && WellFormed(l, |l|)
    ensures LineStep(b, l, w, acc).Decided? <==> Complete(b, l)
    ensures LineStep(b, l, w, acc).Decided? ==> LineStep(b, l, w, acc).value == LineValue(b, l, w)
    ensures LineStep(b, l, w, acc).Open? ==>
      LineStep(b, l, w, acc).total == acc + (if |l| == 4 && (Sum(b, l) == 3 || Sum(b, l) == -3) then 10 * Sum(b, l) else 0)
  {
    if Complete(b, l) {
      CompleteOwner(b, l, l[0]);
      if |l| == 3 {
        assert -Sum(b, l) / 3 == -b[l[0]];
      }
    }
  }

  /** A scan is decided exactly when one of its lines is complete. */
  lemma {:induction false} PassDecided(b: seq<int>, ls: seq<Line>, w: int, acc: int)
    requires ValidBoard(b) && LinesOk(ls)
    ensures PassLines(b, ls, w, acc).Decided? <==> AnyComplete(b, ls)
  {
    if ls != [] {
      LinesOkTail(ls);
      LineStepMeaning(b, ls[0], w, acc);
      if !Complete(b, ls[0]) {
        PassDecided(b, ls[1..], w, LineStep(b, ls[0], w, acc).total);
        if AnyComplete(b, ls) {
          var i :| 0 <= i < |ls| && Complete(b, ls[i]);
          assert ls[1..][i - 1] == ls[i];
        }
      }
    }
  }

  /** A decided scan is decided by its first complete line, at that line's value. */
  lemma {:induction false} PassFirst(b: seq<int>, ls: seq<Line>, w: int, acc: int)
    requires ValidBoard(b) && LinesOk(ls) && PassLines(b, ls, w, acc).Decided?
    ensures exists i :: 0 <= i < |ls| && Complete(b, ls[i]) && (forall j :: 0 <= j < i ==> !Complete(b, ls[j])) &&
                        PassLines(b, ls, w, acc).value == LineValue(b, ls[i], w)
  {
    LinesOkTail(ls);
    LineStepMeaning(b, ls[0], w, acc);
    if !Complete(b, ls[0]) {
      var a := LineStep(b, ls[0], w, acc).total;
      PassFirst(b, ls[1..], w, a);
      var i :| 0 <= i < |ls[1..]| && Complete(b, ls[1..][i]) && (forall j :: 0 <= j < i ==> !Complete(b, ls[1..][j])) &&
        PassLines(b, ls[1..], w, a).value == LineValue(b, ls[1..][i], w);
      assert ls[i + 1] == ls[1..][i];
      forall j | 0 <= j < i + 1
        ensures !Complete(b, ls[j])
      {
        if j > 0 {
          assert ls[j] == ls[1..][j - 1];
        }
      }
    }
  }

  /** An open scan has added the three-of-four quads to its starting total. */
  lemma {:induction false} PassOpen(b: seq<int>, ls: seq<Line>, w: int, acc: int)
    requires ValidBoard(b) && LinesOk(ls) && PassLines(b, ls, w, acc).Open?
    ensures PassLines(b, ls, w, acc).total == acc + Partials(b, ls)
  {
    if ls != [] {
      LinesOkTail(ls);
      LineStepMeaning(b, ls[0], w, acc);
      PassOpen(b, ls[1..], w, LineStep(b, ls[0], w, acc).total);
    }
  }

  /** A scan over a + b is the scan over a, continued over b if a left it open. */
  lemma {:induction false} PassAppend(b: seq<int>, x: seq<Line>, y: seq<Line>, w: int, acc: int)
    requires |b| == Cells && LinesOk(x) && LinesOk(y)
    ensures LinesOk(x + y)
    ensures PassLines(b, x + y, w, acc) ==
      match PassLines(b, x, w, acc)
      case Decided(v) => Decided(v)
      case Open(a) => PassLines(b, y, w, a)
  {
    LinesOkAppend(x, y);
    if x != [] {
      assert (x + y)[1..] == x[1..] + y;
      assert LinesOk(x[1..]) by {
        forall i | 0 <= i < |x[1..]|
          ensures WellFormed(x[1..][i], |x[1..][i]|)
        {
          assert x[1..][i] == x[i + 1];
        }
      }
      var st := LineStep(b, x[0], w, acc);
      if st.Open? {
        PassAppend(b, x[1..], y, w, st.total);
      }
    } else {
      assert x + y == y;
    }
  }

  /** The deadly-quad term over the quads of qs. */
  function DeadlyTerm(b: seq<int>, form: DeadlyForm, qs: seq<Line>): int
    requires |b| == Cells && Shaped(qs, 4)
  {
    if qs == [] then 0
    else
      var q := qs[|qs| - 1];
      var outer := b[q[0]] + b[q[3]];
      var inner := b[q[1]] + b[q[2]];
      var d := if (inner == 2 || inner == -2) && outer == 0 then
        match form
        case NoDeadly => 0
        case HalfDeadly => -(inner / 2 * 5)
        case FullDeadly => -inner * 5
      else 0;
      DeadlyTerm(b, form, qs[..|qs| - 1]) + d
  }

  /** Without deadly quads the term is zero, whatever the board. */
  lemma {:induction false} NoDeadlyTerm(b: seq<int>, qs: seq<Line>)
    requires |b| == Cells && Shaped(qs, 4)
    ensures DeadlyTerm(b, NoDeadly, qs) == 0
    decreases |qs|
  {
    if qs != [] {
      assert Shaped(qs[..|qs| - 1], 4) by {
        assert forall i :: 0 <= i < |qs| - 1 ==> qs[..|qs| - 1][i] == qs[i];
      }
      NoDeadlyTerm(b, qs[..|qs| - 1]);
    }
  }

  /** The bias table weighted by the marks of the first n cells. */
  function BiasSum(b: seq<int>, bias: seq<int>, n: nat): int
    requires |b| == Cells && |bias| == Cells && n <= Cells
  {
    if n == 0 then 0 else BiasSum(b, bias, n - 1) + b[n - 1] * bias[n - 1]
  }

  /** The size of a win at this ply: WIN - ply when adjusted, WIN otherwise. */
  function WinSize(rule: StaticRule, ply: int): int
  {
    if rule.plyAdjusted then WIN - ply else WIN
  }

  lemma DeadlyQuadsShaped()
    ensures Shaped(DeadlyQuads, 4)
  {
  }

  lemma CheckableOnBoard()
    ensures OnBoard(Checkable)
  {
  }

  /**
   * staticValue: the value the scan decides, else the three-of-four
   * partials plus the deadly-quad term, with the bias added as the rule
   * says; stop when the scan decided or ply > maxDepth. cs is the list of
   * checkable cells.
   */
  function StaticValue(rule: StaticRule, b: seq<int>, ply: int, maxDepth: int,
                       qi: seq<seq<Line>>, ti: seq<seq<Line>>, cs: seq<nat>, dq: seq<Line>, bias: seq<int>): Verdict
    requires |b| == Cells && IndexShaped(qi, ti) && OnBoard(cs) && Shaped(dq, 4) && |bias| == Cells
  {
    match PassLines(b, Separate(qi, ti, cs), WinSize(rule, ply), 0)
    case Decided(v) => Verdict(true, v)
    case Open(t) =>
      var v := t + DeadlyTerm(b, rule.deadly, dq);
      Verdict(ply > maxDepth, if rule.biasAlways || v == 0 then v + BiasSum(b, bias, Cells) else v)
  }

  /** wholeBoardValue: the decided value (no ply adjustment), else the partials plus the whole bias sum. */
  function WholeBoardValue(b: seq<int>, qi: seq<seq<Line>>, ti: seq<seq<Line>>, cs: seq<nat>, bias: seq<int>): int
    requires |b| == Cells && IndexShaped(qi, ti) && OnBoard(cs) && |bias| == Cells
  {
    InterleaveOk(qi, ti, cs, 0);
    match PassLines(b, Interleave(qi, ti, cs, 0), WIN, 0)
    case Decided(v) => v
    case Open(t) => t + BiasSum(b, bias, Cells)
  }

  /** The lines gathered through the cells of cs from the i-th on are the lines of ls through one of them. */
  lemma {:induction false} GatherMembers(idx: seq<seq<Line>>, ls: seq<Line>, cs: seq<nat>, i: nat, l: Line)
    requires |idx| == Cells && OnBoard(cs) && forall c :: 0 <= c < Cells ==> idx[c] == Through(ls, c)
    ensures l in Gather(idx, cs, i) <==> l in ls && exists k :: i <= k < |cs| && cs[k] in l
    decreases |cs| - i
  {
    if i < |cs| {
      GatherMembers(idx, ls, cs, i + 1, l);
      ThroughMember(ls, cs[i], l);
      assert idx[cs[i]] == Through(ls, cs[i]);
      if l in ls && cs[i] in l {
        assert i <= i < |cs| && cs[i] in l;
      }
      if k :| i <= k < |cs| && cs[k] in l {
        assert k == i || (i + 1 <= k < |cs| && cs[k] in l);
      }
    }
  }

  /** Every line of ls passes through a cell of cs. */
  predicate Covered(ls: seq<Line>, cs: seq<nat>)
  {
    forall i :: 0 <= i < |ls| ==> Hits(cs, ls[i])
  }

  /** Line l passes through a cell of cs. */
  predicate Hits(cs: seq<nat>, l: Line)
  {
    exists k :: 0 <= k < |cs| && cs[k] in l
  }

  /** The nine checkable cells cover the catalogue. */
  lemma CatalogueCovered()
    ensures Covered(Quads, Checkable) && Covered(Triplets, Checkable)
  {
    CheckableCellsTouchEveryLine();
    forall i | 0 <= i < |Quads|
      ensures Hits(Checkable, Quads[i])
    {
      assert Touches(Quads[i]);
    }
    forall i | 0 <= i < |Triplets|
      ensures Hits(Checkable, Triplets[i])
    {
      assert Touches(Triplets[i]);
    }
  }

  /**
   * When the cells of cs cover ls, the lines gathered through them are
   * lines of ls, and a complete one is met exactly when ls has one.
   */
  lemma GatherComplete(b: seq<int>, idx: seq<seq<Line>>, ls: seq<Line>, cs: seq<nat>, n: nat)
    requires |b| == Cells && |idx| == Cells && forall c :: 0 <= c < Cells ==> idx[c] == Through(ls, c)
    requires OnBoard(cs) && Covered(ls, cs) && Shaped(ls, n)
    ensures LinesOk(ls) && LinesOk(Gather(idx, cs, 0))
    ensures AnyComplete(b, Gather(idx, cs, 0)) <==> AnyComplete(b, ls)
    ensures forall i :: 0 <= i < |Gather(idx, cs, 0)| ==> Gather(idx, cs, 0)[i] in ls
  {
    ShapedLinesOk(ls, n);
    forall c | 0 <= c < Cells
      ensures Shaped(idx[c], n)
    {
      ThroughWellFormed(ls, c, n);
    }
    GatherOk(idx, cs, n, 0);
    var g := Gather(idx, cs, 0);
    forall i | 0 <= i < |g|
      ensures g[i] in ls
    {
      GatherMembers(idx, ls, cs, 0, g[i]);
    }
    if AnyComplete(b, ls) {
      var i :| 0 <= i < |ls| && Complete(b, ls[i]);
      assert Hits(cs, ls[i]);
      var k :| 0 <= k < |cs| && cs[k] in ls[i];
      GatherMembers(idx, ls, cs, 0, ls[i]);
      var j :| 0 <= j < |g| && g[j] == ls[i];
    }
    if AnyComplete(b, g) {
      var i :| 0 <= i < |g| && Complete(b, g[i]);
      var j :| 0 <= j < |ls| && ls[j] == g[i];
    }
  }

  lemma {:induction false} PartialsAppend(b: seq<int>, x: seq<Line>, y: seq<Line>)
    requires |b| == Cells && LinesOk(x) && LinesOk(y)
    ensures LinesOk(x + y) && Partials(b, x + y) == Partials(b, x) + Partials(b, y)
  {
    LinesOkAppend(x, y);
    if x != [] {
      LinesOkTail(x);
      assert (x + y)[1..] == x[1..] + y;
      PartialsAppend(b, x[1..], y);
    } else {
      assert x + y == y;
    }
  }

  /** Triplets add nothing to the partial total. */
  lemma {:induction false} PartialsOfTriplets(b: seq<int>, ts: seq<Line>)
    requires |b| == Cells && LinesOk(ts) && Shaped(ts, 3)
    ensures Partials(b, ts) == 0
  {
    if ts != [] {
      LinesOkTail(ts);
      assert WellFormed(ts[0], 3);
      assert Shaped(ts[1..], 3) by {
        forall i | 0 <= i < |ts[1..]|
          ensures WellFormed(ts[1..][i], 3)
        {
          assert ts[1..][i] == ts[i + 1];
        }
      }
      PartialsOfTriplets(b, ts[1..]);
    }
  }

  /** The interleaved scan meets the same lines as the separate one, and its partial total is the quads' alone. */
  lemma {:induction false} InterleaveLines(b: seq<int>, qi: seq<seq<Line>>, ti: seq<seq<Line>>, cs: seq<nat>, i: nat, l: Line)
    requires |b| == Cells && IndexShaped(qi, ti) && OnBoard(cs)
    ensures LinesOk(Interleave(qi, ti, cs, i)) && LinesOk(Gather(qi, cs, i))
    ensures l in Interleave(qi, ti, cs, i) <==> l in Gather(qi, cs, i) || l in Gather(ti, cs, i)
    ensures Partials(b, Interleave(qi, ti, cs, i)) == Partials(b, Gather(qi, cs, i))
    decreases |cs| - i
  {
    InterleaveOk(qi, ti, cs, i);
    GatherOk(qi, cs, 4, i);
    if i < |cs| {
      var c := cs[i];
      InterleaveLines(b, qi, ti, cs, i + 1, l);
      GatherOk(ti, cs, 3, i + 1);
      ShapedLinesOk(qi[c], 4);
      ShapedLinesOk(ti[c], 3);
      PartialsOfTriplets(b, ti[c]);
      PartialsAppend(b, qi[c], ti[c]);
      InterleaveOk(qi, ti, cs, i + 1);
      PartialsAppend(b, qi[c] + ti[c], Interleave(qi, ti, cs, i + 1));
      GatherOk(qi, cs, 4, i + 1);
      PartialsAppend(b, qi[c], Gather(qi, cs, i + 1));
    }
  }

  /** The value of one complete catalogue line met by a scan. */
  lemma CompleteLineValue(b: seq<int>, l: Line, n: nat, w: int)
    requires ValidBoard(b) && WellFormed(l, n) && Complete(b, l)
    ensures b[l[0]] != UNSET && OwnedBy(b, l, b[l[0]])
    ensures LineValue(b, l, w) == if n == 4 then b[l[0]] * w else -b[l[0]] * w
  {
    CompleteOwner(b, l, l[0]);
    CompleteOwner(b, l, l[1]);
    CompleteOwner(b, l, l[2]);
    if n == 4 {
      CompleteOwner(b, l, l[3]);
    }
  }

  /** Some complete line of ls, held by the mark at its first cell, accounts for v as that mark times s. */
  predicate SettledBy(b: seq<int>, ls: seq<Line>, v: int, s: int)
    requires |b| == Cells && LinesOk(ls)
  {
    exists i :: 0 <= i < |ls| && b[ls[i][0]] != UNSET && OwnedBy(b, ls[i], b[ls[i][0]]) && v == b[ls[i][0]] * s
  }

  /** A complete line gathered from ls is valued as a win for a quad's owner, a loss for a triplet's. */
  lemma GatheredSettled(b: seq<int>, idx: seq<seq<Line>>, ls: seq<Line>, cs: seq<nat>, n: nat, w: int, l: Line)
    requires ValidBoard(b) && |idx| == Cells && forall c :: 0 <= c < Cells ==> idx[c] == Through(ls, c)
    requires OnBoard(cs) && Shaped(ls, n) && l in Gather(idx, cs, 0) && WellFormed(l, |l|) && Complete(b, l)
    ensures LinesOk(ls) && SettledBy(b, ls, LineValue(b, l, w), if n == 4 then w else -w)
  {
    ShapedLinesOk(ls, n);
    GatherMembers(idx, ls, cs, 0, l);
    var j :| 0 <= j < |ls| && ls[j] == l;
    CompleteLineValue(b, ls[j], n, w);
  }

  /**
   * One phase of a scan, over the lines of ls gathered through the cells of
   * cs: it decides exactly when ls holds a complete line, at the value of
   * one (a win for a quad's owner, a loss for a triplet's), and otherwise
   * adds the partials of what it met.
   */
  lemma ScanPhase(b: seq<int>, idx: seq<seq<Line>>, ls: seq<Line>, cs: seq<nat>, n: nat, w: int, acc: int)
    requires ValidBoard(b) && |idx| == Cells && forall c :: 0 <= c < Cells ==> idx[c] == Through(ls, c)
    requires OnBoard(cs) && Covered(ls, cs) && Shaped(ls, n) && (n == 3 || n == 4)
    ensures LinesOk(ls) && LinesOk(Gather(idx, cs, 0))
    ensures PassLines(b, Gather(idx, cs, 0), w, acc).Decided? <==> AnyComplete(b, ls)
    ensures PassLines(b, Gather(idx, cs, 0), w, acc).Decided? ==>
      SettledBy(b, ls, PassLines(b, Gather(idx, cs, 0), w, acc).value, if n == 4 then w else -w)
    ensures PassLines(b, Gather(idx, cs, 0), w, acc).Open? ==>
      PassLines(b, Gather(idx, cs, 0), w, acc).total == acc + Partials(b, Gather(idx, cs, 0))
  {
    GatherComplete(b, idx, ls, cs, n);
    var g := Gather(idx, cs, 0);
    var p := PassLines(b, g, w, acc);
    PassDecided(b, g, w, acc);
    if p.Decided? {
      PassFirst(b, g, w, acc);
      var i :| 0 <= i < |g| && Complete(b, g[i]) && (forall j :: 0 <= j < i ==> !Complete(b, g[j])) &&
        p.value == LineValue(b, g[i], w);
      GatheredSettled(b, idx, ls, cs, n, w, g[i]);
    } else {
      PassOpen(b, g, w, acc);
    }
  }

  /** The two phases of staticValue's scan over any pair of covered catalogues, quads before triplets. */
  lemma StaticPhases(rule: StaticRule, b: seq<int>, ply: int, maxDepth: int, qi: seq<seq<Line>>, ti: seq<seq<Line>>,
                     qs: seq<Line>, ts: seq<Line>, cs: seq<nat>, dq: seq<Line>, bias: seq<int>)
    requires ValidBoard(b) && IndexShaped(qi, ti) && OnBoard(cs) && Shaped(dq, 4) && |bias| == Cells
    requires forall c :: 0 <= c < Cells ==> qi[c] == Through(qs, c) && ti[c] == Through(ts, c)
    requires Covered(qs, cs) && Shaped(qs, 4) && Covered(ts, cs) && Shaped(ts, 3)
    ensures LinesOk(qs) && LinesOk(ts) && LinesOk(Gather(qi, cs, 0))
    ensures var v := StaticValue(rule, b, ply, maxDepth, qi, ti, cs, dq, bias);
      AnyComplete(b, qs) ==> v.stop && SettledBy(b, qs, v.value, WinSize(rule, ply))
    ensures var v := StaticValue(rule, b, ply, maxDepth, qi, ti, cs, dq, bias);
      !AnyComplete(b, qs) && AnyComplete(b, ts) ==> v.stop && SettledBy(b, ts, v.value, -WinSize(rule, ply))
    ensures var v := StaticValue(rule, b, ply, maxDepth, qi, ti, cs, dq, bias);
      !AnyComplete(b, qs) && !AnyComplete(b, ts) ==>
        (v.stop <==> ply > maxDepth) &&
        var t := Partials(b, Gather(qi, cs, 0)) + DeadlyTerm(b, rule.deadly, dq);
        v.value == if rule.biasAlways || t == 0 then t + BiasSum(b, bias, Cells) else t
  {
    var w := WinSize(rule, ply);
    var g1, g2 := Gather(qi, cs, 0), Gather(ti, cs, 0);
    ScanPhase(b, qi, qs, cs, 4, w, 0);
    GatherOk(ti, cs, 3, 0);
    PassAppend(b, g1, g2, w, 0);
    if PassLines(b, g1, w, 0).Open? {
      var t1 := PassLines(b, g1, w, 0).total;
      ScanPhase(b, ti, ts, cs, 3, w, t1);
      PartialsOfTriplets(b, g2);
    }
  }

  /**
   * What staticValue reports with the built index: a complete quad decides
   * for its owner at the win size, before any triplet; otherwise a complete
   * triplet decides against its owner; otherwise the search stops only past
   * the depth limit and the value is the three-of-four partials, the
   * deadly-quad term and, as the rule says, the bias.
   */
  lemma StaticMeaning(rule: StaticRule, b: seq<int>, ply: int, maxDepth: int,
                      qi: seq<seq<Line>>, ti: seq<seq<Line>>, bias: seq<int>)
    requires ValidBoard(b) && Indexed(qi, ti) && |bias| == Cells
    ensures IndexShaped(qi, ti) && OnBoard(Checkable) && Shaped(DeadlyQuads, 4)
    ensures LinesOk(Quads) && LinesOk(Triplets) && LinesOk(Gather(qi, Checkable, 0))
    ensures var v := StaticValue(rule, b, ply, maxDepth, qi, ti, Checkable, DeadlyQuads, bias);
      AnyComplete(b, Quads) ==> v.stop && SettledBy(b, Quads, v.value, WinSize(rule, ply))
    ensures var v := StaticValue(rule, b, ply, maxDepth, qi, ti, Checkable, DeadlyQuads, bias);
      !AnyComplete(b, Quads) && AnyComplete(b, Triplets) ==> v.stop && SettledBy(b, Triplets, v.value, -WinSize(rule, ply))
    ensures var v := StaticValue(rule, b, ply, maxDepth, qi, ti, Checkable, DeadlyQuads, bias);
      !AnyComplete(b, Quads) && !AnyComplete(b, Triplets) ==>
        (v.stop <==> ply > maxDepth) &&
        var t := Partials(b, Gather(qi, Checkable, 0)) + DeadlyTerm(b, rule.deadly, DeadlyQuads);
        v.value == if rule.biasAlways || t == 0 then t + BiasSum(b, bias, Cells) else t
  {
    IndexedShaped(qi, ti);
    CheckableOnBoard();
    DeadlyQuadsShaped();
    CatalogueWellFormed();
    CatalogueCovered();
    StaticPhases(rule, b, ply, maxDepth, qi, ti, Quads, Triplets, Checkable, DeadlyQuads, bias);
  }

  /** A complete line gathered through cs by index idx is also met by the cell-by-cell scan. */
  lemma InterleaveMeets(b: seq<int>, qi: seq<seq<Line>>, ti: seq<seq<Line>>, cs: seq<nat>, idx: seq<seq<Line>>)
    requires |b| == Cells && IndexShaped(qi, ti) && OnBoard(cs) && (idx == qi || idx == ti)
    requires LinesOk(Gather(idx, cs, 0)) && AnyComplete(b, Gather(idx, cs, 0))
    ensures LinesOk(Interleave(qi, ti, cs, 0)) && AnyComplete(b, Interleave(qi, ti, cs, 0))
  {
    InterleaveOk(qi, ti, cs, 0);
    var g := Gather(idx, cs, 0);
    var k :| 0 <= k < |g| && Complete(b, g[k]);
    InterleaveLines(b, qi, ti, cs, 0, g[k]);
    var j :| 0 <= j < |Interleave(qi, ti, cs, 0)| && Interleave(qi, ti, cs, 0)[j] == g[k];
  }

  /** A complete line met by the cell-by-cell scan was gathered by one index or the other. */
  lemma InterleaveFrom(b: seq<int>, qi: seq<seq<Line>>, ti: seq<seq<Line>>, cs: seq<nat>)
    requires |b| == Cells && IndexShaped(qi, ti) && OnBoard(cs)
    requires LinesOk(Interleave(qi, ti, cs, 0)) && AnyComplete(b, Interleave(qi, ti, cs, 0))
    ensures LinesOk(Gather(qi, cs, 0)) && LinesOk(Gather(ti, cs, 0))
    ensures AnyComplete(b, Gather(qi, cs, 0)) || AnyComplete(b, Gather(ti, cs, 0))
  {
    GatherOk(qi, cs, 4, 0);
    GatherOk(ti, cs, 3, 0);
    var il := Interleave(qi, ti, cs, 0);
    var i :| 0 <= i < |il| && Complete(b, il[i]);
    InterleaveLines(b, qi, ti, cs, 0, il[i]);
    if il[i] in Gather(qi, cs, 0) {
      var k :| 0 <= k < |Gather(qi, cs, 0)| && Gather(qi, cs, 0)[k] == il[i];
    } else {
      var k :| 0 <= k < |Gather(ti, cs, 0)| && Gather(ti, cs, 0)[k] == il[i];
    }
  }

  /** A complete line of either catalogue is met by the cell-by-cell scan exactly when one exists. */
  lemma InterleaveComplete(b: seq<int>, qi: seq<seq<Line>>, ti: seq<seq<Line>>, qs: seq<Line>, ts: seq<Line>, cs: seq<nat>)
    requires |b| == Cells && IndexShaped(qi, ti) && OnBoard(cs)
    requires forall c :: 0 <= c < Cells ==> qi[c] == Through(qs, c) && ti[c] == Through(ts, c)
    requires Covered(qs, cs) && Shaped(qs, 4) && Covered(ts, cs) && Shaped(ts, 3)
    ensures LinesOk(qs) && LinesOk(ts) && LinesOk(Interleave(qi, ti, cs, 0))
    ensures AnyComplete(b, Interleave(qi, ti, cs, 0)) <==> AnyComplete(b, qs) || AnyComplete(b, ts)
  {
    GatherComplete(b, qi, qs, cs, 4);
    GatherComplete(b, ti, ts, cs, 3);
    InterleaveOk(qi, ti, cs, 0);
    if AnyComplete(b, Gather(qi, cs, 0)) {
      InterleaveMeets(b, qi, ti, cs, qi);
    }
    if AnyComplete(b, Gather(ti, cs, 0)) {
      InterleaveMeets(b, qi, ti, cs, ti);
    }
    if AnyComplete(b, Interleave(qi, ti, cs, 0)) {
      InterleaveFrom(b, qi, ti, cs);
    }
  }

  /** A complete line met by the cell-by-cell scan is a line of one catalogue or the other, valued accordingly. */
  lemma InterleaveSettled(b: seq<int>, qi: seq<seq<Line>>, ti: seq<seq<Line>>, qs: seq<Line>, ts: seq<Line>, cs: seq<nat>,
                          w: int, l: Line)
    requires ValidBoard(b) && IndexShaped(qi, ti) && OnBoard(cs)
    requires forall c :: 0 <= c < Cells ==> qi[c] == Through(qs, c) && ti[c] == Through(ts, c)
    requires Shaped(qs, 4) && Shaped(ts, 3)
    requires l in Interleave(qi, ti, cs, 0) && WellFormed(l, |l|) && Complete(b, l)
    ensures LinesOk(qs) && LinesOk(ts)
    ensures SettledBy(b, qs, LineValue(b, l, w), w) || SettledBy(b, ts, LineValue(b, l, w), -w)
  {
    ShapedLinesOk(qs, 4);
    ShapedLinesOk(ts, 3);
    InterleaveLines(b, qi, ti, cs, 0, l);
    if l in Gather(qi, cs, 0) {
      GatherMembers(qi, qs, cs, 0, l);
      var j :| 0 <= j < |qs| && qs[j] == l;
      CompleteLineValue(b, qs[j], 4, w);
    } else {
      GatherMembers(ti, ts, cs, 0, l);
      var j :| 0 <= j < |ts| && ts[j] == l;
      CompleteLineValue(b, ts[j], 3, w);
    }
  }

  /**
   * Both phases of a scan done cell by cell, quads then triplets at each
   * cell: it decides exactly when a complete line exists in either
   * catalogue, at the value of one of them, and otherwise totals the
   * partials of the quads alone.
   */
  lemma InterleavePhase(b: seq<int>, qi: seq<seq<Line>>, ti: seq<seq<Line>>, qs: seq<Line>, ts: seq<Line>, cs: seq<nat>, w: int)
    requires ValidBoard(b) && IndexShaped(qi, ti) && OnBoard(cs)
    requires forall c :: 0 <= c < Cells ==> qi[c] == Through(qs, c) && ti[c] == Through(ts, c)
    requires Covered(qs, cs) && Shaped(qs, 4) && Covered(ts, cs) && Shaped(ts, 3)
    ensures LinesOk(qs) && LinesOk(ts) && LinesOk(Interleave(qi, ti, cs, 0)) && LinesOk(Gather(qi, cs, 0))
    ensures PassLines(b, Interleave(qi, ti, cs, 0), w, 0).Decided? <==> AnyComplete(b, qs) || AnyComplete(b, ts)
    ensures PassLines(b, Interleave(qi, ti, cs, 0), w, 0).Decided? ==>
      SettledBy(b, qs, PassLines(b, Interleave(qi, ti, cs, 0), w, 0).value, w) ||
      SettledBy(b, ts, PassLines(b, Interleave(qi, ti, cs, 0), w, 0).value, -w)
    ensures PassLines(b, Interleave(qi, ti, cs, 0), w, 0).Open? ==>
      PassLines(b, Interleave(qi, ti, cs, 0), w, 0).total == Partials(b, Gather(qi, cs, 0))
  {
    InterleaveComplete(b, qi, ti, qs, ts, cs);
    var il := Interleave(qi, ti, cs, 0);
    InterleaveLines(b, qi, ti, cs, 0, []);
    var p := PassLines(b, il, w, 0);
    PassDecided(b, il, w, 0);
    if p.Decided? {
      PassFirst(b, il, w, 0);
      var i :| 0 <= i < |il| && Complete(b, il[i]) && (forall j :: 0 <= j < i ==> !Complete(b, il[j])) &&
        p.value == LineValue(b, il[i], w);
      InterleaveSettled(b, qi, ti, qs, ts, cs, w, il[i]);
    } else {
      PassOpen(b, il, w, 0);
    }
  }

  /**
   * What wholeBoardValue reports with the built index: a complete line,
   * quad or triplet, decides at WIN for or against its owner; otherwise the
   * same partial total as staticValue's plus the whole bias sum.
   */
  lemma WholeBoardMeaning(b: seq<int>, qi: seq<seq<Line>>, ti: seq<seq<Line>>, bias: seq<int>)
    requires ValidBoard(b) && Indexed(qi, ti) && |bias| == Cells
    ensures IndexShaped(qi, ti) && OnBoard(Checkable)
    ensures LinesOk(Quads) && LinesOk(Triplets) && LinesOk(Gather(qi, Checkable, 0))
    ensures AnyComplete(b, Quads) || AnyComplete(b, Triplets) ==>
      SettledBy(b, Quads, WholeBoardValue(b, qi, ti, Checkable, bias), WIN) ||
      SettledBy(b, Triplets, WholeBoardValue(b, qi, ti, Checkable, bias), -WIN)
    ensures !AnyComplete(b, Quads) && !AnyComplete(b, Triplets) ==>
      WholeBoardValue(b, qi, ti, Checkable, bias) == Partials(b, Gather(qi, Checkable, 0)) + BiasSum(b, bias, Cells)
  {
    IndexedShaped(qi, ti);
    CheckableOnBoard();
    CatalogueWellFormed();
    CatalogueCovered();
    InterleavePhase(b, qi, ti, Quads, Triplets, Checkable, WIN);
    InterleaveOk(qi, ti, Checkable, 0);
  }

  lemma LinesOkFrom(ls: seq<Line>, j: nat)
    requires LinesOk(ls) && j <= |ls|
    ensures LinesOk(ls[j..])
  {
    forall i | 0 <= i < |ls[j..]|
      ensures WellFormed(ls[j..][i], |ls[j..][i]|)
    {
      assert ls[j..][i] == ls[j + i];
    }
  }

  /** One line further into a scan. */
  lemma PassStep(b: seq<int>, ls: seq<Line>, j: nat, w: int, acc: int)
    requires |b| == Cells && LinesOk(ls) && j < |ls|
    ensures LinesOk(ls[j..]) && LinesOk(ls[j + 1..])
    ensures PassLines(b, ls[j..], w, acc) ==
      match LineStep(b, ls[j], w, acc)
      case Decided(v) => Decided(v)
      case Open(a) => PassLines(b, ls[j + 1..], w, a)
  {
    LinesOkFrom(ls, j);
    LinesOkFrom(ls, j + 1);
    assert ls[j..][0] == ls[j];
    assert ls[j..][1..] == ls[j + 1..];
  }

  /** The scan of one list of lines on the board, each line summed cell by cell; it returns at the first complete line. */
  method ScanLines(bd: array<int>, ls: seq<Line>, w: int, acc: int) returns (p: Pass)
    requires bd.Length == Cells && LinesOk(ls)
    ensures p == PassLines(bd[..], ls, w, acc)
  {
    var value := acc;
    var j := 0;
    while j < |ls|
      invariant 0 <= j <= |ls| && LinesOk(ls[j..])
      invariant PassLines(bd[..], ls, w, acc) == PassLines(bd[..], ls[j..], w, value)
    {
      PassStep(bd[..], ls, j, w, value);
      var l := ls[j];
      var sum := bd[l[0]] + bd[l[1]] + bd[l[2]];
      if |l| == 4 {
        sum := sum + bd[l[3]];
        if sum == 4 || sum == -4 {
          return Decided(bd[l[0]] * w);
        }
        if sum == 3 || sum == -3 {
          value := value + sum * 10;
        }
      } else if sum == 3 || sum == -3 {
        return Decided(-sum / 3 * w);
      }
      j := j + 1;
    }
    LinesOkFrom(ls, j);
    return Open(value);
  }

  /** The scan of the index lists of the cells of cs, one cell after another. */
  method ScanIndex(bd: array<int>, idx: seq<seq<Line>>, cs: seq<nat>, ghost n: nat, w: int, acc: int) returns (p: Pass)
    requires bd.Length == Cells && |idx| == Cells && OnBoard(cs) && forall c :: 0 <= c < Cells ==> Shaped(idx[c], n)
    ensures LinesOk(Gather(idx, cs, 0)) && p == PassLines(bd[..], Gather(idx, cs, 0), w, acc)
  {
    GatherOk(idx, cs, n, 0);
    var value := acc;
    var i := 0;
    while i < |cs|
      invariant 0 <= i <= |cs| && LinesOk(Gather(idx, cs, i))
      invariant PassLines(bd[..], Gather(idx, cs, 0), w, acc) == PassLines(bd[..], Gather(idx, cs, i), w, value)
    {
      ShapedLinesOk(idx[cs[i]], n);
      GatherOk(idx, cs, n, i + 1);
      PassAppend(bd[..], idx[cs[i]], Gather(idx, cs, i + 1), w, value);
      p := ScanLines(bd, idx[cs[i]], w, value);
      if p.Decided? {
        return;
      }
      value := p.total;
      i := i + 1;
    }
    return Open(value);
  }

  lemma DeadlyTermStep(b: seq<int>, form: DeadlyForm, dq: seq<Line>, k: nat)
    requires |b| == Cells && Shaped(dq, 4) && k < |dq|
    ensures Shaped(dq[..k], 4) && Shaped(dq[..k + 1], 4)
    ensures var q := dq[k];
      var outer := b[q[0]] + b[q[3]];
      var inner := b[q[1]] + b[q[2]];
      DeadlyTerm(b, form, dq[..k + 1]) == DeadlyTerm(b, form, dq[..k]) +
        if (inner == 2 || inner == -2) && outer == 0 then
          match form
          case NoDeadly => 0
          case HalfDeadly => -(inner / 2 * 5)
          case FullDeadly => -inner * 5
        else 0
  {
    assert dq[..k + 1][..k] == dq[..k];
    assert dq[..k + 1][k] == dq[k];
  }

  /** The deadly-quad loop: each deadly quad with interior sum +-2 and empty ends is charged as the form says. */
  method ChargeDeadly(bd: array<int>, form: DeadlyForm, dq: seq<Line>, acc: int) returns (value: int)
    requires bd.Length == Cells && Shaped(dq, 4)
    ensures value == acc + DeadlyTerm(bd[..], form, dq)
  {
    value := acc;
    var k := 0;
    while k < |dq|
      invariant 0 <= k <= |dq| && Shaped(dq[..k], 4)
      invariant value == acc + DeadlyTerm(bd[..], form, dq[..k])
    {
      DeadlyTermStep(bd[..], form, dq, k);
      var q := dq[k];
      var outer := bd[q[0]] + bd[q[3]];
      var inner := bd[q[1]] + bd[q[2]];
      if (inner == 2 || inner == -2) && outer == 0 {
        match form
        case NoDeadly =>
        case HalfDeadly => value := value - inner / 2 * 5;
        case FullDeadly => value := value + -inner * 5;
      }
      k := k + 1;
    }
    assert dq[..k] == dq;
  }

  /** The bias loop, row by row and column by column. */
  method AddBias(bd: array<int>, bias: seq<int>, acc: int) returns (value: int)
    requires bd.Length == Cells && |bias| == Cells
    ensures value == acc + BiasSum(bd[..], bias, Cells)
  {
    value := acc;
    var x := 0;
    while x < 5
      invariant 0 <= x <= 5
      invariant value == acc + BiasSum(bd[..], bias, 5 * x)
    {
      var y := 0;
      while y < 5
        invariant 0 <= y <= 5
        invariant value == acc + BiasSum(bd[..], bias, 5 * x + y)
      {
        value := value + bd[Idx(x, y)] * bias[Idx(x, y)];
        y := y + 1;
      }
      x := x + 1;
    }
  }

  /**
   * staticValue's board work: quads through the checkable cells, then
   * triplets, then the deadly quads and the bias, with the verdict the
   * specification function gives.
   */
  method StaticValueOf(bd: array<int>, rule: StaticRule, ply: int, maxDepth: int, qi: seq<seq<Line>>, ti: seq<seq<Line>>,
                       cs: seq<nat>, dq: seq<Line>, bias: seq<int>) returns (stop: bool, value: int)
    requires bd.Length == Cells && IndexShaped(qi, ti) && OnBoard(cs) && Shaped(dq, 4) && |bias| == Cells
    ensures Verdict(stop, value) == StaticValue(rule, bd[..], ply, maxDepth, qi, ti, cs, dq, bias)
  {
    var w := WinSize(rule, ply);
    var quads := ScanIndex(bd, qi, cs, 4, w, 0);
    GatherOk(ti, cs, 3, 0);
    PassAppend(bd[..], Gather(qi, cs, 0), Gather(ti, cs, 0), w, 0);
    if quads.Decided? {
      return true, quads.value;
    }
    var triplets := ScanIndex(bd, ti, cs, 3, w, quads.total);
    if triplets.Decided? {
      return true, triplets.value;
    }
    value := ChargeDeadly(bd, rule.deadly, dq, triplets.total);
    if rule.biasAlways || value == 0 {
      value := AddBias(bd, bias, value);
    }
    stop := ply > maxDepth;
  }

  /** wholeBoardValue's board work: each checkable cell's quads and then its triplets, then the whole bias. */
  method WholeBoardValueOf(bd: array<int>, qi: seq<seq<Line>>, ti: seq<seq<Line>>, cs: seq<nat>, bias: seq<int>)
    returns (value: int)
    requires bd.Length == Cells && IndexShaped(qi, ti) && OnBoard(cs) && |bias| == Cells
    ensures value == WholeBoardValue(bd[..], qi, ti, cs, bias)
  {
    InterleaveOk(qi, ti, cs, 0);
    value := 0;
    var i := 0;
    while i < |cs|
      invariant 0 <= i <= |cs| && LinesOk(Interleave(qi, ti, cs, i))
      invariant PassLines(bd[..], Interleave(qi, ti, cs, 0), WIN, 0) == PassLines(bd[..], Interleave(qi, ti, cs, i), WIN, value)
    {
      var c := cs[i];
      ShapedLinesOk(qi[c], 4);
      ShapedLinesOk(ti[c], 3);
      InterleaveOk(qi, ti, cs, i + 1);
      LinesOkAppend(qi[c], ti[c]);
      PassAppend(bd[..], qi[c] + ti[c], Interleave(qi, ti, cs, i + 1), WIN, value);
      PassAppend(bd[..], qi[c], ti[c], WIN, value);
      var quads := ScanLines(bd, qi[c], WIN, value);
      if quads.Decided? {
        return quads.value;
      }
      var triplets := ScanLines(bd, ti[c], WIN, quads.total);
      if triplets.Decided? {
        return triplets.value;
      }
      value := triplets.total;
      i := i + 1;
    }
    value := AddBias(bd, bias, value);
  }
}

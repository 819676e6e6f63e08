/**
 * The opening-book calculators opening2.go and opening3.go. Both search a
 * fixed position with an alpha-beta search that judges the previous move on
 * entry, tries the empty cells in a fixed order (inner ring's corners, the
 * centre, the centre lines' inner cells, the edges, the corners) and counts
 * one leaf per return. opening2.go values the six first moves that stand
 * for all 25 under the board's eight symmetries; opening3.go values every
 * reply to those six, skipping a (first, reply) pair when a rotation or
 * reflection of it has been valued already.
 */
module Opening {
  import opened Lines
  import opened Evaluate
  import opened LineIndexing
  import Static
  import Search
  import Bias

  /** The order in which alphaBeta tries the cells. */
  const OrderedCells: seq<nat> := OrderedA + OrderedB
  const OrderedA: seq<nat> := [6, 8, 16, 18, 12, 7, 11, 13, 17, 1, 2, 3, 5, 10, 15, 9]
  const OrderedB: seq<nat> := [14, 19, 21, 22, 23, 0, 4, 20, 24]

  /** The place of each cell in OrderedCells. */
  const OrderRank: seq<nat> := OrderRankA + OrderRankB
  const OrderRankA: seq<nat> := [21, 9, 10, 11, 22, 12, 0, 5, 1, 15, 13, 6, 4, 7, 16, 14]
  const OrderRankB: seq<nat> := [2, 8, 3, 17, 23, 18, 19, 20, 24]

  /** The six first moves: (0,0), (0,1), (0,2), (1,1), (1,2), (2,2). */
  const UniqueCells: seq<nat> := [0, 1, 2, 6, 7, 12]

  /** The bias table both files write: the fixed table with a 2 at (2,4). */
  const WrittenScores: seq<int> := [3, 3, 0, 3, 3,
                                    3, 4, 1, 4, 3,
                                    0, 1, 0, 1, 2,
                                    3, 4, 1, 4, 3,
                                    3, 3, 0, 3, 3]

  /** The evaluation inside alphaBeta: squava.go's deltaValue, without the no2 penalties, stopping at ply == maxDepth with the board value added. */
  const OpeningDelta: DeltaRule := DeltaRule(NegatedWinMinusPly, false, true, true)

  /** The empty board. */
  function Empty(): (b: seq<int>)
    ensures |b| == Cells && forall i :: 0 <= i < Cells ==> b[i] == UNSET
  {
    seq(Cells, _ => UNSET)
  }

  /** alphaBeta tries every cell exactly once. */
  lemma OrderedCellsPermutation()
    ensures |OrderedCells| == Cells && Static.OnBoard(OrderedCells)
    ensures forall c :: 0 <= c < Cells ==> c in OrderedCells
    ensures forall i, j :: 0 <= i < j < Cells ==> OrderedCells[i] != OrderedCells[j]
  {
    assert |OrderRank| == Cells;
    forall i | 0 <= i < Cells
      ensures OrderedCells[i] < Cells && OrderRank[OrderedCells[i]] == i
    {
      if i < 8 {
        assert i == 0 || i == 1 || i == 2 || i == 3 || i == 4 || i == 5 || i == 6 || i == 7;
      } else if i < 16 {
        assert i == 8 || i == 9 || i == 10 || i == 11 || i == 12 || i == 13 || i == 14 || i == 15;
      } else {
        assert i == 16 || i == 17 || i == 18 || i == 19 || i == 20 || i == 21 || i == 22 || i == 23 || i == 24;
      }
    }
    forall c | 0 <= c < Cells
      ensures OrderRank[c] < Cells && OrderedCells[OrderRank[c]] == c
    {
      if c < 8 {
        assert c == 0 || c == 1 || c == 2 || c == 3 || c == 4 || c == 5 || c == 6 || c == 7;
      } else if c < 16 {
        assert c == 8 || c == 9 || c == 10 || c == 11 || c == 12 || c == 13 || c == 14 || c == 15;
      } else {
        assert c == 16 || c == 17 || c == 18 || c == 19 || c == 20 || c == 21 || c == 22 || c == 23 || c == 24;
      }
    }
  }

  // The eight symmetries

  /**
   * Matrices[m][x][y]: the image of cell (x, y) under symmetry m: the
   * identity, quarter turn, half turn, three-quarter turn, reflections in
   * the centre row and centre column, and reflections in the two diagonals.
   */
  function Image(m: nat, x: int, y: int): (int, int)
  {
    match m
    case 0 => (x, y)
    case 1 => (y, 4 - x)
    case 2 => (4 - x, 4 - y)
    case 3 => (4 - y, x)
    case 4 => (4 - x, y)
    case 5 => (x, 4 - y)
    case 6 => (4 - y, 4 - x)
    case _ => (y, x)
  }

  /** Image on cell indexes. */
  function Transform(m: nat, c: nat): (d: nat)
    requires c < Cells
    ensures d < Cells
  {
    IdxRowCol(c);
    var p := Image(m, Row(c), Col(c));
    Idx(p.0, p.1)
  }

  /** The symmetry that undoes m: the two quarter turns undo each other, every other symmetry undoes itself. */
  function Inverse(m: nat): nat
  {
    if m == 1 then 3 else if m == 3 then 1 else m
  }

  lemma RowColIdx(x: int, y: int)
    requires 0 <= x < 5 && 0 <= y < 5
    ensures Idx(x, y) < Cells && Row(Idx(x, y)) == x && Col(Idx(x, y)) == y
  {
    assert x == 0 || x == 1 || x == 2 || x == 3 || x == 4;
  }

  /** Matrices[0] is the identity. */
  lemma TransformIdentity(c: nat)
    requires c < Cells
    ensures Transform(0, c) == c
  {
    IdxRowCol(c);
  }

  /** Each symmetry is undone by its inverse. */
  lemma TransformInverse(m: nat, c: nat)
    requires m < 8 && c < Cells
    ensures Inverse(m) < 8 && Inverse(Inverse(m)) == m
    ensures Transform(Inverse(m), Transform(m, c)) == c
  {
    IdxRowCol(c);
    var p := Image(m, Row(c), Col(c));
    RowColIdx(p.0, p.1);
  }

  /** Each of the eight matrices maps the 25 cells one-to-one onto the 25 cells: its inverse gives every cell's preimage. */
  lemma TransformBijective(m: nat)
    requires m < 8
    ensures forall c, d :: 0 <= c < Cells && 0 <= d < Cells && Transform(m, c) == Transform(m, d) ==> c == d
    ensures forall d :: 0 <= d < Cells ==> Transform(m, Transform(Inverse(m), d)) == d
  {
    forall c, d | 0 <= c < Cells && 0 <= d < Cells && Transform(m, c) == Transform(m, d)
      ensures c == d
    {
      TransformInverse(m, c);
      TransformInverse(m, d);
    }
    forall d | 0 <= d < Cells
      ensures Transform(m, Transform(Inverse(m), d)) == d
    {
      TransformInverse(Inverse(m), d);
    }
  }

  /** Every cell is the image of one of the six first moves under one of the eight symmetries. */
  lemma UniqueCellsCover(c: nat)
    requires c < Cells
    ensures exists m, i :: 0 <= m < 8 && 0 <= i < |UniqueCells| && Transform(m, UniqueCells[i]) == c
  {
    if c < 5 {
      if c == 0 {
        assert Transform(0, UniqueCells[0]) == 0;
      } else if c == 1 {
        assert Transform(0, UniqueCells[1]) == 1;
      } else if c == 2 {
        assert Transform(0, UniqueCells[2]) == 2;
      } else if c == 3 {
        assert Transform(5, UniqueCells[1]) == 3;
      } else {
        assert Transform(1, UniqueCells[0]) == 4;
      }
    } else if c < 10 {
      if c == 5 {
        assert Transform(7, UniqueCells[1]) == 5;
      } else if c == 6 {
        assert Transform(0, UniqueCells[3]) == 6;
      } else if c == 7 {
        assert Transform(0, UniqueCells[4]) == 7;
      } else if c == 8 {
        assert Transform(1, UniqueCells[3]) == 8;
      } else {
        assert Transform(1, UniqueCells[1]) == 9;
      }
    } else if c < 15 {
      if c == 10 {
        assert Transform(3, UniqueCells[2]) == 10;
      } else if c == 11 {
        assert Transform(3, UniqueCells[4]) == 11;
      } else if c == 12 {
        assert Transform(0, UniqueCells[5]) == 12;
      } else if c == 13 {
        assert Transform(1, UniqueCells[4]) == 13;
      } else {
        assert Transform(1, UniqueCells[2]) == 14;
      }
    } else if c < 20 {
      if c == 15 {
        assert Transform(3, UniqueCells[1]) == 15;
      } else if c == 16 {
        assert Transform(3, UniqueCells[3]) == 16;
      } else if c == 17 {
        assert Transform(2, UniqueCells[4]) == 17;
      } else if c == 18 {
        assert Transform(2, UniqueCells[3]) == 18;
      } else {
        assert Transform(6, UniqueCells[1]) == 19;
      }
    } else {
      if c == 20 {
        assert Transform(3, UniqueCells[0]) == 20;
      } else if c == 21 {
        assert Transform(4, UniqueCells[1]) == 21;
      } else if c == 22 {
        assert Transform(2, UniqueCells[2]) == 22;
      } else if c == 23 {
        assert Transform(2, UniqueCells[1]) == 23;
      } else {
        assert Transform(2, UniqueCells[0]) == 24;
      }
    }
  }

  /**
   * A table with Bias.Symmetric's three reflections looks the same under
   * all eight matrices.
   */
  lemma SymmetricInvariant(t: seq<int>, m: nat, c: nat)
    requires |t| == Cells && Bias.Symmetric(t) && m < 8 && c < Cells
    ensures t[Transform(m, c)] == t[c]
  {
    IdxRowCol(c);
    var x, y := Row(c), Col(c);
    SymmetricAt(t, x, y);
    if m == 1 {
      SymmetricAt(t, 4 - x, y);
    } else if m == 2 {
      SymmetricAt(t, 4 - x, y);
    } else if m == 3 {
      SymmetricAt(t, y, x);
    } else if m == 6 {
      SymmetricAt(t, 4 - x, y);
      SymmetricAt(t, y, 4 - x);
    }
  }

  /** Bias.Symmetric's three reflections at cell (x, y). */
  lemma SymmetricAt(t: seq<int>, x: int, y: int)
    requires |t| == Cells && Bias.Symmetric(t) && 0 <= x < 5 && 0 <= y < 5
    ensures t[Idx(4 - x, y)] == t[Idx(x, y)] && t[Idx(x, 4 - y)] == t[Idx(x, y)] && t[Idx(y, x)] == t[Idx(x, y)]
  {
  }

  /** The fixed table gives a cell and each of its images the same bias. */
  lemma PositionalInvariant(m: nat, c: nat)
    requires m < 8 && c < Cells
    ensures Bias.Positional[Transform(m, c)] == Bias.Positional[c]
  {
    Bias.PositionalSymmetric();
    SymmetricInvariant(Bias.Positional, m, c);
  }

  /**
   * The written table differs from the fixed one only at (2,4), so the
   * reflection in the centre column moves a bias of 2 onto (2,0), which has
   * 0: mirrored positions are not valued alike.
   */
  lemma WrittenScoresAsymmetric()
    ensures WrittenScores == Bias.Positional[Idx(2, 4) := 2]
    ensures Transform(5, Idx(2, 4)) == Idx(2, 0)
    ensures WrittenScores[Idx(2, 4)] == 2 && WrittenScores[Transform(5, Idx(2, 4))] == 0
    ensures !Bias.Symmetric(WrittenScores)
  {
    RowColIdx(2, 4);
    assert WrittenScores[Idx(2, 4 - 4)] != WrittenScores[Idx(2, 4)];
  }

  // The search

  /** What alphaBeta reads besides the board: the depth limit, the per-cell quads and triplets, the bias table and the cell order. */
  datatype Env = Env(maxDepth: int, qi: seq<seq<Line>>, ti: seq<seq<Line>>, scores: seq<int>, order: seq<nat>)

  predicate EnvOk(e: Env)
  {
    |e.qi| == Cells && |e.ti| == Cells && |e.scores| == Cells && |e.order| == Cells && Static.OnBoard(e.order) &&
    forall c :: 0 <= c < Cells ==> Shaped(e.qi[c], 4) && Shaped(e.ti[c], 3)
  }

  /** A search result: the value and the leaves counted on the way. */
  datatype Searched = Searched(value: int, leaves: nat)

  /** The evaluation of the previous move into cell c, with board value bv. */
  function Judgement(e: Env, b: seq<int>, ply: int, c: nat, bv: int): Verdict
    requires EnvOk(e) && |b| == Cells && c < Cells
  {
    Delta(OpeningDelta, b, c, ply, e.maxDepth, bv, e.qi[c], e.ti[c], e.scores)
  }

  /** The value a node starts from: LOSS for the maximizer, WIN for the minimizer. */
  function Start(player: int): int
  {
    if player == MAXIMIZER then LOSS else WIN
  }

  /**
   * alphaBeta(ply, player, alpha, beta, x, y, boardValue), with c the cell
   * (x, y) of the previous move: a complete line or the depth limit ends
   * the node with one leaf; a player other than the two yields 0; otherwise
   * the loop over the cell order, with the evaluation added to the board
   * value.
   */
  function Node(e: Env, b: seq<int>, ply: int, player: int, alpha: int, beta: int, c: nat, bv: int): Searched
    requires EnvOk(e) && |b| == Cells && c < Cells
    decreases Empties(b), 1
  {
    var v := Judgement(e, b, ply, c, bv);
    if v.stop then Searched(v.value, 1)
    else if player != MAXIMIZER && player != MINIMIZER then Searched(0, 1)
    else Scan(e, b, ply, player, alpha, beta, bv + v.value, 0, Start(player), 0)
  }

  /** The loop from place k of the cell order on, with the window, the best value and the leaves so far; the loop's end counts one leaf. */
  function Scan(e: Env, b: seq<int>, ply: int, player: int, alpha: int, beta: int, bv: int,
                k: nat, value: int, leaves: nat): Searched
    requires EnvOk(e) && |b| == Cells && (player == MAXIMIZER || player == MINIMIZER)
    decreases Empties(b), 0, Cells - k, 2
  {
    if k >= Cells then Searched(value, leaves + 1)
    else if b[e.order[k]] != UNSET then Scan(e, b, ply, player, alpha, beta, bv, k + 1, value, leaves)
    else Place(e, b, ply, player, alpha, beta, bv, k, value, leaves)
  }

  /** The mover's mark goes into the empty cell at place k and the child is searched. */
  function Place(e: Env, b: seq<int>, ply: int, player: int, alpha: int, beta: int, bv: int,
                 k: nat, value: int, leaves: nat): Searched
    requires EnvOk(e) && |b| == Cells && k < Cells && b[e.order[k]] == UNSET
    requires player == MAXIMIZER || player == MINIMIZER
    decreases Empties(b), 0, Cells - k, 1
  {
    var cell := e.order[k];
    EmptiesFill(b, cell, player);
    Step(e, b, ply, player, alpha, beta, bv, k, value, leaves,
         Node(e, b[cell := player], ply + 1, -player, alpha, beta, cell, bv))
  }

  /**
   * The child's result folded in: the best value, then the window; a
   * closed window is a cut-off counting one leaf, otherwise the loop goes
   * on at place k + 1.
   */
  function Step(e: Env, b: seq<int>, ply: int, player: int, alpha: int, beta: int, bv: int,
                k: nat, value: int, leaves: nat, child: Searched): Searched
    requires EnvOk(e) && |b| == Cells && k < Cells && (player == MAXIMIZER || player == MINIMIZER)
    decreases Empties(b), 0, Cells - k, 0
  {
    var lv := leaves + child.leaves;
    if player == MAXIMIZER then
      var best := if child.value > value then child.value else value;
      var a := if best > alpha then best else alpha;
      if beta <= a then Searched(best, lv + 1)
      else Scan(e, b, ply, player, a, beta, bv, k + 1, best, lv)
    else
      var best := if child.value < value then child.value else value;
      var bb := if best < beta then best else beta;
      if bb <= alpha then Searched(best, lv + 1)
      else Scan(e, b, ply, player, alpha, bb, bv, k + 1, best, lv)
  }

  /** Step's two cases spelled out, for the loop that computes it. */
  lemma StepCases(e: Env, b: seq<int>, ply: int, player: int, alpha: int, beta: int, bv: int,
                  k: nat, value: int, leaves: nat, child: Searched)
    requires EnvOk(e) && |b| == Cells && k < Cells && (player == MAXIMIZER || player == MINIMIZER)
    ensures player == MAXIMIZER ==>
      var best := if child.value > value then child.value else value;
      var a := if best > alpha then best else alpha;
      Step(e, b, ply, player, alpha, beta, bv, k, value, leaves, child) ==
        if beta <= a then Searched(best, leaves + child.leaves + 1)
        else Scan(e, b, ply, player, a, beta, bv, k + 1, best, leaves + child.leaves)
    ensures player == MINIMIZER ==>
      var best := if child.value < value then child.value else value;
      var bb := if best < beta then best else beta;
      Step(e, b, ply, player, alpha, beta, bv, k, value, leaves, child) ==
        if bb <= alpha then Searched(best, leaves + child.leaves + 1)
        else Scan(e, b, ply, player, alpha, bb, bv, k + 1, best, leaves + child.leaves)
  {
  }

  /**
   * The loop never loses ground: the maximizer's value never falls below
   * the value it had, the minimizer's never rises above it, and at least
   * one more leaf is counted.
   */
  lemma {:induction false} ScanKeeps(e: Env, b: seq<int>, ply: int, player: int, alpha: int, beta: int, bv: int,
                                     k: nat, value: int, leaves: nat)
    requires EnvOk(e) && |b| == Cells && (player == MAXIMIZER || player == MINIMIZER)
    ensures var o := Scan(e, b, ply, player, alpha, beta, bv, k, value, leaves);
      o.leaves > leaves && (player == MAXIMIZER ==> o.value >= value) && (player == MINIMIZER ==> o.value <= value)
    decreases Cells - k, 1
  {
    if k < Cells {
      if b[e.order[k]] != UNSET {
        ScanKeeps(e, b, ply, player, alpha, beta, bv, k + 1, value, leaves);
      } else {
        var cell := e.order[k];
        EmptiesFill(b, cell, player);
        var child := Node(e, b[cell := player], ply + 1, -player, alpha, beta, cell, bv);
        assert Scan(e, b, ply, player, alpha, beta, bv, k, value, leaves) ==
               Step(e, b, ply, player, alpha, beta, bv, k, value, leaves, child);
        StepKeeps(e, b, ply, player, alpha, beta, bv, k, value, leaves, child);
      }
    }
  }

  lemma {:induction false} StepKeeps(e: Env, b: seq<int>, ply: int, player: int, alpha: int, beta: int, bv: int,
                                     k: nat, value: int, leaves: nat, child: Searched)
    requires EnvOk(e) && |b| == Cells && k < Cells && (player == MAXIMIZER || player == MINIMIZER)
    ensures var o := Step(e, b, ply, player, alpha, beta, bv, k, value, leaves, child);
      o.leaves > leaves && (player == MAXIMIZER ==> o.value >= value) && (player == MINIMIZER ==> o.value <= value)
    decreases Cells - k, 0
  {
    StepCases(e, b, ply, player, alpha, beta, bv, k, value, leaves, child);
    if player == MAXIMIZER {
      var best := if child.value > value then child.value else value;
      var a := if best > alpha then best else alpha;
      if beta > a {
        ScanKeeps(e, b, ply, player, a, beta, bv, k + 1, best, leaves + child.leaves);
      }
    } else {
      var best := if child.value < value then child.value else value;
      var bb := if best < beta then best else beta;
      if bb > alpha {
        ScanKeeps(e, b, ply, player, alpha, bb, bv, k + 1, best, leaves + child.leaves);
      }
    }
  }

  /**
   * Every return of alphaBeta counts a leaf; a complete line or the depth
   * limit answers the evaluation with exactly one; a node that goes on to
   * search never answers below LOSS for the maximizer or above WIN for the
   * minimizer.
   */
  lemma NodeMeaning(e: Env, b: seq<int>, ply: int, player: int, alpha: int, beta: int, c: nat, bv: int)
    requires EnvOk(e) && |b| == Cells && c < Cells
    ensures var o := Node(e, b, ply, player, alpha, beta, c, bv); var v := Judgement(e, b, ply, c, bv);
      o.leaves >= 1 &&
      (v.stop ==> o == Searched(v.value, 1)) &&
      (ply == e.maxDepth ==> v.stop && o.leaves == 1) &&
      (!v.stop && player == MAXIMIZER ==> o.value >= LOSS) &&
      (!v.stop && player == MINIMIZER ==> o.value <= WIN)
  {
    var v := Judgement(e, b, ply, c, bv);
    if !v.stop && (player == MAXIMIZER || player == MINIMIZER) {
      ScanKeeps(e, b, ply, player, alpha, beta, bv + v.value, 0, Start(player), 0);
    }
  }

  /** opening2.go: the value of first move c, searched for the minimizer's reply at ply 1 with board value 0. */
  function FirstMove(e: Env, c: nat): Searched
    requires EnvOk(e) && c < Cells
  {
    Node(e, Empty()[c := MAXIMIZER], 1, MINIMIZER, LOSS, WIN, c, 0)
  }

  /** opening3.go: the value of reply r to first move c, searched for the maximizer at ply 2 with c's bias as board value. */
  function ReplyValue(e: Env, c: nat, r: nat): Searched
    requires EnvOk(e) && c < Cells && r < Cells
  {
    Node(e, Empty()[c := MAXIMIZER][r := MINIMIZER], 2, MAXIMIZER, LOSS, WIN, r, e.scores[c])
  }

  // The duplicate filter of opening3.go

  /** A valued reply: the index of its first move, the reply cell, the value and the leaf count. */
  datatype Reply = Reply(first: nat, reply: nat, value: int, leaves: nat)

  /** Each reply names one of the six first moves and another cell. */
  predicate Replied(rs: seq<Reply>)
  {
    forall i :: 0 <= i < |rs| ==> rs[i].first < |UniqueCells| && rs[i].reply < Cells && rs[i].reply != UniqueCells[rs[i].first]
  }

  /** The place of a reply in the loops' order: first move, then reply cell. */
  function Rank(r: Reply): int
  {
    r.first * 25 + r.reply
  }

  /** (c1, r1) and (c2, r2) are the same pair of moves up to one of the eight symmetries. */
  predicate Equivalent(c1: nat, r1: nat, c2: nat, r2: nat)
    requires c1 < Cells && r1 < Cells
  {
    exists m :: 0 <= m < 8 && Transform(m, c1) == c2 && Transform(m, r1) == r2
  }

  /** Some valued reply is the pair (c, r) up to symmetry. */
  predicate Known(rs: seq<Reply>, c: nat, r: nat)
    requires c < Cells && r < Cells && Replied(rs)
  {
    exists i :: 0 <= i < |rs| && Equivalent(c, r, UniqueCells[rs[i].first], rs[i].reply)
  }

  /** Equivalence goes both ways. */
  lemma EquivalentSymmetric(c1: nat, r1: nat, c2: nat, r2: nat)
    requires c1 < Cells && r1 < Cells && c2 < Cells && r2 < Cells && Equivalent(c1, r1, c2, r2)
    ensures Equivalent(c2, r2, c1, r1)
  {
    var m :| 0 <= m < 8 && Transform(m, c1) == c2 && Transform(m, r1) == r2;
    TransformInverse(m, c1);
    TransformInverse(m, r1);
    assert Transform(Inverse(m), c2) == c1 && Transform(Inverse(m), r2) == r1;
  }

  /** computedMoves: six boards of 25 cells. */
  predicate BoardsShaped(computed: seq<seq<int>>)
  {
    |computed| == |UniqueCells| && forall j :: 0 <= j < |computed| ==> |computed[j]| == Cells
  }

  /**
   * computedMoves against the replies valued so far: board j holds the
   * maximizer's mark exactly at first move j and the minimizer's mark
   * exactly at the replies valued for it.
   */
  predicate Marks(computed: seq<seq<int>>, rs: seq<Reply>)
  {
    BoardsShaped(computed) && Replied(rs) &&
    forall j, x :: 0 <= j < |UniqueCells| && 0 <= x < Cells ==>
      (computed[j][x] == MAXIMIZER <==> x == UniqueCells[j]) &&
      (computed[j][x] == MINIMIZER <==> exists i :: 0 <= i < |rs| && rs[i].first == j && rs[i].reply == x)
  }

  /** matchedPrevious: under some matrix, some board has the maximizer's mark on c's image and the minimizer's on r's. */
  predicate Covered(computed: seq<seq<int>>, c: nat, r: nat)
    requires BoardsShaped(computed) && c < Cells && r < Cells
  {
    exists m, j :: 0 <= m < 8 && 0 <= j < |UniqueCells| &&
      computed[j][Transform(m, c)] == MAXIMIZER && computed[j][Transform(m, r)] == MINIMIZER
  }

  /** A board test that succeeds names a valued pair. */
  lemma CoveredIsKnown(computed: seq<seq<int>>, rs: seq<Reply>, c: nat, r: nat)
    requires Marks(computed, rs) && c < Cells && r < Cells && Covered(computed, c, r)
    ensures Known(rs, c, r)
  {
    var m, j :| 0 <= m < 8 && 0 <= j < |UniqueCells| &&
      computed[j][Transform(m, c)] == MAXIMIZER && computed[j][Transform(m, r)] == MINIMIZER;
    var i :| 0 <= i < |rs| && rs[i].first == j && rs[i].reply == Transform(m, r);
    assert Equivalent(c, r, UniqueCells[rs[i].first], rs[i].reply);
  }

  /** A valued pair makes the board test succeed. */
  lemma KnownIsCovered(computed: seq<seq<int>>, rs: seq<Reply>, c: nat, r: nat)
    requires Marks(computed, rs) && c < Cells && r < Cells && Known(rs, c, r)
    ensures Covered(computed, c, r)
  {
    var i :| 0 <= i < |rs| && Equivalent(c, r, UniqueCells[rs[i].first], rs[i].reply);
    var m :| 0 <= m < 8 && Transform(m, c) == UniqueCells[rs[i].first] && Transform(m, r) == rs[i].reply;
    var j := rs[i].first;
    assert computed[j][Transform(m, c)] == MAXIMIZER && computed[j][Transform(m, r)] == MINIMIZER;
  }

  /** With the marks kept as Marks says, the board test finds exactly the pairs already valued up to symmetry. */
  lemma CoveredKnown(computed: seq<seq<int>>, rs: seq<Reply>, c: nat, r: nat)
    requires Marks(computed, rs) && c < Cells && r < Cells
    ensures Covered(computed, c, r) <==> Known(rs, c, r)
  {
    if Covered(computed, c, r) {
      CoveredIsKnown(computed, rs, c, r);
    }
    if Known(rs, c, r) {
      KnownIsCovered(computed, rs, c, r);
    }
  }

  /** Some board has the maximizer's mark on cell a and the minimizer's on cell b. */
  predicate BoardHit(computed: seq<seq<int>>, a: nat, b: nat)
    requires BoardsShaped(computed) && a < Cells && b < Cells
  {
    exists j :: 0 <= j < |UniqueCells| && computed[j][a] == MAXIMIZER && computed[j][b] == MINIMIZER
  }

  /** The board test is a matrix whose images of c and r some board marks. */
  lemma CoveredHit(computed: seq<seq<int>>, c: nat, r: nat)
    requires BoardsShaped(computed) && c < Cells && r < Cells
    ensures Covered(computed, c, r) <==> exists m :: 0 <= m < 8 && BoardHit(computed, Transform(m, c), Transform(m, r))
  {
    if Covered(computed, c, r) {
      var m, j :| 0 <= m < 8 && 0 <= j < |UniqueCells| &&
        computed[j][Transform(m, c)] == MAXIMIZER && computed[j][Transform(m, r)] == MINIMIZER;
      assert BoardHit(computed, Transform(m, c), Transform(m, r));
    }
  }

  /** The filter's inner loop: every board in turn, stopping at the first with both cells marked. */
  method ScanBoards(computed: seq<seq<int>>, a: nat, b: nat) returns (hit: bool)
    requires BoardsShaped(computed) && a < Cells && b < Cells
    ensures hit == BoardHit(computed, a, b)
  {
    var j := 0;
    while j < |UniqueCells|
      invariant 0 <= j <= |UniqueCells|
      invariant forall j' :: 0 <= j' < j ==> !(computed[j'][a] == MAXIMIZER && computed[j'][b] == MINIMIZER)
    {
      if computed[j][a] == MAXIMIZER && computed[j][b] == MINIMIZER {
        return true;
      }
      j := j + 1;
    }
    return false;
  }

  /**
   * The filter's matching loops: every matrix in turn, every board in
   * turn, stopping at the first board with both images marked.
   */
  method Matched(computed: seq<seq<int>>, c: nat, r: nat) returns (matched: bool)
    requires BoardsShaped(computed) && c < Cells && r < Cells
    ensures matched == Covered(computed, c, r)
  {
    CoveredHit(computed, c, r);
    var m := 0;
    while m < 8
      invariant 0 <= m <= 8
      invariant forall m' :: 0 <= m' < m ==> !BoardHit(computed, Transform(m', c), Transform(m', r))
    {
      var hit := ScanBoards(computed, Transform(m, c), Transform(m, r));
      if hit {
        return true;
      }
      m := m + 1;
    }
    return false;
  }

  /** The replies come in the loops' order, all ranked below upto. */
  predicate Ranked(rs: seq<Reply>, upto: int)
  {
    (forall i :: 0 <= i < |rs| ==> Rank(rs[i]) < upto) &&
    forall i, j :: 0 <= i < j < |rs| ==> Rank(rs[i]) < Rank(rs[j])
  }

  /** No reply repeats an earlier one up to symmetry. */
  predicate Distinct(rs: seq<Reply>)
    requires Replied(rs)
  {
    forall i, j :: 0 <= i < j < |rs| ==>
      !Equivalent(UniqueCells[rs[j].first], rs[j].reply, UniqueCells[rs[i].first], rs[i].reply)
  }

  /** Every (first move, reply) pair ranked below upto is valued up to symmetry. */
  predicate Covers(rs: seq<Reply>, upto: int)
    requires Replied(rs)
  {
    forall f, r :: 0 <= f < |UniqueCells| && 0 <= r < Cells && f * 25 + r < upto && r != UniqueCells[f] ==>
      Known(rs, UniqueCells[f], r)
  }

  /** The filter after the pairs ranked below upto. */
  predicate Progress(computed: seq<seq<int>>, rs: seq<Reply>, upto: int)
  {
    Marks(computed, rs) && Ranked(rs, upto) && Distinct(rs) && Covers(rs, upto)
  }

  /** Each reply carries its search's value and leaf count. */
  predicate Valued(e: Env, rs: seq<Reply>)
    requires EnvOk(e) && Replied(rs)
  {
    forall i :: 0 <= i < |rs| ==>
      Searched(rs[i].value, rs[i].leaves) == ReplyValue(e, UniqueCells[rs[i].first], rs[i].reply)
  }

  /** A pair known before stays known when a reply is added. */
  lemma KnownGrows(rs: seq<Reply>, n: Reply, c: nat, r: nat)
    requires c < Cells && r < Cells && Replied(rs) && Replied(rs + [n]) && Known(rs, c, r)
    ensures Known(rs + [n], c, r)
  {
    var i :| 0 <= i < |rs| && Equivalent(c, r, UniqueCells[rs[i].first], rs[i].reply);
    assert (rs + [n])[i] == rs[i];
  }

  /** Marking the new reply (f, r) on board f keeps the marks in step with the replies. */
  lemma MarkStep(computed: seq<seq<int>>, rs: seq<Reply>, f: nat, r: nat, value: int, leaves: nat)
    requires Marks(computed, rs) && f < |UniqueCells| && r < Cells && r != UniqueCells[f]
    ensures Marks(computed[f := computed[f][r := MINIMIZER]], rs + [Reply(f, r, value, leaves)])
  {
    var computed' := computed[f := computed[f][r := MINIMIZER]];
    var rs' := rs + [Reply(f, r, value, leaves)];
    forall j, x | 0 <= j < |UniqueCells| && 0 <= x < Cells
      ensures (computed'[j][x] == MAXIMIZER <==> x == UniqueCells[j]) &&
        (computed'[j][x] == MINIMIZER <==> exists i :: 0 <= i < |rs'| && rs'[i].first == j && rs'[i].reply == x)
    {
      MarkCell(computed, rs, Reply(f, r, value, leaves), j, x);
    }
  }

  /** Cell x of board j after the new reply n is marked: the minimizer's mark exactly where a reply, old or new, put it. */
  lemma MarkCell(computed: seq<seq<int>>, rs: seq<Reply>, n: Reply, j: nat, x: nat)
    requires Marks(computed, rs) && n.first < |UniqueCells| && n.reply < Cells && n.reply != UniqueCells[n.first]
    requires j < |UniqueCells| && x < Cells
    ensures var computed' := computed[n.first := computed[n.first][n.reply := MINIMIZER]];
      (computed'[j][x] == MAXIMIZER <==> x == UniqueCells[j]) &&
      (computed'[j][x] == MINIMIZER <==> exists i :: 0 <= i < |rs + [n]| && (rs + [n])[i].first == j && (rs + [n])[i].reply == x)
  {
    var rs' := rs + [n];
    if j == n.first && x == n.reply {
      assert rs'[|rs|].first == j && rs'[|rs|].reply == x;
    } else {
      if exists i :: 0 <= i < |rs'| && rs'[i].first == j && rs'[i].reply == x {
        var i :| 0 <= i < |rs'| && rs'[i].first == j && rs'[i].reply == x;
        assert i < |rs| && rs[i] == rs'[i];
      }
      if exists i :: 0 <= i < |rs| && rs[i].first == j && rs[i].reply == x {
        var i :| 0 <= i < |rs| && rs[i].first == j && rs[i].reply == x;
        assert rs'[i] == rs[i];
      }
    }
  }

  /** The state of the opening calculators: the board, the leaf counter, the depth limit, the bias table and the shared line index. */
  class Opener {
    var bd: array<int>
    var leafNodes: int
    var maxDepth: int
    const scores: seq<int>
    const index: LineIndex

    /** The board is 25 cells of marks, and the per-cell lists and the bias table have the evaluator's shapes. */
    ghost predicate Valid()
      reads `bd, bd, `maxDepth, index`quads, index`triplets
    {
      bd.Length == Cells && ValidBoard(bd[..]) && EnvOk(Setting())
    }

    /** The environment the specification functions read. */
    ghost function Setting(): Env
      reads `maxDepth, index`quads, index`triplets
    {
      Env(maxDepth, index.quads, index.triplets, scores, OrderedCells)
    }

    /** main's set-up: the line index built, the depth limit given, an empty board. */
    constructor (maxdepth: int, index: LineIndex, scores: seq<int>)
      requires index.Valid() && |scores| == Cells
      modifies index
      ensures Valid() && fresh(bd) && bd[..] == Empty() && leafNodes == 0
      ensures this.index == index && index.Built() && maxDepth == maxdepth && this.scores == scores
    {
      index.Prepare();
      bd := new int[Cells](_ => UNSET);
      leafNodes := 0;
      maxDepth := maxdepth;
      this.scores := scores;
      this.index := index;
      Search.BuiltIndexShaped(index.quads, index.triplets);
      OrderedCellsPermutation();
    }

    /** The evaluation at the head of alphaBeta on the current board. */
    method Judge(ply: int, c: nat, current: int) returns (stop: bool, value: int)
      requires Valid() && c < Cells
      ensures Verdict(stop, value) == Judgement(Setting(), bd[..], ply, c, current)
    {
      stop, value := DeltaValue(bd, OpeningDelta, ply, c, maxDepth, current, index.quads[c], index.triplets[c], scores);
    }

    /**
     * alphaBeta: returns the value Node specifies, adds its leaves to the
     * counter, and leaves the board as it was.
     */
    method AlphaBeta(ply: int, player: int, alpha: int, beta: int, c: nat, boardValue: int) returns (value: int)
      requires Valid() && c < Cells
      modifies bd, `leafNodes
      ensures Valid() && bd[..] == old(bd[..])
      ensures var o := Node(Setting(), old(bd[..]), ply, player, alpha, beta, c, boardValue);
        value == o.value && leafNodes == old(leafNodes) + o.leaves
      decreases Empties(bd[..]), 3
    {
      var stop, delta := Judge(ply, c, boardValue);
      if stop {
        leafNodes := leafNodes + 1;
        return delta;
      }
      if player != MAXIMIZER && player != MINIMIZER {
        leafNodes := leafNodes + 1;
        return 0;
      }
      value := Sweep(ply, player, alpha, beta, boardValue + delta);
    }

    /** The loop of alphaBeta over the cell order, for the maximizer's or the minimizer's case. */
    method Sweep(ply: int, player: int, alpha: int, beta: int, bv: int) returns (value: int)
      requires Valid() && (player == MAXIMIZER || player == MINIMIZER)
      modifies bd, `leafNodes
      ensures Valid() && bd[..] == old(bd[..])
      ensures var o := Scan(Setting(), old(bd[..]), ply, player, alpha, beta, bv, 0, Start(player), 0);
        value == o.value && leafNodes == old(leafNodes) + o.leaves
      decreases Empties(bd[..]), 2
    {
      ghost var b0 := bd[..];
      ghost var e := Setting();
      ghost var goal := Scan(e, b0, ply, player, alpha, beta, bv, 0, Start(player), 0);
      value := Start(player);
      var a, b := alpha, beta;
      ghost var leaves: nat := 0;
      var k := 0;
      while k < Cells
        invariant 0 <= k <= Cells && bd[..] == b0 && e == Setting() && Valid()
        invariant leafNodes == old(leafNodes) + leaves
        invariant goal == Scan(e, b0, ply, player, a, b, bv, k, value, leaves)
      {
        var done;
        done, value, a, b, leaves := Visit(ply, player, a, b, bv, k, value, leaves, e, b0, goal);
        if done {
          return;
        }
        k := k + 1;
      }
      leafNodes := leafNodes + 1;
    }

    /**
     * The loop's body at place k: an occupied cell is passed over; an
     * empty one is tried and its child's value folded into the best value
     * and the window, a closed window ending the loop with one leaf.
     */
    method Visit(ply: int, player: int, a: int, b: int, bv: int, k: nat, value: int,
                 ghost leaves: nat, ghost e: Env, ghost b0: seq<int>, ghost goal: Searched)
      returns (done: bool, value': int, a': int, b': int, ghost leaves': nat)
      requires Valid() && bd[..] == b0 && e == Setting() && k < Cells
      requires player == MAXIMIZER || player == MINIMIZER
      requires goal == Scan(e, b0, ply, player, a, b, bv, k, value, leaves)
      modifies bd, `leafNodes
      ensures Valid() && bd[..] == b0 && e == Setting()
      ensures done ==> value' == goal.value && leafNodes - old(leafNodes) == goal.leaves - leaves
      ensures !done ==>
        goal == Scan(e, b0, ply, player, a', b', bv, k + 1, value', leaves') &&
        leafNodes - old(leafNodes) == leaves' - leaves
      decreases Empties(bd[..]), 1
    {
      done, value', a', b', leaves' := false, value, a, b, leaves;
      var cell := OrderedCells[k];
      if bd[cell] == UNSET {
        assert goal == Place(e, b0, ply, player, a, b, bv, k, value, leaves);
        var n;
        ghost var child;
        n, child := TryCell(ply, player, a, b, bv, cell);
        assert goal == Step(e, b0, ply, player, a, b, bv, k, value, leaves, child);
        StepCases(e, b0, ply, player, a, b, bv, k, value, leaves, child);
        var cut;
        value', a', b', cut := Search.Engine.Fold(player, n, value, a, b);
        leaves' := leaves + child.leaves;
        if cut {
          leafNodes := leafNodes + 1;
          return true, value', a', b', leaves' + 1;
        }
      }
    }

    /** One empty cell of the loop: the mover's mark goes in, the child is searched, and the cell is cleared again. */
    method TryCell(ply: int, player: int, alpha: int, beta: int, bv: int, cell: nat) returns (n: int, ghost child: Searched)
      requires Valid() && cell < Cells && bd[cell] == UNSET
      requires player == MAXIMIZER || player == MINIMIZER
      modifies bd, `leafNodes
      ensures Valid() && bd[..] == old(bd[..])
      ensures child == Node(Setting(), old(bd[..])[cell := player], ply + 1, -player, alpha, beta, cell, bv)
      ensures n == child.value && leafNodes == old(leafNodes) + child.leaves
      decreases Empties(bd[..]), 0
    {
      ghost var b0 := bd[..];
      bd[cell] := player;
      assert bd[..] == b0[cell := player];
      EmptiesFill(b0, cell, player);
      child := Node(Setting(), bd[..], ply + 1, -player, alpha, beta, cell, bv);
      n := AlphaBeta(ply + 1, -player, alpha, beta, cell, bv);
      bd[cell] := UNSET;
      assert bd[..] == b0;
    }

    /**
     * opening2.go's main loop: each of the six first moves is made, the
     * counter restarts, the minimizer's reply is searched, and the move is
     * taken back. Each result is FirstMove's value with the leaves of that
     * search alone.
     */
    method FirstMoves() returns (results: seq<Searched>)
      requires Valid() && bd[..] == Empty()
      modifies bd, `leafNodes
      ensures Valid() && bd[..] == Empty() && |results| == |UniqueCells|
      ensures forall i :: 0 <= i < |UniqueCells| ==> results[i] == FirstMove(Setting(), UniqueCells[i])
      ensures leafNodes == results[|UniqueCells| - 1].leaves
    {
      ghost var e := Setting();
      results := [];
      var i := 0;
      while i < |UniqueCells|
        invariant 0 <= i <= |UniqueCells| && Valid() && bd[..] == Empty() && e == Setting()
        invariant |results| == i && forall j :: 0 <= j < i ==> results[j] == FirstMove(e, UniqueCells[j])
        invariant i > 0 ==> leafNodes == results[i - 1].leaves
      {
        var found := FirstSearch(UniqueCells[i]);
        results := results + [found];
        i := i + 1;
      }
    }

    /** One pass of that loop: the move is made, the counter restarts, the reply is searched and the move taken back. */
    method FirstSearch(cell: nat) returns (found: Searched)
      requires Valid() && bd[..] == Empty() && cell < Cells
      modifies bd, `leafNodes
      ensures Valid() && bd[..] == Empty() && Setting() == old(Setting())
      ensures found == FirstMove(Setting(), cell) && leafNodes == found.leaves
    {
      bd[cell] := MAXIMIZER;
      assert bd[..] == Empty()[cell := MAXIMIZER];
      leafNodes := 0;
      var val := AlphaBeta(1, MINIMIZER, LOSS, WIN, cell, 0);
      bd[cell] := UNSET;
      assert bd[..] == Empty();
      found := Searched(val, leafNodes);
    }

    /**
     * opening3.go's main loops: for each first move, every other cell as
     * the reply, in row-major order; a pair already covered up to symmetry
     * is skipped; otherwise it is marked and valued. The replies valued are
     * each ReplyValue's result, come in the loops' order, never repeat one
     * another up to symmetry, and cover every (first move, reply) pair up
     * to symmetry.
     */
    method Responses() returns (rs: seq<Reply>)
      requires Valid() && bd[..] == Empty()
      modifies bd, `leafNodes
      ensures Valid() && bd[..] == Empty() && Replied(rs) && Valued(Setting(), rs)
      ensures forall i, j :: 0 <= i < j < |rs| ==> Rank(rs[i]) < Rank(rs[j])
      ensures forall i, j :: 0 <= i < j < |rs| ==>
        !Equivalent(UniqueCells[rs[j].first], rs[j].reply, UniqueCells[rs[i].first], rs[i].reply)
      ensures forall f, r :: 0 <= f < |UniqueCells| && 0 <= r < Cells && r != UniqueCells[f] ==> Known(rs, UniqueCells[f], r)
    {
      ghost var e := Setting();
      var computed := seq(|UniqueCells|, j requires 0 <= j < |UniqueCells| => Empty()[UniqueCells[j] := MAXIMIZER]);
      rs := [];
      var f := 0;
      while f < |UniqueCells|
        invariant 0 <= f <= |UniqueCells| && Valid() && bd[..] == Empty() && e == Setting()
        invariant Progress(computed, rs, f * 25) && Valued(e, rs)
      {
        var r := 0;
        while r < Cells
          invariant 0 <= r <= Cells && Valid() && bd[..] == Empty() && e == Setting()
          invariant Progress(computed, rs, f * 25 + r) && Valued(e, rs)
        {
          computed, rs := Respond(f, r, computed, rs, e);
          r := r + 1;
        }
        f := f + 1;
      }
      assert Covers(rs, |UniqueCells| * 25);
    }

    /** The filter at first move f and reply cell r: the pair is skipped, or marked and valued. */
    method Respond(f: nat, r: nat, computed: seq<seq<int>>, rs: seq<Reply>, ghost e: Env)
      returns (computed': seq<seq<int>>, rs': seq<Reply>)
      requires Valid() && bd[..] == Empty() && e == Setting() && f < |UniqueCells| && r < Cells
      requires Progress(computed, rs, f * 25 + r) && Valued(e, rs)
      modifies bd, `leafNodes
      ensures Valid() && bd[..] == Empty() && e == Setting()
      ensures Progress(computed', rs', f * 25 + r + 1) && Valued(e, rs')
    {
      computed', rs' := computed, rs;
      var c := UniqueCells[f];
      if r == c {
        CoversSkip(rs, f, r);
        return;
      }
      var matched := Matched(computed, c, r);
      CoveredKnown(computed, rs, c, r);
      if matched {
        CoversSkip(rs, f, r);
        return;
      }
      computed' := computed[f := computed[f][r := MINIMIZER]];
      var val := SearchReply(c, r);
      var n := Reply(f, r, val, leafNodes);
      rs' := rs + [n];
      MarkStep(computed, rs, f, r, val, leafNodes);
      Extend(computed', rs, n, e);
    }

    /**
     * One valued pair: the first move c and the reply r are made, the
     * counter restarts, the maximizer's next move is searched with c's bias
     * as board value, and both moves are taken back.
     */
    method SearchReply(c: nat, r: nat) returns (val: int)
      requires Valid() && bd[..] == Empty() && c < Cells && r < Cells && c != r
      modifies bd, `leafNodes
      ensures Valid() && bd[..] == Empty() && Setting() == old(Setting())
      ensures leafNodes >= 0 && Searched(val, leafNodes) == ReplyValue(Setting(), c, r)
    {
      bd[c] := MAXIMIZER;
      bd[r] := MINIMIZER;
      assert bd[..] == Empty()[c := MAXIMIZER][r := MINIMIZER];
      var delta := scores[c];
      leafNodes := 0;
      val := AlphaBeta(2, MAXIMIZER, LOSS, WIN, r, delta);
      bd[c] := UNSET;
      bd[r] := UNSET;
      assert bd[..] == Empty();
    }
  }

  /** Distinct ranks f * 25 + r name distinct pairs. */
  lemma RankUnique(f: int, r: int, f': int, r': int)
    requires 0 <= r < 25 && 0 <= r' < 25 && f * 25 + r == f' * 25 + r'
    ensures f == f' && r == r'
  {
  }

  /** A pair that is the first move's own cell, or already known, is passed with nothing valued. */
  lemma CoversSkip(rs: seq<Reply>, f: nat, r: nat)
    requires Replied(rs) && f < |UniqueCells| && r < Cells && Covers(rs, f * 25 + r)
    requires r == UniqueCells[f] || Known(rs, UniqueCells[f], r)
    ensures Covers(rs, f * 25 + r + 1)
  {
    forall f', r' | 0 <= f' < |UniqueCells| && 0 <= r' < Cells && f' * 25 + r' < f * 25 + r + 1 && r' != UniqueCells[f']
      ensures Known(rs, UniqueCells[f'], r')
    {
      if f' * 25 + r' == f * 25 + r {
        RankUnique(f', r', f, r);
      }
    }
  }

  /** A reply for a pair not known up to symmetry, at the rank the loops have reached, extends the filter past it. */
  lemma Extend(computed: seq<seq<int>>, rs: seq<Reply>, n: Reply, e: Env)
    requires EnvOk(e) && Replied(rs) && Ranked(rs, Rank(n)) && Distinct(rs) && Covers(rs, Rank(n)) && Valued(e, rs)
    requires n.first < |UniqueCells| && n.reply < Cells && n.reply != UniqueCells[n.first]
    requires !Known(rs, UniqueCells[n.first], n.reply)
    requires Searched(n.value, n.leaves) == ReplyValue(e, UniqueCells[n.first], n.reply)
    requires Marks(computed, rs + [n])
    ensures Progress(computed, rs + [n], Rank(n) + 1) && Valued(e, rs + [n])
  {
    ExtendCovers(rs, n);
    ExtendDistinct(rs, n);
    var rs' := rs + [n];
    assert forall i :: 0 <= i < |rs| ==> rs'[i] == rs[i];
  }

  lemma ExtendCovers(rs: seq<Reply>, n: Reply)
    requires Replied(rs) && Replied(rs + [n]) && Covers(rs, Rank(n))
    requires n.first < |UniqueCells| && n.reply < Cells
    ensures Covers(rs + [n], Rank(n) + 1)
  {
    var rs' := rs + [n];
    forall f, r | 0 <= f < |UniqueCells| && 0 <= r < Cells && f * 25 + r < Rank(n) + 1 && r != UniqueCells[f]
      ensures Known(rs', UniqueCells[f], r)
    {
      if f * 25 + r < Rank(n) {
        KnownGrows(rs, n, UniqueCells[f], r);
      } else {
        RankUnique(f, r, n.first, n.reply);
        KnownSelf(rs', |rs|);
      }
    }
  }

  /** Each valued reply is known, through the identity. */
  lemma KnownSelf(rs: seq<Reply>, k: nat)
    requires Replied(rs) && k < |rs|
    ensures Known(rs, UniqueCells[rs[k].first], rs[k].reply)
  {
    TransformIdentity(UniqueCells[rs[k].first]);
    TransformIdentity(rs[k].reply);
    assert Equivalent(UniqueCells[rs[k].first], rs[k].reply, UniqueCells[rs[k].first], rs[k].reply);
  }

  lemma ExtendDistinct(rs: seq<Reply>, n: Reply)
    requires Replied(rs) && Replied(rs + [n]) && Distinct(rs)
    requires n.first < |UniqueCells| && n.reply < Cells
    requires !Known(rs, UniqueCells[n.first], n.reply)
    ensures Distinct(rs + [n])
  {
    var rs' := rs + [n];
    forall i, j | 0 <= i < j < |rs'|
      ensures !Equivalent(UniqueCells[rs'[j].first], rs'[j].reply, UniqueCells[rs'[i].first], rs'[i].reply)
    {
      assert rs'[i] == rs[i];
      if j < |rs| {
        assert rs'[j] == rs[j];
      }
    }
  }
}

/**
 * The plain Monte Carlo player of mcts3.go. Its tree nodes carry a score
 * (wins over visits, or 1.0 for a winning expansion) and the winner of the
 * position they lead to; untried moves are removed by moving the last one
 * into the gap. The player's own board is a Go array value.
 */
module Mcts3 {
  import opened Lines
  import opened Referee
  import opened Mcts

  /**
   * cutElement(&ary, v) on the slice's value: the first v is overwritten
   * with the last element and the slice loses its last slot; no change
   * when v does not occur.
   */
  function Cut(ary: seq<int>, v: int): seq<int>
  {
    var i := Position(ary, v);
    if i < |ary| then ary[i := ary[|ary| - 1]][..|ary| - 1] else ary
  }

  /** The slot-filling cut at index i, spelt out: the elements before i, the last one, then those between. */
  lemma CutAt(ary: seq<int>, i: nat)
    requires i < |ary|
    ensures var n := |ary|;
      ary[i := ary[n - 1]][..n - 1] == if i == n - 1 then ary[..i] else ary[..i] + [ary[n - 1]] + ary[i + 1..n - 1]
  {
  }

  /**
   * Cut removes exactly one v and keeps every other element (as a
   * multiset); it changes nothing when v is absent.
   */
  lemma CutMeaning(ary: seq<int>, v: int)
    ensures v in ary ==> |Cut(ary, v)| == |ary| - 1 && multiset(Cut(ary, v)) + multiset{v} == multiset(ary)
    ensures v !in ary ==> Cut(ary, v) == ary
  {
    if v in ary {
      FillGap(ary, Position(ary, v));
    }
  }

  /** Filling slot i with the last element and dropping the last slot loses ary[i] and nothing else. */
  lemma FillGap(ary: seq<int>, i: nat)
    requires i < |ary|
    ensures multiset(ary[i := ary[|ary| - 1]][..|ary| - 1]) + multiset{ary[i]} == multiset(ary)
  {
    var n := |ary|;
    CutAt(ary, i);
    var front := ary[..i];
    if i == n - 1 {
      assert ary == front + [ary[i]];
    } else {
      var middle, last := ary[i + 1..n - 1], ary[n - 1];
      assert ary == front + [ary[i]] + middle + [last];
      CutMiddle(front, ary[i], middle, last);
    }
  }

  /** Moving the last element into v's slot loses v and nothing else. */
  lemma CutMiddle(front: seq<int>, v: int, middle: seq<int>, last: int)
    ensures multiset(front + [last] + middle) + multiset{v} == multiset(front + [v] + middle + [last])
  {
    calc {
      multiset(front + [v] + middle + [last]);
      multiset(front) + multiset{v} + multiset(middle) + multiset{last};
      multiset(front) + multiset{last} + multiset(middle) + multiset{v};
      multiset(front + [last] + middle) + multiset{v};
    }
  }

  /** Cut disorders only the gap: every other slot below the new length keeps its element. */
  lemma CutKeepsPlaces(ary: seq<int>, v: int)
    requires v in ary
    ensures |Cut(ary, v)| == |ary| - 1
    ensures forall j :: 0 <= j < |ary| - 1 && j != Position(ary, v) ==> Cut(ary, v)[j] == ary[j]
    ensures Position(ary, v) < |ary| - 1 ==> Cut(ary, v)[Position(ary, v)] == ary[|ary| - 1]
  {
  }

  /** cutElement's loop: stops at the first v and cuts it. */
  method CutElement(ary: seq<int>, v: int) returns (r: seq<int>)
    ensures r == Cut(ary, v)
  {
    r := ary;
    var i := 0;
    while i < |ary|
      invariant 0 <= i <= |ary| && r == ary
      invariant forall j :: 0 <= j < i ==> ary[j] != v
    {
      if ary[i] == v {
        var a := ary[i := ary[|ary| - 1]];
        r := a[..|a| - 1];
        return;
      }
      i := i + 1;
    }
  }

  /** RemainingMoves as written: make([]int, 25) holds 25 zeros before the empty cells are appended. */
  function WrittenRemaining(b: seq<int>): seq<int>
    requires |b| == Cells
  {
    seq(Cells, _ => 0) + Vacancies(b, Cells)
  }

  /** The loop of RemainingMoves, appending the empty cells in order to its starting slice. */
  method AppendVacancies(board: seq<int>, start: seq<int>) returns (mvs: seq<int>)
    requires |board| == Cells
    ensures mvs == start + Vacancies(board, Cells)
  {
    mvs := start;
    var i := 0;
    while i < Cells
      invariant 0 <= i <= Cells && mvs == start + Vacancies(board, i)
    {
      if board[i] == UNSET {
        mvs := mvs + [i];
      }
      i := i + 1;
    }
  }

  /** RemainingMoves as the code has it: 25 zeros, then the empty cells. */
  method RemainingMovesAsWritten(board: seq<int>) returns (mvs: seq<int>)
    requires |board| == Cells
    ensures mvs == WrittenRemaining(board)
  {
    mvs := AppendVacancies(board, seq(Cells, _ => 0));
  }

  /**
   * The documented RemainingMoves, from an empty slice: every move left
   * unmade, once each and in ascending order, and nothing else.
   */
  method RemainingMoves(board: seq<int>) returns (mvs: seq<int>)
    requires |board| == Cells
    ensures mvs == Vacancies(board, Cells)
    ensures forall c: int :: c in mvs <==> 0 <= c < Cells && board[c] == UNSET
    ensures forall i, j :: 0 <= i < j < |mvs| ==> mvs[i] < mvs[j]
  {
    VacanciesMeaning(board, Cells);
    mvs := AppendVacancies(board, []);
  }

  /**
   * The slice RemainingMoves returns offers cell 0 to the playout even when
   * cell 0 is taken, and is 25 entries longer than the moves left unmade.
   */
  lemma RemainingOffersTakenCell(b: seq<int>)
    requires |b| == Cells && b[0] != UNSET
    ensures 0 in WrittenRemaining(b) && 0 !in Vacancies(b, Cells)
    ensures |WrittenRemaining(b)| == Cells + |Vacancies(b, Cells)|
  {
    VacanciesMeaning(b, Cells);
    assert WrittenRemaining(b)[0] == 0;
  }

  /** A tree node; the move, its player and the parent are fixed when the node is made. */
  class Node {
    const move: int
    const player: int
    const parent: Node?
    var childNodes: seq<Node>
    var wins: real
    var visits: real
    var score: real
    var untriedMoves: seq<int>
    var winner: int

    /** &Node{move, parent, player}: every other field zero. */
    constructor (move: int, parent: Node?, player: int)
      ensures this.move == move && this.parent == parent && this.player == player
      ensures childNodes == [] && untriedMoves == [] && wins == 0.0 && visits == 0.0 && score == 0.0 && winner == UNSET
    {
      this.move := move;
      this.parent := parent;
      this.player := player;
      childNodes, untriedMoves := [], [];
      wins, visits, score := 0.0, 0.0, 0.0;
      winner := UNSET;
    }

    /**
     * AddChild(mv, player): a new child for mv by player, with this node as
     * parent, is appended to the children, and mv is cut from the untried
     * moves.
     */
    method AddChild(mv: int, player: int) returns (ch: Node)
      modifies this
      ensures fresh(ch) && ch.move == mv && ch.parent == this && ch.player == player
      ensures ch.childNodes == [] && ch.untriedMoves == [] && ch.wins == 0.0 && ch.visits == 0.0
      ensures ch.score == 0.0 && ch.winner == UNSET
      ensures childNodes == old(childNodes) + [ch] && untriedMoves == Cut(old(untriedMoves), mv)
      ensures wins == old(wins) && visits == old(visits) && score == old(score) && winner == old(winner)
    {
      ch := new Node(mv, this, player);
      childNodes := childNodes + [ch];
      untriedMoves := CutElement(untriedMoves, mv);
    }

    /** selectBestChild: the first child whose score no other child beats. */
    method SelectBestChild() returns (best: Node)
      requires childNodes != []
      ensures exists i :: 0 <= i < |childNodes| && best == childNodes[i] &&
                          forall j :: 0 <= j < i ==> childNodes[j].score < best.score
      ensures forall j :: 0 <= j < |childNodes| ==> childNodes[j].score <= best.score
    {
      best := childNodes[0];
      var bestScore := childNodes[0].score;
      ghost var at := 0;
      var k := 0;
      while k < |childNodes|
        invariant 0 <= k <= |childNodes| && 0 <= at < |childNodes| && at <= k
        invariant best == childNodes[at] && bestScore == best.score
        invariant forall j :: 0 <= j < at ==> childNodes[j].score < bestScore
        invariant forall j :: 0 <= j < k ==> childNodes[j].score <= bestScore
      {
        var c := childNodes[k];
        if c.score > bestScore {
          best, bestScore, at := c, c.score, k;
        }
        k := k + 1;
      }
    }
  }

  /**
   * bestMove's root: player MINIMIZER (the human moved last) and the empty
   * cells of the board, in ascending order, as its untried moves.
   */
  method NewRoot(board: seq<int>) returns (root: Node)
    requires |board| == Cells
    ensures fresh(root) && root.player == MINIMIZER && root.parent == null && root.childNodes == []
    ensures root.untriedMoves == Vacancies(board, Cells)
    ensures root.wins == 0.0 && root.visits == 0.0 && root.score == 0.0 && root.winner == UNSET
  {
    root := new Node(0, null, MINIMIZER);
    var moves := [];
    var i := 0;
    while i < Cells
      invariant 0 <= i <= Cells && moves == Vacancies(board, i)
    {
      if board[i] == UNSET {
        moves := moves + [i];
      }
      i := i + 1;
    }
    root.untriedMoves := moves;
  }

  /**
   * The expansion step: the next player takes the untried move at index k
   * (chosen at random in the source), a child records it, and the child's
   * winner is what findWinner sees; a win for MAXIMIZER scores 1.0 and
   * counts as a win for the iteration.
   */
  method Expand(node: Node, k: nat, board: seq<int>, player: int)
    returns (child: Node, board': seq<int>, player': int, win: bool)
    requires |board| == Cells && k < |node.untriedMoves| && 0 <= node.untriedMoves[k] < Cells
    modifies node
    ensures player' == -player && board' == board[old(node.untriedMoves[k]) := player']
    ensures fresh(child) && child.parent == node && child.move == old(node.untriedMoves[k]) && child.player == player'
    ensures node.childNodes == old(node.childNodes) + [child]
    ensures node.untriedMoves == Cut(old(node.untriedMoves), child.move)
    ensures child.winner == TableWinner(board') && win == (child.winner == MAXIMIZER)
    ensures child.score == if win then 1.0 else 0.0
  {
    var mv := node.untriedMoves[k];
    player' := -player;
    board' := board[mv := player'];
    child := node.AddChild(mv, player');
    child.winner := Mcts.FindWinner(board');
    win := false;
    if child.winner == MAXIMIZER {
      child.score := 1.0;
      win := true;
    }
  }

  /**
   * The parent chain from a node to the root: each entry's parent is the
   * next, the root has none, and no node repeats.
   */
  ghost predicate Chain(path: seq<Node>)
  {
    |path| > 0 && path[|path| - 1].parent == null &&
    (forall i :: 0 <= i < |path| - 1 ==> path[i].parent == path[i + 1]) &&
    (forall i, j :: 0 <= i < j < |path| ==> path[i] != path[j])
  }

  /**
   * One node of back-propagation: one more visit; a node that does not
   * decide the game also gains the iteration's win increment and rescores
   * as wins over visits.
   */
  method Credit(n: Node, winIncr: real)
    requires n.visits >= 0.0
    modifies n
    ensures n.visits == old(n.visits) + 1.0
    ensures old(n.winner) == UNSET ==> n.wins == old(n.wins) + winIncr && n.score == n.wins / n.visits
    ensures old(n.winner) != UNSET ==> n.wins == old(n.wins) && n.score == old(n.score)
    ensures n.winner == old(n.winner) && n.childNodes == old(n.childNodes) && n.untriedMoves == old(n.untriedMoves)
  {
    n.visits := n.visits + 1.0;
    if n.winner == UNSET {
      n.wins := n.wins + winIncr;
      n.score := n.wins / n.visits;
    }
  }

  /** Back-propagation: every node from the leaf up to the root is credited once. */
  method BackPropagate(node: Node, winIncr: real, ghost path: seq<Node>)
    requires Chain(path) && path[0] == node
    requires forall i :: 0 <= i < |path| ==> path[i].visits >= 0.0
    modifies set i | 0 <= i < |path| :: path[i]
    ensures forall i :: 0 <= i < |path| ==>
      path[i].visits == old(path[i].visits) + 1.0 &&
      path[i].winner == old(path[i].winner) && path[i].childNodes == old(path[i].childNodes) &&
      (old(path[i].winner) == UNSET ==>
        path[i].wins == old(path[i].wins) + winIncr && path[i].score == path[i].wins / path[i].visits) &&
      (old(path[i].winner) != UNSET ==> path[i].wins == old(path[i].wins) && path[i].score == old(path[i].score))
  {
    var n: Node? := node;
    ghost var k := 0;
    while n != null
      invariant 0 <= k <= |path| && (k < |path| ==> n == path[k]) && (k == |path| ==> n == null)
      invariant forall i :: 0 <= i < k ==>
        path[i].visits == old(path[i].visits) + 1.0 &&
        path[i].winner == old(path[i].winner) && path[i].childNodes == old(path[i].childNodes) &&
        (old(path[i].winner) == UNSET ==>
          path[i].wins == old(path[i].wins) + winIncr && path[i].score == path[i].wins / path[i].visits) &&
        (old(path[i].winner) != UNSET ==> path[i].wins == old(path[i].wins) && path[i].score == old(path[i].score))
      invariant forall i :: k <= i < |path| ==>
        path[i].visits == old(path[i].visits) && path[i].wins == old(path[i].wins) &&
        path[i].score == old(path[i].score) && path[i].winner == old(path[i].winner) &&
        path[i].childNodes == old(path[i].childNodes)
      decreases |path| - k
    {
      Credit(n, winIncr);
      n := n.parent;
      k := k + 1;
    }
  }

  /** The MCTS3 player: its own board, who moved last, and the iteration budget. */
  class Player {
    var board: seq<int>
    var playerJustMoved: int
    var iterations: int

    /** New: an empty board and 500000 iterations. */
    constructor ()
      ensures board == EmptyBoard && playerJustMoved == UNSET && iterations == 500000
    {
      board := EmptyBoard;
      playerJustMoved := UNSET;
      iterations := 500000;
    }

    /** MakeMove(x, y, player): the mark goes into cell (x, y) and player moved last. */
    method MakeMove(x: int, y: int, player: int)
      requires |board| == Cells && 0 <= x < 5 && 0 <= y < 5
      modifies this
      ensures board == old(board)[Idx(x, y) := player] && playerJustMoved == player && iterations == old(iterations)
    {
      board := board[Idx(x, y) := player];
      playerJustMoved := player;
    }

    /** ChooseMove after the search: the chosen cell gets MAXIMIZER's mark and is returned as coordinates. */
    method ChooseMove(best: nat) returns (x: int, y: int)
      requires |board| == Cells && best < Cells
      modifies this
      ensures board == old(board)[best := MAXIMIZER] && playerJustMoved == old(playerJustMoved)
      ensures Idx(x, y) == best && 0 <= x < 5 && 0 <= y < 5
    {
      board := board[best := MAXIMIZER];
      x := best / 5;
      y := best % 5;
    }

    /** FindWinner on the player's own board. */
    method FindWinner() returns (w: int)
      requires |board| == Cells
      ensures w == TableWinner(board)
      ensures ValidBoard(board) ==> (w == UNSET <==> Winner(board) == UNSET)
    {
      w := Mcts.FindWinner(board);
    }
  }
}

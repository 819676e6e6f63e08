/**
 * The search tree of the Monte Carlo engines in mcts.go and squavam.go, and
 * the MCTS player's bookkeeping around it. A Node records the move that led
 * to it, the player who made that move, its parent and children, its
 * win/visit tallies and the moves not yet expanded. The engine keeps the
 * game state and the node of the current position, which follows the moves
 * actually played so the tree can be reused.
 */
module MctsTree {
  import opened Lines
  import opened Referee
  import opened Mcts

  /** The moves GetMoves offers on board b: none once a line is complete, else the empty cells in ascending order. */
  function Available(b: seq<int>): seq<nat>
    requires |b| == Cells
  {
    if Over(b) then [] else Vacancies(b, Cells)
  }

  /**
   * s with its first occurrence of m spliced out, the rest in order; s
   * itself when m does not occur.
   */
  function Without(s: seq<int>, m: int): (r: seq<int>)
    ensures m in s ==> |r| == |s| - 1 && multiset(r) + multiset{m} == multiset(s)
    ensures m !in s ==> r == s
  {
    var i := Position(s, m);
    if i < |s| then
      assert s == s[..i] + [m] + s[i + 1..];
      s[..i] + s[i + 1..]
    else s
  }

  /** The moves of a list of nodes, in order. */
  function MovesOf(ns: seq<Node>): (r: seq<int>)
    ensures |r| == |ns| && forall i :: 0 <= i < |ns| ==> r[i] == ns[i].move
  {
    seq(|ns|, i requires 0 <= i < |ns| => ns[i].move)
  }

  /** The first of ns whose move is m, |ns| when there is none. */
  function FirstWith(ns: seq<Node>, m: int): (i: nat)
    ensures i <= |ns| && (i < |ns| ==> ns[i].move == m)
    ensures forall j :: 0 <= j < i ==> ns[j].move != m
  {
    Position(MovesOf(ns), m)
  }

  /**
   * AddChild's loop: the first element equal to move is spliced out and
   * the search stops; nothing changes when move does not occur.
   */
  method Splice(moves: seq<int>, move: int) returns (r: seq<int>)
    ensures r == Without(moves, move)
    ensures move in moves ==> multiset(r) + multiset{move} == multiset(moves)
    ensures move !in moves ==> r == moves
  {
    r := moves;
    var i := 0;
    while i < |moves|
      invariant 0 <= i <= |moves| && r == moves
      invariant forall j :: 0 <= j < i ==> moves[j] != move
    {
      if moves[i] == move {
        r := moves[..i] + moves[i + 1..];
        return;
      }
      i := i + 1;
    }
  }

  /**
   * A node of the tree. The move and the player who made it never change
   * once the node exists.
   */
  class Node {
    const move: int
    var parentNode: Node?
    var childNodes: seq<Node>
    var wins: real
    var visits: real
    var untriedMoves: seq<int>
    const playerJustMoved: int

    /**
     * NewNode: no children and no tallies yet; the untried moves are what
     * the state's GetMoves offers, and the player is the state's.
     */
    constructor (move: int, parent: Node?, state: GameState)
      requires state.Valid()
      ensures this.move == move && parentNode == parent && childNodes == [] && wins == 0.0 && visits == 0.0
      ensures untriedMoves == Available(state.board) && playerJustMoved == state.playerJustMoved
    {
      var moves, _ := state.GetMoves();
      this.move := move;
      parentNode := parent;
      childNodes := [];
      wins, visits := 0.0, 0.0;
      untriedMoves := moves;
      playerJustMoved := state.playerJustMoved;
    }

    /**
     * AddChild(move, st): move leaves the untried moves and a new node for
     * it, made from st with this node as parent, joins the children. When
     * move was untried, untried moves and children's moves together are
     * the same multiset as before.
     */
    method AddChild(move: int, st: GameState) returns (n: Node)
      requires st.Valid()
      modifies this
      ensures fresh(n) && n.move == move && n.parentNode == this && n.childNodes == []
      ensures n.wins == 0.0 && n.visits == 0.0
      ensures n.untriedMoves == Available(st.board) && n.playerJustMoved == st.playerJustMoved
      ensures untriedMoves == Without(old(untriedMoves), move) && childNodes == old(childNodes) + [n]
      ensures parentNode == old(parentNode) && wins == old(wins) && visits == old(visits)
      ensures move in old(untriedMoves) ==>
        multiset(untriedMoves) + multiset(MovesOf(childNodes)) ==
        multiset(old(untriedMoves)) + multiset(MovesOf(old(childNodes)))
    {
      untriedMoves := Splice(untriedMoves, move);
      n := new Node(move, this, st);
      childNodes := childNodes + [n];
      assert MovesOf(childNodes) == MovesOf(old(childNodes)) + [move];
    }

    /** Update(result): one more visit, result more wins. */
    method Update(result: real)
      modifies this
      ensures visits == old(visits) + 1.0 && wins == old(wins) + result
      ensures parentNode == old(parentNode) && childNodes == old(childNodes) && untriedMoves == old(untriedMoves)
    {
      visits := visits + 1.0;
      wins := wins + result;
    }
  }

  /**
   * The MCTS player of mcts.go: its game state, the iteration budget, the
   * node of the current position (none before the first search) and the
   * exploration constant.
   */
  class Engine {
    const game: GameState
    var iterations: int
    var movesNode: Node?
    var uctk: real

    /** New: a fresh game, a million iterations, no tree yet, UCTK 1.0. */
    constructor ()
      ensures fresh(game) && game.Valid() && game.board == EmptyBoard && game.playerJustMoved == MINIMIZER
      ensures iterations == 1000000 && movesNode == null && uctk == 1.0
    {
      game := new GameState(true);
      iterations := 1000000;
      movesNode := null;
      uctk := 1.0;
    }

    /** The one child updateMoves may re-root on: the first child of movesNode made by m, if any. */
    function Reached(m: int): set<object>
      reads this, movesNode
    {
      if movesNode == null then {}
      else
        var i := FirstWith(movesNode.childNodes, m);
        if i < |movesNode.childNodes| then {movesNode.childNodes[i]} else {}
    }

    /**
     * updateMoves(m): when the current node has a child made by m, the
     * first such child becomes the current node and loses its parent;
     * otherwise nothing changes.
     */
    method UpdateMoves(m: int)
      modifies this`movesNode, Reached(m)
      ensures old(movesNode) == null ==> movesNode == null
      ensures old(movesNode) != null ==>
        var kids := old(movesNode.childNodes);
        var i := FirstWith(kids, m);
        (i < |kids| ==> movesNode == kids[i] && movesNode.parentNode == null) &&
        (i == |kids| ==> movesNode == old(movesNode))
    {
      if movesNode != null {
        var kids := movesNode.childNodes;
        var k := 0;
        while k < |kids|
          invariant 0 <= k <= |kids| && movesNode == old(movesNode)
          invariant forall j :: 0 <= j < k ==> kids[j].move != m
        {
          var child := kids[k];
          if child.move == m {
            assert FirstWith(kids, m) == k;
            movesNode := child;
            movesNode.parentNode := null;
            return;
          }
          k := k + 1;
        }
      }
    }

    /**
     * MakeMove(x, y, player): the mark goes into cell (x, y), player is
     * the one who just moved, and the tree follows the move.
     */
    method MakeMove(x: int, y: int, player: int)
      requires game.Valid() && 0 <= x < 5 && 0 <= y < 5
      modifies game, this`movesNode, Reached(Idx(x, y))
      ensures game.Valid() && game.board == old(game.board)[Idx(x, y) := player] && game.playerJustMoved == player
      ensures game.cachedResults == old(game.cachedResults)
      ensures old(movesNode) == null ==> movesNode == null
      ensures old(movesNode) != null ==>
        var kids := old(movesNode.childNodes);
        var i := FirstWith(kids, Idx(x, y));
        (i < |kids| ==> movesNode == kids[i] && movesNode.parentNode == null) &&
        (i == |kids| ==> movesNode == old(movesNode))
    {
      game.board := game.board[Idx(x, y) := player];
      game.playerJustMoved := player;
      UpdateMoves(Idx(x, y));
    }

    /**
     * ChooseMove after the search: the node UCT picked becomes the current
     * node without a parent, its move is played for the side to move, and
     * the move is returned as coordinates.
     */
    method ChooseMove(best: Node) returns (x: int, y: int)
      requires game.Valid() && 0 <= best.move < Cells
      modifies this`movesNode, best`parentNode, game
      ensures movesNode == best && best.parentNode == null
      ensures game.Valid() && game.playerJustMoved == -old(game.playerJustMoved)
      ensures game.board == old(game.board)[best.move := game.playerJustMoved]
      ensures Idx(x, y) == best.move && 0 <= x < 5 && 0 <= y < 5
    {
      movesNode := best;
      movesNode.parentNode := null;
      var move := movesNode.move;
      game.DoMove(move);
      x := move / 5;
      y := move % 5;
    }

    /** FindWinner on the engine's board. */
    method FindWinner() returns (w: int)
      requires game.Valid()
      ensures w == TableWinner(game.board)
      ensures ValidBoard(game.board) ==> (w == UNSET <==> Winner(game.board) == UNSET)
    {
      w := Mcts.FindWinner(game.board);
    }
  }
}

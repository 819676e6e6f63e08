/**
 * The game state and tree node of the Python Monte Carlo player
 * (squava2.py). The board is a Python list of 25 marks, modelled as an
 * array; Clone copies it. GetMoves walks every cell, and GetResult walks
 * the rows of every cell without regard to occupancy; the per-cell tables
 * are the Go engines' tables.
 */
module MctsPy {
  import opened Lines
  import opened Referee
  import opened Mcts
  import opened MctsTree

  /** GetMoves' answer on board b: none once a listed line through an occupied cell is complete, else the empty cells. */
  function Moves(b: seq<int>): seq<nat>
    requires |b| == Cells
  {
    TablesShaped();
    if OverOn(b, AllCells) then [] else Vacancies(b, Cells)
  }

  /** The quads GetResult examines: the rows of every cell, occupied or not. */
  function PyQuads(b: seq<int>): (r: seq<Line>)
    requires |b| == Cells
    ensures LinesOk(r)
  {
    TablesShaped();
    Scanned(b, WinningQuads, AllCells, false)
  }

  /** The triplets GetResult examines when no quad is complete. */
  function PyTriplets(b: seq<int>): (r: seq<Line>)
    requires |b| == Cells
    ensures LinesOk(r)
  {
    TablesShaped();
    Scanned(b, LosingTriplets, AllCells, false)
  }

  /** Every cell is listed in AllCells, the important ones included. */
  lemma AllCellsListed()
    ensures OnBoard(AllCells) && forall c :: c in ImportantCells ==> c in AllCells
  {
    TablesShaped();
    ImportantCellsListed();
  }

  /**
   * On a valid board the Python GetMoves is the Go GetMoves: no moves
   * exactly when someone has won, else the empty cells.
   */
  lemma MovesMeaning(b: seq<int>)
    requires ValidBoard(b)
    ensures Moves(b) == Available(b)
    ensures Moves(b) == [] <==> Winner(b) != UNSET || forall c :: 0 <= c < Cells ==> b[c] != UNSET
  {
    AllCellsListed();
    OverMeaning(b, AllCells);
    OverMeaning(b, ImportantCells);
    VacanciesMeaning(b, Cells);
  }

  class SquavaState {
    var playerJustMoved: int
    var board: array<int>

    ghost predicate Valid()
      reads this
    {
      board.Length == Cells
    }

    /** A new game: player 2 (-1) "just moved" and all 25 cells are empty. */
    constructor ()
      ensures Valid() && fresh(board) && board[..] == EmptyBoard && playerJustMoved == MINIMIZER
    {
      playerJustMoved := MINIMIZER;
      board := new int[Cells](_ => UNSET);
    }

    /** Clone: a new state with the same player and a copy of the board list, shared with nothing. */
    method Clone() returns (st: SquavaState)
      requires Valid()
      ensures fresh(st) && fresh(st.board) && st.Valid()
      ensures st.board[..] == board[..] && st.playerJustMoved == playerJustMoved
    {
      st := new SquavaState();
      st.playerJustMoved := playerJustMoved;
      var src := board;
      var copy := new int[Cells](i requires 0 <= i < Cells reads src => src[i]);
      st.board := copy;
    }

    /** DoMove: the other player moves; its mark goes into the cell. */
    method DoMove(move: nat)
      requires Valid() && move < Cells
      modifies this, board
      ensures Valid() && board == old(board) && playerJustMoved == -old(playerJustMoved)
      ensures board[..] == old(board[..])[move := playerJustMoved]
    {
      playerJustMoved := -playerJustMoved;
      board[move] := playerJustMoved;
    }

    /**
     * GetMoves: the cells in order, an empty cell collected, an occupied
     * one having its quads and then its triplets checked; a complete line
     * ends the walk with no moves.
     */
    method GetMoves() returns (moves: seq<nat>)
      requires Valid()
      ensures moves == Moves(board[..])
    {
      TablesShaped();
      var b := board[..];
      moves := [];
      var i := 0;
      assert AllCells[0..] == AllCells;
      while i < Cells
        invariant 0 <= i <= Cells && OnBoard(AllCells[i..])
        invariant moves == Vacancies(b, i)
        invariant OverOn(b, AllCells) <==> OverOn(b, AllCells[i..])
      {
        var over := Inspect(b, i);
        if over {
          return [];
        }
        if b[i] == UNSET {
          moves := moves + [i];
        }
        i := i + 1;
      }
      assert AllCells[Cells..] == [];
    }

    /**
     * GetResult(playerjm): the rows of every cell, quads first and then
     * triplets; the first complete line decides, a quad 1.0 for its owner,
     * a triplet 0.0 for its owner. failed models the assertion that fails
     * when no line is complete (PythonVerdict relates both to the referee).
     */
    method GetResult(playerjm: int) returns (r: real, failed: bool)
      requires Valid()
      ensures failed == !Decided(board[..], PyQuads(board[..]), PyTriplets(board[..]))
      ensures !failed ==> r == Outcome(board[..], PyQuads(board[..]), PyTriplets(board[..]), playerjm)
    {
      TablesShaped();
      var b := board[..];
      failed := false;
      var q := ScanRows(b, WinningQuads, AllCells, false);
      if q == 4 || q == -4 {
        r := if q == 4 * playerjm then 1.0 else 0.0;
        return;
      }
      var t := ScanRows(b, LosingTriplets, AllCells, false);
      if t == 3 || t == -3 {
        r := if t == 3 * playerjm then 0.0 else 1.0;
        return;
      }
      r, failed := 0.0, true;
    }
  }

  /**
   * GetMoves at cell i: an occupied cell's quads, then its triplets, are
   * checked for a complete line; the walk from i on ends early exactly
   * when that check or a later one succeeds.
   */
  method Inspect(b: seq<int>, i: nat) returns (over: bool)
    requires |b| == Cells && i < Cells
    ensures OnBoard(AllCells[i..]) && OnBoard(AllCells[i + 1..]) && RowsShaped(WinningQuads) && RowsShaped(LosingTriplets)
    ensures over <==> b[i] != UNSET && (AnyComplete(b, WinningQuads[i]) || AnyComplete(b, LosingTriplets[i]))
    ensures OverOn(b, AllCells[i..]) <==> over || OverOn(b, AllCells[i + 1..])
  {
    TablesShaped();
    AllCellsInOrder();
    ScannedStep(b, WinningQuads, AllCells, true, i);
    ScannedStep(b, LosingTriplets, AllCells, true, i);
    over := false;
    if b[i] != UNSET {
      FirstSumZero(b, WinningQuads[i]);
      FirstSumZero(b, LosingTriplets[i]);
      var q := FirstComplete(b, WinningQuads[i]);
      if q != 0 {
        return true;
      }
      var t := FirstComplete(b, LosingTriplets[i]);
      over := t != 0;
    }
  }

  /**
   * The Python GetResult against the referee, on a valid board: it finds
   * a complete line exactly when someone has won, and with single owners
   * it answers 1.0 exactly for the winner.
   */
  lemma PythonVerdict(b: seq<int>, pjm: int)
    requires ValidBoard(b)
    ensures LinesOk(Quads) && LinesOk(Triplets)
    ensures var qs, ts := PyQuads(b), PyTriplets(b);
      (Decided(b, qs, ts) <==> Winner(b) != UNSET) &&
      (Unanimous(b, Quads) && Unanimous(b, Triplets) && Decided(b, qs, ts) && (pjm == MAXIMIZER || pjm == MINIMIZER) ==>
        Outcome(b, qs, ts, pjm) == if Winner(b) == pjm then 1.0 else 0.0)
  {
    AllCellsListed();
    Verdict(b, AllCells, false, pjm);
  }

  /** A node of the Python tree; move and player are fixed when it is made. */
  class Node {
    const move: int
    var parentNode: Node?
    var childNodes: seq<Node>
    var wins: real
    var visits: real
    var untriedMoves: seq<int>
    const playerJustMoved: int

    /** Node(move, parent, state): the state's moves untried, its player recorded, no children or tallies. */
    constructor (move: int, parent: Node?, state: SquavaState)
      requires state.Valid()
      ensures this.move == move && parentNode == parent && childNodes == [] && wins == 0.0 && visits == 0.0
      ensures untriedMoves == Moves(state.board[..]) && playerJustMoved == state.playerJustMoved
    {
      var moves := state.GetMoves();
      this.move := move;
      parentNode := parent;
      childNodes := [];
      wins, visits := 0.0, 0.0;
      untriedMoves := moves;
      playerJustMoved := state.playerJustMoved;
    }

    /** The moves of the children, in order. */
    ghost function ChildMoves(): (r: seq<int>)
      reads this
      ensures |r| == |childNodes|
    {
      seq(|childNodes|, i requires 0 <= i < |childNodes| reads this => childNodes[i].move)
    }

    /**
     * AddChild(m, s): a node for m made from s with this node as parent
     * joins the children and the first m leaves the untried moves (list
     * remove, which raises when m is absent). Untried moves and children's
     * moves together stay the same multiset.
     */
    method AddChild(m: int, s: SquavaState) returns (n: Node)
      requires s.Valid() && m in untriedMoves
      modifies this
      ensures fresh(n) && n.move == m && n.parentNode == this && n.childNodes == []
      ensures n.wins == 0.0 && n.visits == 0.0
      ensures n.untriedMoves == Moves(s.board[..]) && n.playerJustMoved == s.playerJustMoved
      ensures untriedMoves == Without(old(untriedMoves), m) && childNodes == old(childNodes) + [n]
      ensures |untriedMoves| == |old(untriedMoves)| - 1
      ensures multiset(untriedMoves) + multiset(ChildMoves()) == multiset(old(untriedMoves)) + multiset(old(ChildMoves()))
      ensures parentNode == old(parentNode) && wins == old(wins) && visits == old(visits)
    {
      n := new Node(m, this, s);
      untriedMoves := Splice(untriedMoves, m);
      childNodes := childNodes + [n];
      assert ChildMoves() == old(ChildMoves()) + [m];
    }

    /** Update(result): one more visit and result more wins. */
    method Update(result: real)
      modifies this
      ensures visits == old(visits) + 1.0 && wins == old(wins) + result
      ensures parentNode == old(parentNode) && childNodes == old(childNodes) && untriedMoves == old(untriedMoves)
    {
      visits := visits + 1.0;
      wins := wins + result;
    }
  }
}

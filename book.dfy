/**
 * The opening book of the AlphaBetaBook engine: while the book is in
 * progress the engine does not search but plays the corners of a 4 x 4
 * square. The first mark goes into one of the four cells nearest the
 * corner (0, 0), the second into the opposite corner of the square, the
 * third into one of the two remaining corners. Any two corners of such a
 * square are the two ends of a winning quad.
 */
module Book {
  import opened Lines
  import opened Keeper
  import opened LineIndexing
  import opened Search
  import opened Variants

  /** The states of bookStart. */
  datatype Phase = First | Diagonal | Corner | OtherCorner | OtherDiagonal | Last

  /** The cells the first book move picks from, by the caller's random draw. */
  const FirstMoves: seq<(int, int)> := [(0, 0), (0, 1), (1, 0), (1, 1)]

  /**
   * What one call of bookStart leaves behind: the program stopped
   * (os.Exit(99) when the second corner is taken), or the new state, the
   * last book cell, the board, how much the move counter grew, whether the
   * book goes on, and whether a mark was written at all.
   */
  datatype BookRun =
    | Exited
    | Moved(phase: Phase, cx: int, cy: int, board: seq<int>, added: nat, inProgress: bool, wrote: bool)

  /**
   * Where the last book cell lies in each state: near the corner (0, 0)
   * before the square is chosen, then at the corner the state says.
   */
  predicate Placed(phase: Phase, cx: int, cy: int, ox: int, oy: int)
  {
    match phase
    case First => true
    case Diagonal => cx == ox && cy == oy
    case OtherCorner => cx == ox && cy == oy
    case Corner => cx == ox + 3 && cy == oy + 3
    case OtherDiagonal => cx == ox && cy == oy + 3
    case Last => (cx, cy) in Corners(ox, oy)
  }

  /** The four corners of the 4 x 4 square whose top left cell is (ox, oy). */
  function Corners(ox: int, oy: int): set<(int, int)>
  {
    {(ox, oy), (ox, oy + 3), (ox + 3, oy), (ox + 3, oy + 3)}
  }

  /** The square of a first book move lies on the board. */
  predicate Origin(ox: int, oy: int) { 0 <= ox <= 1 && 0 <= oy <= 1 }

  /**
   * One call of bookStart from a state whose cell lies where Placed says.
   * FIRST writes the drawn cell without looking at it and without counting
   * the move; the other states write only into an empty cell. A taken
   * diagonal corner moves on to OTHERCORNER in the same call; CORNER and
   * OTHERDIAGONAL end the book whether or not they found an empty corner.
   */
  function BookStart(phase: Phase, cx: int, cy: int, inProgress: bool, b: seq<int>, pick: nat, ghost ox: int, ghost oy: int): BookRun
    requires |b| == Cells && pick < 4 && (phase != First ==> Origin(ox, oy)) && Placed(phase, cx, cy, ox, oy)
    decreases phase == Diagonal
  {
    match phase
    case First =>
      var (x, y) := FirstMoves[pick];
      Moved(Diagonal, x, y, b[Idx(x, y) := MAXIMIZER], 0, inProgress, true)
    case Diagonal =>
      if b[Idx(cx + 3, cy + 3)] == UNSET then
        Moved(Corner, cx + 3, cy + 3, b[Idx(cx + 3, cy + 3) := MAXIMIZER], 1, inProgress, true)
      else BookStart(OtherCorner, cx, cy, inProgress, b, pick, ox, oy)
    case Corner =>
      if b[Idx(cx - 3, cy)] == UNSET then Moved(Last, cx - 3, cy, b[Idx(cx - 3, cy) := MAXIMIZER], 1, false, true)
      else if b[Idx(cx, cy - 3)] == UNSET then Moved(Last, cx, cy - 3, b[Idx(cx, cy - 3) := MAXIMIZER], 1, false, true)
      else Moved(Last, cx, cy, b, 0, false, false)
    case OtherCorner =>
      if b[Idx(cx, cy + 3)] == UNSET then
        Moved(OtherDiagonal, cx, cy + 3, b[Idx(cx, cy + 3) := MAXIMIZER], 1, inProgress, true)
      else Exited
    case OtherDiagonal =>
      if b[Idx(cx + 3, cy - 3)] == UNSET then
        Moved(Last, cx + 3, cy - 3, b[Idx(cx + 3, cy - 3) := MAXIMIZER], 1, false, true)
      else Moved(Last, cx, cy, b, 0, false, false)
    case Last => Moved(Last, cx, cy, b, 0, inProgress, false)
  }

  /** The square a call leaves the book in: drawn by FIRST, kept by every other state. */
  function OriginAfter(phase: Phase, pick: nat, ox: int, oy: int): (int, int)
    requires pick < 4
  {
    if phase == First then FirstMoves[pick] else (ox, oy)
  }

  /**
   * The first book move is one of the four cells nearest (0, 0), and every
   * later book cell is a corner of that cell's square: all coordinates stay
   * on the board.
   */
  lemma BookStaysOnSquare(phase: Phase, cx: int, cy: int, inProgress: bool, b: seq<int>, pick: nat, ox: int, oy: int)
    requires |b| == Cells && pick < 4 && (phase != First ==> Origin(ox, oy)) && Placed(phase, cx, cy, ox, oy)
    ensures var run := BookStart(phase, cx, cy, inProgress, b, pick, ox, oy); var o := OriginAfter(phase, pick, ox, oy);
      run.Moved? ==> (Origin(o.0, o.1) && Placed(run.phase, run.cx, run.cy, o.0, o.1) &&
                      0 <= run.cx < 5 && 0 <= run.cy < 5 && (run.cx, run.cy) in Corners(o.0, o.1))
    ensures phase == First ==> FirstMoves[pick] in {(0, 0), (0, 1), (1, 0), (1, 1)}
  {
    match phase
    case First =>
    case Diagonal =>
      if b[Idx(cx + 3, cy + 3)] != UNSET {
        assert BookStart(phase, cx, cy, inProgress, b, pick, ox, oy) == BookStart(OtherCorner, cx, cy, inProgress, b, pick, ox, oy);
      }
    case Corner =>
    case OtherCorner =>
    case OtherDiagonal =>
    case Last =>
  }

  /**
   * A call writes at most one cell, the reported one, and with the
   * maximizer's mark; outside FIRST only into a cell that was empty, and
   * the move counter grows by one exactly when such a cell was written.
   */
  lemma BookWritesOnce(phase: Phase, cx: int, cy: int, inProgress: bool, b: seq<int>, pick: nat, ox: int, oy: int)
    requires |b| == Cells && pick < 4 && (phase != First ==> Origin(ox, oy)) && Placed(phase, cx, cy, ox, oy)
    ensures var run := BookStart(phase, cx, cy, inProgress, b, pick, ox, oy);
      run.Moved? ==>
        0 <= Idx(run.cx, run.cy) < Cells &&
        (run.wrote ==> run.board == b[Idx(run.cx, run.cy) := MAXIMIZER]) &&
        (!run.wrote ==> run.board == b) &&
        (run.wrote && phase != First ==> b[Idx(run.cx, run.cy)] == UNSET) &&
        run.added == (if run.wrote && phase != First then 1 else 0)
  {
    match phase
    case First =>
    case Diagonal =>
      if b[Idx(cx + 3, cy + 3)] != UNSET {
        assert BookStart(phase, cx, cy, inProgress, b, pick, ox, oy) == BookStart(OtherCorner, cx, cy, inProgress, b, pick, ox, oy);
      }
    case Corner =>
    case OtherCorner =>
    case OtherDiagonal =>
    case Last =>
  }

  /**
   * CORNER and OTHERDIAGONAL end the book, and only they do; the book goes
   * on after FIRST, a free diagonal corner and OTHERCORNER.
   */
  lemma BookEnds(phase: Phase, cx: int, cy: int, inProgress: bool, b: seq<int>, pick: nat, ox: int, oy: int)
    requires |b| == Cells && pick < 4 && (phase != First ==> Origin(ox, oy)) && Placed(phase, cx, cy, ox, oy)
    ensures var run := BookStart(phase, cx, cy, inProgress, b, pick, ox, oy);
      (phase == Corner || phase == OtherDiagonal ==> run.Moved? && run.phase == Last && !run.inProgress) &&
      (phase == First || phase == Diagonal || phase == OtherCorner ==> run.Moved? ==> run.phase != Last && run.inProgress == inProgress)
  {
  }

  /**
   * The program stops exactly when OTHERCORNER is reached, directly or
   * from a taken diagonal corner, and its corner is taken too.
   */
  lemma BookExits(phase: Phase, cx: int, cy: int, inProgress: bool, b: seq<int>, pick: nat, ox: int, oy: int)
    requires |b| == Cells && pick < 4 && (phase != First ==> Origin(ox, oy)) && Placed(phase, cx, cy, ox, oy)
    ensures BookStart(phase, cx, cy, inProgress, b, pick, ox, oy).Exited? <==>
      (phase == OtherCorner || (phase == Diagonal && b[Idx(cx + 3, cy + 3)] != UNSET)) && b[Idx(cx, cy + 3)] != UNSET
  {
  }

  /** Quad l runs from p to q or from q to p. */
  predicate Joins(l: Line, p: int, q: int)
  {
    |l| == 4 && ((l[0] == p && l[3] == q) || (l[0] == q && l[3] == p))
  }

  /** Some winning quad has the cells p and q as its two ends. */
  predicate EndsQuad(p: (int, int), q: (int, int))
  {
    exists i :: 0 <= i < |Quads| && Joins(Quads[i], Idx(p.0, p.1), Idx(q.0, q.1))
  }

  /**
   * Any two corners of a book square end a winning quad: the row, the
   * column or the diagonal between them.
   */
  lemma CornersEndQuads(ox: int, oy: int)
    requires Origin(ox, oy)
    ensures forall p, q :: p in Corners(ox, oy) && q in Corners(ox, oy) && p != q ==> EndsQuad(p, q)
  {
    var a, b, c, d := (ox, oy), (ox, oy + 3), (ox + 3, oy), (ox + 3, oy + 3);
    SquareQuads(ox, oy);
    forall p, q | p in Corners(ox, oy) && q in Corners(ox, oy) && p != q
      ensures EndsQuad(p, q)
    {
      assert p == a || p == b || p == c || p == d;
      assert q == a || q == b || q == c || q == d;
    }
  }

  /** The six quads between the corners of each of the four book squares, in both directions. */
  lemma SquareQuads(ox: int, oy: int)
    requires Origin(ox, oy)
    ensures var a, b, c, d := (ox, oy), (ox, oy + 3), (ox + 3, oy), (ox + 3, oy + 3);
      EndsQuad(a, b) && EndsQuad(a, c) && EndsQuad(a, d) && EndsQuad(b, c) && EndsQuad(b, d) && EndsQuad(c, d) &&
      EndsQuad(b, a) && EndsQuad(c, a) && EndsQuad(d, a) && EndsQuad(c, b) && EndsQuad(d, b) && EndsQuad(d, c)
  {
    if ox == 0 {
      TopSquareQuads(oy);
    } else {
      BottomSquareQuads(oy);
    }
  }

  /** The squares from (0, 0) and (0, 1). */
  lemma TopSquareQuads(oy: int)
    requires 0 <= oy <= 1
    ensures var a, b, c, d := (0, oy), (0, oy + 3), (3, oy), (3, oy + 3);
      EndsQuad(a, b) && EndsQuad(a, c) && EndsQuad(a, d) && EndsQuad(b, c) && EndsQuad(b, d) && EndsQuad(c, d) &&
      EndsQuad(b, a) && EndsQuad(c, a) && EndsQuad(d, a) && EndsQuad(c, b) && EndsQuad(d, b) && EndsQuad(d, c)
  {
    assert Quads == QuadsA + QuadsB;
    assert |QuadsA| == 16;
    if oy == 0 {
      assert Joins(Quads[1], 0, 3) && Joins(Quads[0], 0, 15) && Joins(Quads[2], 0, 18);
      assert Quads[21] == QuadsB[5] && Quads[20] == QuadsB[4];
      assert Joins(Quads[21], 3, 15) && Joins(Quads[7], 3, 18) && Joins(Quads[20], 15, 18);
    } else {
      assert Joins(Quads[4], 1, 4) && Joins(Quads[3], 1, 16) && Joins(Quads[5], 1, 19);
      assert Quads[23] == QuadsB[7] && Quads[22] == QuadsB[6];
      assert Joins(Quads[23], 4, 16) && Joins(Quads[8], 4, 19) && Joins(Quads[22], 16, 19);
    }
  }

  /** The squares from (1, 0) and (1, 1). */
  lemma BottomSquareQuads(oy: int)
    requires 0 <= oy <= 1
    ensures var a, b, c, d := (1, oy), (1, oy + 3), (4, oy), (4, oy + 3);
      EndsQuad(a, b) && EndsQuad(a, c) && EndsQuad(a, d) && EndsQuad(b, c) && EndsQuad(b, d) && EndsQuad(c, d) &&
      EndsQuad(b, a) && EndsQuad(c, a) && EndsQuad(d, a) && EndsQuad(c, b) && EndsQuad(d, b) && EndsQuad(d, c)
  {
    assert Quads == QuadsA + QuadsB;
    assert |QuadsA| == 16;
    if oy == 0 {
      assert Joins(Quads[10], 5, 8) && Joins(Quads[9], 5, 20) && Joins(Quads[11], 5, 23);
      assert Quads[25] == QuadsB[9] && Quads[16] == QuadsB[0] && Quads[24] == QuadsB[8];
      assert Joins(Quads[25], 8, 20) && Joins(Quads[16], 8, 23) && Joins(Quads[24], 20, 23);
    } else {
      assert Joins(Quads[13], 6, 9) && Joins(Quads[12], 6, 21) && Joins(Quads[14], 6, 24);
      assert Quads[27] == QuadsB[11] && Quads[17] == QuadsB[1] && Quads[26] == QuadsB[10];
      assert Joins(Quads[27], 9, 21) && Joins(Quads[17], 9, 24) && Joins(Quads[26], 21, 24);
    }
  }

  /**
   * The board of a book in CORNER, from (0, 0): the maximizer holds (0, 0)
   * and (3, 3), the minimizer has taken both remaining corners (0, 3) and
   * (3, 0).
   */
  const CornersTaken: seq<int> := [1, 0, 0, -1, 0,
                                   0, 0, 0, 0, 0,
                                   0, 0, 0, 0, 0,
                                   -1, 0, 0, 1, 0,
                                   0, 0, 0, 0, 0]

  /**
   * With both corners taken CORNER writes nothing and leaves the last book
   * cell at (3, 3), which the maximizer already holds; ChooseMove as
   * written reports that cell as its move.
   */
  lemma BlockedCornerRepliesOccupied(pick: nat)
    requires pick < 4
    ensures var run := BookStart(Corner, 3, 3, true, CornersTaken, pick, 0, 0);
      run.Moved? && !run.wrote && (run.cx, run.cy) == (3, 3) && run.board[Idx(run.cx, run.cy)] == MAXIMIZER
  {
    assert Idx(0, 3) == 3 && Idx(3, 0) == 15 && Idx(3, 3) == 18;
    assert CornersTaken[3] == MINIMIZER && CornersTaken[15] == MINIMIZER && CornersTaken[18] == MAXIMIZER;
  }

  /**
   * The state of the AlphaBetaBook engine: its search engine (board, move
   * counter, depth, leaf counter) and the book's state, last cell and
   * whether the book is still in progress. The square the book plays on is
   * kept as a ghost.
   */
  class BookEngine {
    const engine: Engine
    var state: Phase
    var cx: int
    var cy: int
    var bookInProgress: bool
    ghost var ox: int
    ghost var oy: int

    /**
     * The search engine is valid, the last book cell is where the state
     * says, the book is in progress until LAST, and every cell the book
     * wrote is a corner of its square.
     */
    ghost predicate Valid()
      reads this, engine, engine.bd, engine.index
    {
      engine.Valid() && engine.rule == AlphaBetaBookRule && engine.countsMoves &&
      (state != First ==> Origin(ox, oy)) && Placed(state, cx, cy, ox, oy) &&
      (bookInProgress <==> state != Last)
    }

    /** New of src/abbook/abbook.go: the search engine, state FIRST and the book in progress. */
    constructor (deterministic: bool, maxdepth: int, index: LineIndex, scores: seq<int>)
      requires index.Valid() && |scores| == Cells
      modifies index
      ensures Valid() && fresh(engine) && fresh(engine.bd) && engine.index == index
      ensures engine.bd[..] == seq(Cells, _ => UNSET) && engine.maxDepth == maxdepth && engine.deterministic == deterministic
      ensures engine.moveCount == 0 && state == First && bookInProgress
    {
      var e := NewAlphaBetaBook(deterministic, maxdepth, index, scores);
      engine := e;
      state := First;
      bookInProgress := true;
      cx, cy := 0, 0;
      ox, oy := 0, 0;
    }

    /** What bookStart would do from the current state, with pick as FIRST's draw. */
    ghost function Start(pick: nat): BookRun
      requires Valid() && pick < 4
      reads this, engine, engine.bd, engine.index
    {
      BookStart(state, cx, cy, bookInProgress, engine.bd[..], pick, ox, oy)
    }

    /** The current state is the one run describes, the move counter having grown by run.added from m0. */
    ghost predicate Reached(run: BookRun, m0: int)
      reads this, engine, engine.bd
    {
      run.Moved? && state == run.phase && cx == run.cx && cy == run.cy && bookInProgress == run.inProgress &&
      engine.bd[..] == run.board && engine.moveCount == m0 + run.added
    }

    /** Writes the maximizer's mark into the book cell (cx, cy), counting the move when counted says so. */
    method Mark(counted: bool)
      requires engine.Valid() && 0 <= cx < 5 && 0 <= cy < 5
      modifies engine.bd, engine`moveCount
      ensures engine.Valid() && engine.bd[..] == old(engine.bd[..])[Idx(cx, cy) := MAXIMIZER]
      ensures engine.moveCount == old(engine.moveCount) + (if counted then 1 else 0)
    {
      engine.bd[Idx(cx, cy)] := MAXIMIZER;
      if counted {
        engine.moveCount := engine.moveCount + 1;
      }
    }

    /** FIRST: the drawn cell near (0, 0) gets the mark, uncounted, and the book moves to DIAGONAL. */
    method PlayFirst(pick: nat)
      requires Valid() && pick < 4 && state == First
      modifies this, engine.bd, engine`moveCount
      ensures Valid() && Reached(old(Start(pick)), old(engine.moveCount)) && (ox, oy) == FirstMoves[pick]
    {
      cx, cy := FirstMoves[pick].0, FirstMoves[pick].1;
      ox, oy := cx, cy;
      Mark(false);
      state := Diagonal;
    }

    /** DIAGONAL: the opposite corner if it is free (then CORNER); otherwise OTHERCORNER, asking to go on. */
    method PlayDiagonal(pick: nat) returns (looping: bool)
      requires Valid() && pick < 4 && state == Diagonal
      modifies this, engine.bd, engine`moveCount
      ensures Valid() && (ox, oy) == old((ox, oy))
      ensures looping ==> state == OtherCorner && Start(pick) == old(Start(pick)) && engine.moveCount == old(engine.moveCount)
      ensures !looping ==> Reached(old(Start(pick)), old(engine.moveCount))
    {
      looping := false;
      if engine.bd[Idx(cx + 3, cy + 3)] == UNSET {
        cx, cy := cx + 3, cy + 3;
        Mark(true);
        state := Corner;
      } else {
        state := OtherCorner;
        looping := true;
      }
    }

    /** CORNER: the corner above, else the corner to the left, else nothing; the book ends. */
    method PlayCorner(pick: nat)
      requires Valid() && pick < 4 && state == Corner
      modifies this, engine.bd, engine`moveCount
      ensures Valid() && (ox, oy) == old((ox, oy)) && Reached(old(Start(pick)), old(engine.moveCount))
    {
      if engine.bd[Idx(cx - 3, cy)] == UNSET {
        cx := cx - 3;
        Mark(true);
      } else if engine.bd[Idx(cx, cy - 3)] == UNSET {
        cy := cy - 3;
        Mark(true);
      }
      state := Last;
      bookInProgress := false;
    }

    /** OTHERCORNER: the corner to the right if it is free (then OTHERDIAGONAL); otherwise the program exits. */
    method PlayOtherCorner(pick: nat) returns (exited: bool)
      requires Valid() && pick < 4 && state == OtherCorner
      modifies this, engine.bd, engine`moveCount
      ensures Valid() && (ox, oy) == old((ox, oy))
      ensures exited == old(Start(pick)).Exited?
      ensures !exited ==> Reached(old(Start(pick)), old(engine.moveCount))
    {
      if engine.bd[Idx(cx, cy + 3)] == UNSET {
        cy := cy + 3;
        Mark(true);
        state := OtherDiagonal;
        exited := false;
      } else {
        exited := true;
      }
    }

    /** OTHERDIAGONAL: the corner below on the left if it is free; the book ends. */
    method PlayOtherDiagonal(pick: nat)
      requires Valid() && pick < 4 && state == OtherDiagonal
      modifies this, engine.bd, engine`moveCount
      ensures Valid() && (ox, oy) == old((ox, oy)) && Reached(old(Start(pick)), old(engine.moveCount))
    {
      if engine.bd[Idx(cx + 3, cy - 3)] == UNSET {
        cx, cy := cx + 3, cy - 3;
        Mark(true);
      }
      state := Last;
      bookInProgress := false;
    }

    /**
     * bookStart: runs the state machine until a state does not ask to go
     * on, with the random draw of FIRST supplied as pick. exited reports
     * that the program stopped.
     */
    method BookStartStep(pick: nat) returns (exited: bool)
      requires Valid() && pick < 4
      modifies this, engine.bd, engine`moveCount
      ensures Valid() && (ox, oy) == OriginAfter(old(state), pick, old(ox), old(oy))
      ensures exited == old(Start(pick)).Exited?
      ensures !exited ==> Reached(old(Start(pick)), old(engine.moveCount))
    {
      ghost var goal := Start(pick);
      ghost var m0 := engine.moveCount;
      ghost var o := OriginAfter(state, pick, ox, oy);
      var looping := true;
      while looping
        invariant Valid()
        invariant looping ==> engine.moveCount == m0 && (ox, oy) == old((ox, oy)) && o == OriginAfter(state, pick, ox, oy) && goal == Start(pick)
        invariant !looping ==> (ox, oy) == o && Reached(goal, m0)
        decreases looping, state == Diagonal
      {
        looping := false;
        match state {
          case First => PlayFirst(pick);
          case Diagonal => looping := PlayDiagonal(pick);
          case Corner => PlayCorner(pick);
          case OtherCorner =>
            exited := PlayOtherCorner(pick);
            if exited {
              return;
            }
          case OtherDiagonal => PlayOtherDiagonal(pick);
          case Last =>
        }
      }
      exited := false;
    }

    /** The root search can pick a move on the current board: the keeper keeps one, and rnd indexes the kept ties. */
    ghost predicate SearchReady(rnd: int)
      requires engine.Valid()
      reads engine, engine.bd, engine`maxDepth, engine`scoresEven, engine`scoresOdd, engine.index
    {
      var os := RootOffers(engine.rule, engine.Setting(), engine.bd[..], Cells);
      var kept := CellsValued(os, Best(2 * LOSS, os));
      kept != [] && (!engine.deterministic ==> 0 <= rnd < |kept|)
    }

    /**
     * The engine searched from board b0 and made its move (x, y): an empty
     * cell that the keeper kept at the best root value, the tie picked by
     * rnd unless deterministic; the leaf count is that of the root loop.
     */
    ghost predicate Searched(b0: seq<int>, rnd: int, x: int, y: int, value: int, leafcount: int)
      requires engine.Valid() && |b0| == Cells
      reads engine, engine.bd, engine`maxDepth, engine`scoresEven, engine`scoresOdd, engine.index, engine`leafNodeCount
    {
      var os := RootOffers(engine.rule, engine.Setting(), b0, Cells);
      var kept := CellsValued(os, Best(2 * LOSS, os));
      0 <= x < 5 && 0 <= y < 5 && b0[Idx(x, y)] == UNSET && engine.bd[..] == b0[Idx(x, y) := MAXIMIZER] &&
      kept != [] && (!engine.deterministic ==> 0 <= rnd < |kept|) &&
      value == Best(2 * LOSS, os) && (x, y) == kept[if engine.deterministic then 0 else rnd] &&
      leafcount == engine.leafNodeCount == RootCounted(engine.rule, engine.Setting(), b0, Cells)
    }

    /** The search half of ChooseMove: the engine's root search picks and makes the move; the book is untouched. */
    method SearchMove(rnd: int) returns (x: int, y: int, value: int, leafcount: int)
      requires Valid() && SearchReady(rnd)
      modifies engine.bd, engine`moveCount, engine`leafNodeCount
      ensures Valid() && engine.moveCount == old(engine.moveCount) + 1
      ensures Searched(old(engine.bd[..]), rnd, x, y, value, leafcount)
    {
      x, y, value, leafcount := engine.ChooseMove(rnd);
    }

    /**
     * ChooseMove as written: while the book is in progress it plays the
     * book and reports the last book cell, with value and leaf count 0,
     * whether or not the book wrote a mark in this call; afterwards it
     * searches and makes the move.
     */
    method ChooseMoveAsWritten(pick: nat, rnd: int) returns (x: int, y: int, value: int, leafcount: int, exited: bool)
      requires Valid() && pick < 4
      requires !bookInProgress ==> SearchReady(rnd)
      modifies this, engine.bd, engine`moveCount, engine`leafNodeCount
      ensures Valid()
      ensures old(bookInProgress) ==>
        exited == old(Start(pick)).Exited? &&
        (!exited ==> Reached(old(Start(pick)), old(engine.moveCount)) && (x, y, value, leafcount) == (cx, cy, 0, 0))
      ensures !old(bookInProgress) ==>
        !exited && engine.moveCount == old(engine.moveCount) + 1 && Searched(old(engine.bd[..]), rnd, x, y, value, leafcount)
    {
      if bookInProgress {
        exited := BookStartStep(pick);
        return cx, cy, 0, 0, exited;
      }
      x, y, value, leafcount := SearchMove(rnd);
      exited := false;
    }

    /**
     * The book half of the checked ChooseMove: bookStart runs, and played
     * tells whether it wrote a mark, known from the move counter or from
     * the state having been FIRST.
     */
    method PlayBook(pick: nat) returns (played: bool, exited: bool)
      requires Valid() && pick < 4
      modifies this, engine.bd, engine`moveCount
      ensures Valid() && exited == old(Start(pick)).Exited?
      ensures !exited ==> Reached(old(Start(pick)), old(engine.moveCount)) && played == old(Start(pick)).wrote
      ensures !exited && played ==>
        0 <= cx < 5 && 0 <= cy < 5 && engine.bd[Idx(cx, cy)] == MAXIMIZER && (old(state) != First ==> old(engine.bd[..])[Idx(cx, cy)] == UNSET)
    {
      var wasFirst := state == First;
      var m := engine.moveCount;
      BookWritesOnce(state, cx, cy, bookInProgress, engine.bd[..], pick, ox, oy);
      BookStaysOnSquare(state, cx, cy, bookInProgress, engine.bd[..], pick, ox, oy);
      exited := BookStartStep(pick);
      played := wasFirst || engine.moveCount > m;
    }

    /**
     * ChooseMove with the book reply checked: the book's cell is reported
     * only when this call wrote it; when the book ends without finding a
     * free corner the engine searches instead. Every move reported is a
     * cell the call has just marked for the maximizer, empty before unless
     * it was FIRST's unchecked write.
     */
    method ChooseMove(pick: nat, rnd: int) returns (x: int, y: int, value: int, leafcount: int, exited: bool)
      requires Valid() && pick < 4
      requires !bookInProgress || (Start(pick).Moved? && !Start(pick).wrote) ==> SearchReady(rnd)
      modifies this, engine.bd, engine`moveCount, engine`leafNodeCount
      ensures Valid()
      ensures exited <==> old(bookInProgress) && old(Start(pick)).Exited?
      ensures !exited ==>
        0 <= x < 5 && 0 <= y < 5 && engine.bd[Idx(x, y)] == MAXIMIZER && (old(state) != First ==> old(engine.bd[..])[Idx(x, y)] == UNSET)
      ensures old(bookInProgress) && old(Start(pick)).Moved? && old(Start(pick)).wrote ==>
        Reached(old(Start(pick)), old(engine.moveCount)) && (x, y, value, leafcount) == (cx, cy, 0, 0)
      ensures !old(bookInProgress) || (old(Start(pick)).Moved? && !old(Start(pick)).wrote) ==>
        Searched(old(engine.bd[..]), rnd, x, y, value, leafcount)
    {
      ghost var run := Start(pick);
      ghost var b0 := engine.bd[..];
      if bookInProgress {
        var played;
        played, exited := PlayBook(pick);
        if exited {
          return 0, 0, 0, 0, true;
        }
        if played {
          return cx, cy, 0, 0, false;
        }
        assert engine.bd[..] == b0;
      }
      x, y, value, leafcount := SearchMove(rnd);
      exited := false;
    }
  }
}

/**
 * The position prober (probe.go). Its command line gives the search depth
 * and then the moves played so far as "x,y" pairs, the maximizer first;
 * it replays them onto an empty board, searches every empty cell for the
 * side to move with the alpha-beta of squavathr.go (which returns the
 * value and the leaf count), keeps the best cells and plays the first.
 */
module Probe {
  import opened Lines
  import opened Referee
  import opened Evaluate
  import opened Search
  import opened Keeper
  import Playoff
  import Variants

  datatype Option<T> = None | Some(value: T)

  /*
   * strings.Split(s, ","): the pieces between the commas, in order.
   */

  /** The pieces of s between its commas; none holds a comma, and there is always at least one. */
  function Split(s: string): (parts: seq<string>)
    ensures |parts| >= 1
    ensures forall i :: 0 <= i < |parts| ==> ',' !in parts[i]
  {
    if s == [] then [[]]
    else
      var rest := Split(s[1..]);
      if s[0] == ',' then [[]] + rest else [[s[0]] + rest[0]] + rest[1..]
  }

  /** The pieces joined again, a comma between each two. */
  function Join(parts: seq<string>): string
    requires |parts| >= 1
  {
    if |parts| == 1 then parts[0] else parts[0] + "," + Join(parts[1..])
  }

  /** Joining the pieces gives back the string: Split loses nothing and adds nothing. */
  lemma {:induction false} SplitJoin(s: string)
    ensures Join(Split(s)) == s
  {
    if s != [] {
      SplitJoin(s[1..]);
      var rest := Split(s[1..]);
      if s[0] == ',' {
        assert ([[]] + rest)[1..] == rest;
      } else {
        var parts := [[s[0]] + rest[0]] + rest[1..];
        if |rest| > 1 {
          assert parts[1..] == rest[1..];
          assert Join(rest) == rest[0] + "," + Join(rest[1..]);
        }
      }
    }
  }

  /** There is a second piece exactly when s holds a comma. */
  lemma {:induction false} SplitPieces(s: string)
    ensures |Split(s)| >= 2 <==> ',' in s
  {
    if s != [] {
      SplitPieces(s[1..]);
      assert s == [s[0]] + s[1..];
    }
  }

  /*
   * strconv.Atoi(s) with its error dropped: an optional sign and then
   * decimal digits, anything else 0.
   */

  predicate IsDigit(ch: char) { '0' <= ch <= '9' }

  /** One or more decimal digits and nothing else. */
  predicate Numeral(s: string)
  {
    |s| > 0 && forall i :: 0 <= i < |s| ==> IsDigit(s[i])
  }

  /** The value of a string of decimal digits, most significant first. */
  function DigitsValue(s: string): nat
    requires forall i :: 0 <= i < |s| ==> IsDigit(s[i])
  {
    if s == [] then 0
    else
      assert IsDigit(s[|s| - 1]);
      10 * DigitsValue(s[..|s| - 1]) + (s[|s| - 1] as int - '0' as int)
  }

  /** Atoi with the error ignored: a signed numeral's value, 0 for anything else. */
  function Atoi(s: string): int
  {
    if |s| > 0 && (s[0] == '+' || s[0] == '-') && Numeral(s[1..]) then
      if s[0] == '-' then -(DigitsValue(s[1..]) as int) else DigitsValue(s[1..])
    else if Numeral(s) then DigitsValue(s)
    else 0
  }

  /** The decimal numeral of n, without sign or leading zeros. */
  function Decimal(n: nat): (s: string)
    ensures Numeral(s)
  {
    if n < 10 then [('0' as int + n) as char] else Decimal(n / 10) + [('0' as int + n % 10) as char]
  }

  lemma {:induction false} DecimalValue(n: nat)
    ensures DigitsValue(Decimal(n)) == n
  {
    if n >= 10 {
      DecimalValue(n / 10);
      var s := Decimal(n);
      assert s[..|s| - 1] == Decimal(n / 10);
    }
  }

  /** Atoi reads back every numeral Decimal writes, with or without a sign. */
  lemma AtoiDecimal(n: nat)
    ensures Atoi(Decimal(n)) == n
    ensures Atoi("+" + Decimal(n)) == n && Atoi("-" + Decimal(n)) == -(n as int)
  {
    DecimalValue(n);
    var d := Decimal(n);
    assert ("+" + d)[1..] == d && ("-" + d)[1..] == d;
  }

  /** A string that is neither a numeral nor a sign and a numeral reads as 0, as the empty string and " 2" do. */
  lemma AtoiMalformed()
    ensures Atoi("") == 0 && Atoi(" 2") == 0 && Atoi("-") == 0 && Atoi("2 ") == 0
  {
    assert !IsDigit(' ');
    assert " 2"[0] == ' ' && "2 "[1] == ' ';
  }

  /** One move argument: its first two comma-separated pieces read as x and y; without a comma the index panics. */
  function ParseMove(s: string): Option<(int, int)>
  {
    var mn := Split(s);
    if |mn| < 2 then None else Some((Atoi(mn[0]), Atoi(mn[1])))
  }

  /** "x,y" parses to (x, y) for every pair of numerals. */
  lemma ParseWritten(x: nat, y: nat)
    ensures ParseMove(Decimal(x) + "," + Decimal(y)) == Some((x, y))
  {
    var s := Decimal(x) + "," + Decimal(y);
    SplitOf(Decimal(x), Decimal(y));
    AtoiDecimal(x);
    AtoiDecimal(y);
  }

  /** Two comma-free strings joined by a comma split back into exactly those two. */
  lemma {:induction false} SplitOf(a: string, b: string)
    requires ',' !in a && ',' !in b
    ensures Split(a + "," + b) == [a, b]
  {
    if a == [] {
      assert a + "," + b == [','] + b;
      assert ([',']+ b)[1..] == b;
      SplitNone(b);
    } else {
      SplitOf(a[1..], b);
      assert (a + "," + b)[1..] == a[1..] + "," + b;
      assert [a[0]] + a[1..] == a;
    }
  }

  lemma {:induction false} SplitNone(s: string)
    requires ',' !in s
    ensures Split(s) == [s]
  {
    if s != [] {
      SplitNone(s[1..]);
      assert [s[0]] + s[1..] == s;
    }
  }

  /*
   * Replaying the moves of the command line.
   */

  /** The board, the moves as read, the next ply and the side to move. */
  datatype Position = Position(board: seq<int>, moves: seq<(int, int)>, nextPly: int, nextPlayer: int)

  /** Before any move: an empty board, no moves, ply 0, the maximizer to move. */
  function Start(): Position
  {
    Position(seq(Cells, _ => UNSET), [], 0, MAXIMIZER)
  }

  /** A move argument the replay accepts: it has a comma and both coordinates are on the board. */
  predicate Legal(s: string)
  {
    var m := ParseMove(s);
    m.Some? && 0 <= m.value.0 < 5 && 0 <= m.value.1 < 5
  }

  /** One move argument: recorded, its cell given to the side to move, the ply counted and the side changed. */
  function Apply(p: Position, s: string): (q: Position)
    requires |p.board| == Cells && Legal(s)
    ensures |q.board| == Cells
  {
    var (m, n) := ParseMove(s).value;
    Position(p.board[Idx(m, n) := p.nextPlayer], p.moves + [(m, n)], p.nextPly + 1, -p.nextPlayer)
  }

  /** The replay from p: every argument applied in order; the first illegal one ends the program. */
  function PlayFrom(p: Position, args: seq<string>): (r: Option<Position>)
    requires |p.board| == Cells
    ensures r.Some? ==> |r.value.board| == Cells
    decreases |args|
  {
    if args == [] then Some(p)
    else if !Legal(args[0]) then None
    else PlayFrom(Apply(p, args[0]), args[1..])
  }

  /** The replay of the whole command line from the start. */
  function Play(args: seq<string>): Option<Position>
  {
    PlayFrom(Start(), args)
  }

  /** The side that makes the i-th move (from 0): the maximizer on even i. */
  function Mover(i: nat): int
  {
    if i % 2 == 0 then MAXIMIZER else MINIMIZER
  }

  /** The mark in cell c after moves: the mover of the last move into c, or empty if none went there. */
  function Mark(moves: seq<(int, int)>, c: int): int
  {
    if moves == [] then UNSET
    else if Idx(moves[|moves| - 1].0, moves[|moves| - 1].1) == c then Mover(|moves| - 1)
    else Mark(moves[..|moves| - 1], c)
  }

  /** A position the replay can reach: the counters agree with the moves and every cell holds its last mover's mark. */
  predicate Consistent(p: Position)
  {
    |p.board| == Cells && p.nextPly == |p.moves| && p.nextPlayer == Mover(|p.moves|) &&
    forall c :: 0 <= c < Cells ==> p.board[c] == Mark(p.moves, c)
  }

  /** The moves each argument names, in order. */
  function Parsed(args: seq<string>): (r: seq<(int, int)>)
    requires forall i :: 0 <= i < |args| ==> Legal(args[i])
    ensures |r| == |args|
  {
    if args == [] then []
    else
      assert Legal(args[0]);
      [ParseMove(args[0]).value] + Parsed(args[1..])
  }

  lemma ApplyConsistent(p: Position, s: string)
    requires Consistent(p) && Legal(s)
    ensures Consistent(Apply(p, s))
  {
    var q := Apply(p, s);
    assert q.moves[..|q.moves| - 1] == p.moves;
  }

  /**
   * The replay succeeds exactly when every argument is legal; it then
   * records the arguments' moves in order, counts one ply per move, leaves
   * the maximizer to move after an even number of them, and gives each cell
   * the mark of the last move into it.
   */
  lemma {:induction false} PlayFromMeaning(p: Position, args: seq<string>)
    requires Consistent(p)
    decreases |args|
    ensures PlayFrom(p, args).Some? <==> forall i :: 0 <= i < |args| ==> Legal(args[i])
    ensures PlayFrom(p, args).Some? ==>
      var q := PlayFrom(p, args).value;
      Consistent(q) && q.moves == p.moves + Parsed(args)
  {
    if args != [] {
      if Legal(args[0]) {
        ApplyConsistent(p, args[0]);
        PlayFromMeaning(Apply(p, args[0]), args[1..]);
        assert forall i :: 1 <= i < |args| ==> args[1..][i - 1] == args[i];
        if PlayFrom(p, args).Some? {
          assert p.moves + Parsed(args) == p.moves + [ParseMove(args[0]).value] + Parsed(args[1..]);
        }
      }
    }
  }

  /** The command line's replay, from the empty board. */
  lemma PlayMeaning(args: seq<string>)
    ensures Play(args).Some? <==> forall i :: 0 <= i < |args| ==> Legal(args[i])
    ensures Play(args).Some? ==>
      var q := Play(args).value;
      Consistent(q) && q.moves == Parsed(args) && q.nextPly == |args| &&
      (q.nextPlayer == MAXIMIZER <==> |args| % 2 == 0) && ValidBoard(q.board)
  {
    PlayFromMeaning(Start(), args);
    if Play(args).Some? {
      var q := Play(args).value;
      MarksValid(q.moves);
    }
  }

  lemma {:induction false} MarksValid(moves: seq<(int, int)>)
    ensures forall c :: IsMark(Mark(moves, c))
  {
    if moves != [] {
      MarksValid(moves[..|moves| - 1]);
    }
  }

  /** The replay loop of main: each argument split at its comma, read, recorded and marked for the side to move. */
  method Replay(args: seq<string>, bd: array<int>) returns (ok: bool, moves: seq<(int, int)>, nextPly: int, nextPlayer: int)
    requires bd.Length == Cells && bd[..] == seq(Cells, _ => UNSET)
    modifies bd
    ensures ok == Play(args).Some?
    ensures ok ==> Play(args) == Some(Position(bd[..], moves, nextPly, nextPlayer))
  {
    moves, nextPly, nextPlayer := [], 0, MAXIMIZER;
    var i := 0;
    while i < |args|
      invariant 0 <= i <= |args| && bd.Length == Cells
      invariant PlayFrom(Position(bd[..], moves, nextPly, nextPlayer), args[i..]) == Play(args)
    {
      var mn := Split(args[i]);
      if |mn| < 2 {
        return false, moves, nextPly, nextPlayer;
      }
      var m, n := Atoi(mn[0]), Atoi(mn[1]);
      if !(0 <= m < 5 && 0 <= n < 5) {
        return false, moves, nextPly, nextPlayer;
      }
      assert args[i..][1..] == args[i + 1..];
      moves := moves + [(m, n)];
      bd[Idx(m, n)] := nextPlayer;
      nextPly := nextPly + 1;
      nextPlayer := -nextPlayer;
      i := i + 1;
    }
    ok := true;
  }

  /*
   * Searching the position: every empty cell, row by row.
   */

  /** probe.go searches with squavathr.go's alphaBeta, which returns its leaf count. */
  const ProbeRule := Variants.ReturnedCountRule

  /**
   * One empty cell k for the side next: its mark goes in, deltaValue judges
   * it at ply 0 with the running best value best as the board value passed
   * in, a stop counts as one leaf, otherwise the opponent's search from
   * (2*LOSS, 2*WIN) gives the value and the leaves.
   */
  function Probed(e: Env, b: seq<int>, next: int, best: int, k: nat): Outcome
    requires EnvOk(e) && |b| == Cells && k < Cells
  {
    var b' := b[k := next];
    var v := Eval(ProbeRule, e, b', 0, k, best);
    if v.stop then Outcome(v.value, 1, 0)
    else Node(ProbeRule, e, b', 0, -next, 2 * LOSS, 2 * WIN, k, v.value)
  }

  /** The offers of the cells before k: each empty cell's value, given the value kept so far. */
  function Probes(e: Env, b: seq<int>, next: int, k: nat): (os: seq<Offer>)
    requires EnvOk(e) && |b| == Cells && k <= Cells
    ensures |os| <= k
  {
    if k == 0 then []
    else
      var os := Probes(e, b, next, k - 1);
      if b[k - 1] == UNSET then os + [Offer(Row(k - 1), Col(k - 1), Probed(e, b, next, Playoff.Target(next, os), k - 1).value)]
      else os
  }

  /** totalLeafNodes after the cells before k. */
  function ProbeLeaves(e: Env, b: seq<int>, next: int, k: nat): nat
    requires EnvOk(e) && |b| == Cells && k <= Cells
  {
    if k == 0 then 0
    else
      var n := ProbeLeaves(e, b, next, k - 1);
      if b[k - 1] == UNSET then n + Probed(e, b, next, Playoff.Target(next, Probes(e, b, next, k - 1)), k - 1).leaves
      else n
  }

  /** Every offer names an empty cell of the board, and every empty cell before k is offered once. */
  lemma {:induction false} ProbesCells(e: Env, b: seq<int>, next: int, k: nat)
    requires EnvOk(e) && |b| == Cells && k <= Cells
    ensures forall i :: 0 <= i < |Probes(e, b, next, k)| ==>
      var o := Probes(e, b, next, k)[i]; 0 <= o.x < 5 && 0 <= o.y < 5 && Idx(o.x, o.y) < k && b[Idx(o.x, o.y)] == UNSET
    ensures |Probes(e, b, next, k)| == Empties(b[..k])
  {
    if k > 0 {
      ProbesCells(e, b, next, k - 1);
      IdxRowCol(k - 1);
      EmptiesAppend(b[..k - 1], b[k - 1]);
      assert b[..k] == b[..k - 1] + [b[k - 1]];
    }
  }

  lemma {:induction false} EmptiesAppend(s: seq<int>, v: int)
    ensures Empties(s + [v]) == Empties(s) + (if v == UNSET then 1 else 0)
  {
    if s != [] {
      assert (s + [v])[1..] == s[1..] + [v];
      EmptiesAppend(s[1..], v);
    }
  }

  /**
   * The value passed to deltaValue is the running best, not 0: at depth 0
   * every cell stops at once and its value is its heuristic plus the value
   * kept so far, so at the start the maximizer's first cell is worth its
   * heuristic plus 2*LOSS.
   */
  lemma DepthZeroCarriesBest(e: Env, b: seq<int>, next: int, best: int, k: nat)
    requires EnvOk(e) && |b| == Cells && k < Cells && e.maxDepth == 0
    ensures LinesOk(e.qi[k]) && LinesOk(e.ti[k])
    ensures var b' := b[k := next];
      FirstOwner(b', e.qi[k]) == UNSET && FirstOwner(b', e.ti[k]) == UNSET ==>
        Probed(e, b, next, best, k) == Outcome(Eval(ProbeRule, e, b', 0, k, 0).value + best, 1, 0)
  {
    ShapedLinesOk(e.qi[k], 4);
    ShapedLinesOk(e.ti[k], 3);
  }

  /** One empty cell of main's loop: mark it, judge it, search the reply unless that stopped, clear it. */
  method ProbeCell(p: Engine, next: int, best: int, k: nat) returns (val: int, leaves: int)
    requires p.Valid() && p.rule == ProbeRule && k < Cells && p.bd[k] == UNSET && (next == MAXIMIZER || next == MINIMIZER)
    modifies p.bd, p`leafNodeCount
    ensures p.Valid() && p.bd[..] == old(p.bd[..])
    ensures var o := Probed(p.Setting(), p.bd[..], next, best, k); val == o.value && leaves == o.leaves
  {
    ghost var b0 := p.bd[..];
    p.bd[k] := next;
    assert p.bd[..] == b0[k := next];
    var stop;
    stop, val := p.Judge(0, k, best);
    leaves := 0;
    if !stop {
      val, leaves := p.AlphaBeta(0, -next, 2 * LOSS, 2 * WIN, k, val);
    } else {
      leaves := 1;
    }
    p.bd[k] := UNSET;
    assert p.bd[..] == b0;
  }

  /** What main's loop holds after the cells before k: the value kept, the cells kept with it, and the leaves so far. */
  ghost predicate Kept(e: Env, b: seq<int>, next: int, k: nat, kept: seq<(int, int)>, bestValue: int, total: int)
    requires EnvOk(e) && |b| == Cells && k <= Cells
  {
    var os := Probes(e, b, next, k);
    bestValue == Playoff.Target(next, os) && kept == CellsValued(os, bestValue) && total == ProbeLeaves(e, b, next, k)
  }

  /**
   * main's loop: every empty cell in row-major order probed for the side
   * next, its value offered to the inline keeper (>= for the maximizer,
   * <= for the minimizer, a strictly better value restarting the buffer),
   * the leaves added up; the board comes back unchanged.
   */
  method BestMoves(p: Engine, next: int) returns (moves: array<(int, int)>, bestNext: int, bestValue: int, total: int)
    requires p.Valid() && p.rule == ProbeRule && (next == MAXIMIZER || next == MINIMIZER)
    modifies p.bd, p`leafNodeCount
    ensures p.Valid() && p.bd[..] == old(p.bd[..]) && fresh(moves) && moves.Length == 25 && 0 <= bestNext <= 25
    ensures Kept(p.Setting(), p.bd[..], next, Cells, moves[..bestNext], bestValue, total)
    ensures bestNext == 0 ==> moves[0] == (0, 0)
  {
    ghost var e := p.Setting();
    ghost var b0 := p.bd[..];
    moves := new (int, int)[25](_ => (0, 0));
    bestNext := 0;
    bestValue := if next == MAXIMIZER then 2 * LOSS else 2 * WIN;
    total := 0;
    assert Kept(e, b0, next, 0, moves[..bestNext], bestValue, total);
    var k := 0;
    while k < Cells
      invariant 0 <= k <= Cells && p.bd[..] == b0 && e == p.Setting() && p.Valid()
      invariant 0 <= bestNext <= 25 && moves.Length == 25 && fresh(moves)
      invariant Kept(e, b0, next, k, moves[..bestNext], bestValue, total)
      invariant bestNext == 0 ==> moves[0] == (0, 0)
    {
      bestNext, bestValue, total := Visit(p, moves, bestNext, bestValue, total, next, k, e, b0);
      k := k + 1;
    }
  }

  /** The offers and leaves after cell k: those before it, plus cell k's probe when it is empty. */
  lemma ProbesNext(e: Env, b: seq<int>, next: int, k: nat)
    requires EnvOk(e) && |b| == Cells && k < Cells
    ensures var os := Probes(e, b, next, k); var o := Probed(e, b, next, Playoff.Target(next, os), k);
      if b[k] == UNSET then
        Probes(e, b, next, k + 1) == os + [Offer(k / 5, k % 5, o.value)] &&
        ProbeLeaves(e, b, next, k + 1) == ProbeLeaves(e, b, next, k) + o.leaves
      else
        Probes(e, b, next, k + 1) == os && ProbeLeaves(e, b, next, k + 1) == ProbeLeaves(e, b, next, k)
  {
  }

  /** One cell of main's loop: an empty cell probed and kept or not, an occupied one passed over. */
  method Visit(p: Engine, moves: array<(int, int)>, bestNext: int, bestValue: int, total: int, next: int, k: nat,
               ghost e: Env, ghost b0: seq<int>)
    returns (bestNext': int, bestValue': int, total': int)
    requires p.Valid() && p.rule == ProbeRule && e == p.Setting() && b0 == p.bd[..] && k < Cells
    requires next == MAXIMIZER || next == MINIMIZER
    requires moves.Length == 25 && 0 <= bestNext <= 25
    requires Kept(e, b0, next, k, moves[..bestNext], bestValue, total)
    modifies p.bd, p`leafNodeCount, moves
    ensures p.Valid() && p.bd[..] == b0 && p.Setting() == e && 0 <= bestNext' <= 25
    ensures Kept(e, b0, next, k + 1, moves[..bestNext'], bestValue', total')
    ensures bestNext' == 0 ==> bestNext == 0 && moves[0] == old(moves[0])
  {
    bestNext', bestValue', total' := bestNext, bestValue, total;
    ProbesNext(e, b0, next, k);
    if p.bd[k] == UNSET {
      var val, leaves := ProbeCell(p, next, bestValue, k);
      bestNext', bestValue' := Playoff.Keep(moves, bestNext, bestValue, next, Probes(e, b0, next, k), Offer(k / 5, k % 5, val));
      total' := total + leaves;
    }
  }

  /** The cell main plays: the first kept, or (0, 0) when none was kept, which is what the zeroed buffer holds. */
  function Chosen(kept: seq<(int, int)>): (int, int)
  {
    if kept == [] then (0, 0) else kept[0]
  }

  /**
   * main: the depth read from the first argument, the moves replayed, the
   * position searched for the side to move, and its mark put on the first
   * cell kept. The program stops at a malformed move, with ok false.
   */
  method Run(p: Engine, depth: string, args: seq<string>) returns (ok: bool, x: int, y: int, bestValue: int, total: int)
    requires p.Valid() && p.rule == ProbeRule && p.bd[..] == seq(Cells, _ => UNSET)
    modifies p.bd, p`leafNodeCount, p`maxDepth
    ensures ok == Play(args).Some? && p.maxDepth == Atoi(depth)
    ensures ok ==>
      var pos := Play(args).value;
      var os := Probes(p.Setting(), pos.board, pos.nextPlayer, Cells);
      bestValue == Playoff.Target(pos.nextPlayer, os) && (x, y) == Chosen(CellsValued(os, bestValue)) &&
      total == ProbeLeaves(p.Setting(), pos.board, pos.nextPlayer, Cells) &&
      0 <= x < 5 && 0 <= y < 5 && p.bd[..] == pos.board[Idx(x, y) := pos.nextPlayer]
  {
    p.maxDepth := Atoi(depth);
    var moves, nextPly, nextPlayer;
    ok, moves, nextPly, nextPlayer := Replay(args, p.bd);
    x, y, bestValue, total := 0, 0, 0, 0;
    if !ok {
      return;
    }
    PlayMeaning(args);
    var bestMoves, bestNext;
    bestMoves, bestNext, bestValue, total := BestMoves(p, nextPlayer);
    assert Kept(p.Setting(), p.bd[..], nextPlayer, Cells, bestMoves[..bestNext], bestValue, total);
    ghost var os := Probes(p.Setting(), p.bd[..], nextPlayer, Cells);
    if bestNext > 0 {
      assert bestMoves[..bestNext][0] == bestMoves[0];
      KeptOnBoard(p.Setting(), p.bd[..], nextPlayer, bestValue);
    }
    x, y := bestMoves[0].0, bestMoves[0].1;
    p.bd[Idx(x, y)] := nextPlayer;
  }

  /** The cells kept are cells of the board. */
  lemma KeptOnBoard(e: Env, b: seq<int>, next: int, v: int)
    requires EnvOk(e) && |b| == Cells
    ensures forall i :: 0 <= i < |CellsValued(Probes(e, b, next, Cells), v)| ==>
      var (x, y) := CellsValued(Probes(e, b, next, Cells), v)[i]; 0 <= x < 5 && 0 <= y < 5
  {
    ProbesCells(e, b, next, Cells);
    ValuedOnBoard(Probes(e, b, next, Cells), v);
  }

  lemma {:induction false} ValuedOnBoard(os: seq<Offer>, v: int)
    requires forall i :: 0 <= i < |os| ==> 0 <= os[i].x < 5 && 0 <= os[i].y < 5
    ensures forall i :: 0 <= i < |CellsValued(os, v)| ==> 0 <= CellsValued(os, v)[i].0 < 5 && 0 <= CellsValued(os, v)[i].1 < 5
  {
    if os != [] {
      ValuedOnBoard(os[..|os| - 1], v);
    }
  }

  /**
   * With every cell taken the loop offers nothing and main plays cell
   * (0, 0), which is occupied.
   */
  lemma {:induction false} FullBoardPlaysOrigin(e: Env, b: seq<int>, next: int, k: nat)
    requires EnvOk(e) && |b| == Cells && k <= Cells && forall j :: 0 <= j < Cells ==> b[j] != UNSET
    ensures Probes(e, b, next, k) == [] && ProbeLeaves(e, b, next, k) == 0
    ensures Chosen(CellsValued(Probes(e, b, next, k), Playoff.Target(next, Probes(e, b, next, k)))) == (0, 0)
  {
    if k > 0 {
      FullBoardPlaysOrigin(e, b, next, k - 1);
    }
  }
}

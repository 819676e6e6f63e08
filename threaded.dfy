/**
 * The threaded engine of squavathr.go. chooseMove judges every empty cell
 * of the current board at ply 0, before the cell is marked: a cell whose
 * judgement stops the search goes to the keeper at once, every other cell
 * becomes a job, a gameState holding a copy of the board with the cell
 * marked, which a worker searches with the returned-count alphaBeta.
 * The jobs come back in whatever order the workers finish; each result goes
 * to the keeper and its gameState back onto a stack for re-use.
 *
 * The workers run one after another here, in a completion order the caller
 * supplies; the value chosen is shown not to depend on that order.
 */
module Threaded {
  import opened Lines
  import opened Referee
  import opened Evaluate
  import opened Static
  import opened Keeper
  import opened Search
  import opened Variants

  /**
   * setDepth of squavathr.go: 6 before the fourth move, 8 from it, 10 after
   * the tenth; the end-game depth argument is not used.
   */
  method SetDepth(moveCounter: int, endGameDepth: int) returns (maxDepth: int)
    ensures maxDepth == DepthFor(ThreadedDepths, moveCounter)
  {
    maxDepth := 0;
    if moveCounter < 4 {
      maxDepth := 6;
    }
    if moveCounter > 3 {
      maxDepth := 8;
    }
    if moveCounter > 10 {
      maxDepth := 10;
    }
  }

  /** checkMove: a human move is accepted exactly when it names an empty cell on the board. */
  function CheckMove(b: seq<int>, x: int, y: int): (r: bool)
    requires |b| == Cells
    ensures r <==> 0 <= x < 5 && 0 <= y < 5 && b[Idx(x, y)] == UNSET
  {
    if x < 0 || x > 4 || y < 0 || y > 4 then false
    else b[Idx(x, y)] == 0
  }

  /** An accepted move uses up one empty cell of the board. */
  lemma CheckedMoveFills(b: seq<int>, x: int, y: int)
    requires |b| == Cells && CheckMove(b, x, y)
    ensures Empties(b[Idx(x, y) := MINIMIZER]) + 1 == Empties(b)
  {
    EmptiesFill(b, Idx(x, y), MINIMIZER);
  }

  /**
   * gameState: a job, its copy of the board (a Go array, so a value), the
   * depth limit, the cell, and the value and leaf count it comes back with.
   */
  class GameState {
    var bd: seq<int>
    var maxDepth: int
    var x: int
    var y: int
    var value: int
    var leafNodes: int

    /** new(gameState): every field zero. */
    constructor ()
      ensures bd == seq(Cells, _ => UNSET)
    {
      bd := seq(Cells, _ => UNSET);
      maxDepth, x, y, value, leafNodes := 0, 0, 0, 0, 0;
    }
  }

  /** No record occurs twice. */
  predicate Unrepeated(gs: seq<GameState>)
  {
    forall i, j :: 0 <= i < |gs| && 0 <= j < |gs| && i != j ==> gs[i] != gs[j]
  }

  /** No record of one list occurs in the other. */
  predicate Unshared(gs: seq<GameState>, hs: seq<GameState>)
  {
    forall i, j :: 0 <= i < |gs| && 0 <= j < |hs| ==> gs[i] != hs[j]
  }

  /**
   * The stack of unused gameStates of squavathr.go, its top at the end of
   * the sequence; the linked next field is replaced by the sequence.
   */
  class Pool {
    var stack: seq<GameState>

    ghost predicate Valid()
      reads this
    {
      Unrepeated(stack)
    }

    /** The record newState would take, if any. */
    ghost function Top(): set<GameState>
      reads this
    {
      if stack == [] then {} else {stack[|stack| - 1]}
    }

    constructor ()
      ensures Valid() && stack == []
    {
      stack := [];
    }

    /** oldState: pushes a record no longer in use. */
    method OldState(gs: GameState)
      requires Valid() && gs !in stack
      modifies this
      ensures Valid() && stack == old(stack) + [gs]
    {
      stack := stack + [gs];
    }

    /**
     * newState: the top record, or a new one when the stack is empty, filled
     * with a copy of bd in which (x, y) holds the maximizer's mark.
     */
    method NewState(bd: array<int>, maxDepth: int, value: int, x: int, y: int) returns (s: GameState)
      requires Valid() && bd.Length == Cells && 0 <= x < 5 && 0 <= y < 5
      modifies this, Top()
      ensures Valid() && s.bd == bd[..][Idx(x, y) := MAXIMIZER]
      ensures s.maxDepth == maxDepth && s.value == value && s.x == x && s.y == y
      ensures old(stack) == [] ==> fresh(s) && stack == []
      ensures old(stack) != [] ==> s == old(stack)[|old(stack)| - 1] && stack == old(stack)[..|old(stack)| - 1]
    {
      if stack == [] {
        s := new GameState();
      } else {
        s := stack[|stack| - 1];
        stack := stack[..|stack| - 1];
      }
      s.maxDepth := maxDepth;
      s.value := value;
      var cells := [];
      var k := 0;
      while k < Cells
        invariant 0 <= k <= Cells && cells == bd[..k]
      {
        cells := cells + [bd[k]];
        k := k + 1;
      }
      assert bd[..Cells] == bd[..];
      s.bd := cells[Idx(x, y) := MAXIMIZER];
      s.x := x;
      s.y := y;
    }
  }

  /** The judgement at the root: deltaValue at ply 0 for cell k, before k is marked, with nothing carried. */
  function RootJudge(e: Env, b: seq<int>, k: nat): Verdict
    requires EnvOk(e) && |b| == Cells && k < Cells
  {
    Eval(ReturnedCountRule, e, b, 0, k, 0)
  }

  /** A job as chooseMove sends it: the cell and the value the root judgement gave it. */
  datatype Ticket = Ticket(c: nat, v: int)

  /** What a worker computes for a job: the minimizer's reply search below the marked cell. */
  function JobOutcome(e: Env, b: seq<int>, t: Ticket): Outcome
    requires EnvOk(e) && |b| == Cells && t.c < Cells
  {
    Node(ReturnedCountRule, e, b[t.c := MAXIMIZER], 1, MINIMIZER, 2 * LOSS, 2 * WIN, t.c, t.v)
  }

  /** The offer the result of a job makes. */
  function JobOffer(e: Env, b: seq<int>, t: Ticket): Offer
    requires EnvOk(e) && |b| == Cells && t.c < Cells
  {
    Offer(Row(t.c), Col(t.c), JobOutcome(e, b, t).value)
  }

  /** The offers of the empty cells below k whose root judgement stops, in row-major order. */
  function Stopped(e: Env, b: seq<int>, k: nat): seq<Offer>
    requires EnvOk(e) && |b| == Cells && k <= Cells
  {
    if k == 0 then []
    else
      var v := RootJudge(e, b, k - 1);
      Stopped(e, b, k - 1) + (if b[k - 1] == UNSET && v.stop then [Offer(Row(k - 1), Col(k - 1), v.value)] else [])
  }

  /** All cells of the tickets lie below k. */
  predicate Below(ts: seq<Ticket>, k: nat)
  {
    forall i :: 0 <= i < |ts| ==> ts[i].c < k
  }

  /**
   * The empty cells below k whose root judgement does not stop, each with
   * the judgement's value: the jobs, in the order they are sent.
   */
  function Jobs(e: Env, b: seq<int>, k: nat): (ts: seq<Ticket>)
    requires EnvOk(e) && |b| == Cells && k <= Cells
    ensures Below(ts, k)
  {
    if k == 0 then []
    else
      var v := RootJudge(e, b, k - 1);
      Jobs(e, b, k - 1) + (if b[k - 1] == UNSET && !v.stop then [Ticket(k - 1, v.value)] else [])
  }

  /** Each job names an empty cell whose root judgement does not stop, and carries that judgement's value. */
  lemma {:induction false} JobsJudged(e: Env, b: seq<int>, k: nat, i: nat)
    requires EnvOk(e) && |b| == Cells && k <= Cells && i < |Jobs(e, b, k)|
    ensures var t := Jobs(e, b, k)[i]; t.c < k && b[t.c] == UNSET && !RootJudge(e, b, t.c).stop && t.v == RootJudge(e, b, t.c).value
  {
    if i < |Jobs(e, b, k - 1)| {
      JobsJudged(e, b, k - 1, i);
    }
  }

  /** Every empty cell below k is stopped or sent as a job, never both. */
  lemma {:induction false} StoppedJobsCount(e: Env, b: seq<int>, k: nat)
    requires EnvOk(e) && |b| == Cells && k <= Cells
    ensures |Stopped(e, b, k)| + |Jobs(e, b, k)| <= k
  {
    if k > 0 {
      StoppedJobsCount(e, b, k - 1);
    }
  }

  /** Empty cells counted over a board extended by one cell. */
  lemma {:induction false} EmptiesAppend(s: seq<int>, x: int)
    ensures Empties(s + [x]) == Empties(s) + (if x == UNSET then 1 else 0)
  {
    if s != [] {
      assert (s + [x])[1..] == s[1..] + [x];
      EmptiesAppend(s[1..], x);
    }
  }

  /** Every empty cell below k is stopped or sent as a job: together they are the empty cells below k. */
  lemma {:induction false} StoppedJobsEmpties(e: Env, b: seq<int>, k: nat)
    requires EnvOk(e) && |b| == Cells && k <= Cells
    ensures |Stopped(e, b, k)| + |Jobs(e, b, k)| == Empties(b[..k])
  {
    if k > 0 {
      StoppedJobsEmpties(e, b, k - 1);
      assert b[..k] == b[..k - 1] + [b[k - 1]];
      EmptiesAppend(b[..k - 1], b[k - 1]);
    }
  }

  /**
   * The receive loop waits for one result per empty cell. With a depth
   * limit other than 0 that is exactly the number of jobs sent; at 0 no
   * job is sent, so on a board with an empty cell the loop waits for
   * results that never come.
   */
  lemma ReceivesMatchSends(e: Env, b: seq<int>)
    requires EnvOk(e) && Indexed(e.qi, e.ti) && ValidBoard(b)
    ensures e.maxDepth != 0 ==> |Jobs(e, b, Cells)| == Empties(b)
    ensures e.maxDepth == 0 ==> Jobs(e, b, Cells) == [] && |Stopped(e, b, Cells)| == Empties(b)
  {
    AllJobs(e, b, Cells);
    StoppedJobsEmpties(e, b, Cells);
    assert b[..Cells] == b;
  }

  /** The items of xs in the given order of indices. */
  function InOrder<T>(xs: seq<T>, order: seq<nat>): (r: seq<T>)
    requires forall t :: 0 <= t < |order| ==> order[t] < |xs|
  {
    seq(|order|, t requires 0 <= t < |order| => xs[order[t]])
  }

  lemma InOrderStep<T>(xs: seq<T>, order: seq<nat>, t: nat)
    requires forall u :: 0 <= u < |order| ==> order[u] < |xs|
    requires t < |order|
    ensures InOrder(xs, order[..t + 1]) == InOrder(xs, order[..t]) + [xs[order[t]]]
  {
  }

  /** order lists each of the indices below n exactly once: a completion order of n jobs. */
  predicate Arrival(order: seq<nat>, n: nat)
  {
    |order| == n &&
    (forall t :: 0 <= t < n ==> order[t] < n) &&
    (forall t, u :: 0 <= t < u < n ==> order[t] != order[u]) &&
    (forall i :: 0 <= i < n ==> i in order)
  }

  /** The offers of the results of the given jobs, in that order. */
  function Finished(e: Env, b: seq<int>, ts: seq<Ticket>): (os: seq<Offer>)
    requires EnvOk(e) && |b| == Cells && Below(ts, Cells)
  {
    seq(|ts|, i requires 0 <= i < |ts| => JobOffer(e, b, ts[i]))
  }

  /** The leaf counts the given jobs return, added up. */
  function LeavesOf(e: Env, b: seq<int>, ts: seq<Ticket>): nat
    requires EnvOk(e) && |b| == Cells && Below(ts, Cells)
  {
    if ts == [] then 0
    else LeavesOf(e, b, ts[..|ts| - 1]) + JobOutcome(e, b, ts[|ts| - 1]).leaves
  }

  /** The offers chooseMove makes: the stopped cells, then the job results as they arrive. */
  function ThreadOffers(e: Env, b: seq<int>, order: seq<nat>): seq<Offer>
    requires EnvOk(e) && |b| == Cells && Arrival(order, |Jobs(e, b, Cells)|)
  {
    Stopped(e, b, Cells) + Finished(e, b, InOrder(Jobs(e, b, Cells), order))
  }

  /**
   * The root judgement stops only at a depth limit of 0: the judged cell is
   * empty, so no line through it is complete.
   */
  lemma RootJudgeStops(e: Env, b: seq<int>, k: nat)
    requires EnvOk(e) && Indexed(e.qi, e.ti) && ValidBoard(b) && k < Cells && b[k] == UNSET
    ensures RootJudge(e, b, k).stop <==> e.maxDepth == 0
  {
    CatalogueWellFormed();
    ThroughWellFormed(Quads, k, 4);
    ThroughWellFormed(Triplets, k, 3);
    var qs, ts := e.qi[k], e.ti[k];
    ShapedLinesOk(qs, 4);
    ShapedLinesOk(ts, 3);
    forall i | 0 <= i < |qs|
      ensures !Complete(b, qs[i])
    {
      if Complete(b, qs[i]) {
        CompleteOwner(b, qs[i], k);
      }
    }
    forall i | 0 <= i < |ts|
      ensures !Complete(b, ts[i])
    {
      if Complete(b, ts[i]) {
        CompleteOwner(b, ts[i], k);
      }
    }
    DeltaMeaning(ReturnedCountRule.delta, b, k, 0, e.maxDepth, 0, qs, ts, BiasFor(e, 0));
  }

  /**
   * With a depth limit other than 0 no root cell stops and every empty cell
   * becomes a job; with a limit of 0 no job is sent at all.
   */
  /** Some ticket in ts is for cell c. */
  predicate HasJob(ts: seq<Ticket>, c: nat)
  {
    exists i :: 0 <= i < |ts| && ts[i].c == c
  }

  /** Every empty cell below k has a ticket in ts. */
  predicate CoversEmpties(ts: seq<Ticket>, b: seq<int>, k: nat)
    requires k <= |b|
  {
    forall c :: 0 <= c < k && b[c] == UNSET ==> HasJob(ts, c)
  }

  lemma {:induction false} AllJobs(e: Env, b: seq<int>, k: nat)
    requires EnvOk(e) && Indexed(e.qi, e.ti) && ValidBoard(b) && k <= Cells
    ensures e.maxDepth != 0 ==> Stopped(e, b, k) == [] && CoversEmpties(Jobs(e, b, k), b, k)
    ensures e.maxDepth == 0 ==> Jobs(e, b, k) == []
  {
    if k > 0 {
      AllJobs(e, b, k - 1);
      if b[k - 1] == UNSET {
        RootJudgeStops(e, b, k - 1);
      }
      if e.maxDepth != 0 {
        JobsCover(e, b, k);
      }
    }
  }

  /** One step of AllJobs: when cell k - 1 does not stop, the jobs up to k cover what those up to k - 1 did, and cell k - 1 too. */
  lemma JobsCover(e: Env, b: seq<int>, k: nat)
    requires EnvOk(e) && Indexed(e.qi, e.ti) && ValidBoard(b) && 0 < k <= Cells
    requires b[k - 1] == UNSET ==> !RootJudge(e, b, k - 1).stop
    requires CoversEmpties(Jobs(e, b, k - 1), b, k - 1)
    ensures CoversEmpties(Jobs(e, b, k), b, k)
  {
    var js, jk := Jobs(e, b, k - 1), Jobs(e, b, k);
    assert jk[..|js|] == js;
    forall c | 0 <= c < k && b[c] == UNSET
      ensures HasJob(jk, c)
    {
      if c < k - 1 {
        assert HasJob(js, c);
        var i :| 0 <= i < |js| && js[i].c == c;
        assert jk[i] == js[i];
      } else {
        assert jk[|js|].c == c;
      }
    }
  }

  /** Best depends only on which offers are made, not on their order or repetition. */
  lemma BestSameOffers(init: int, os1: seq<Offer>, os2: seq<Offer>)
    requires forall i :: 0 <= i < |os1| ==> os1[i] in os2
    requires forall j :: 0 <= j < |os2| ==> os2[j] in os1
    ensures Best(init, os1) == Best(init, os2)
  {
    var r1, r2 := Best(init, os1), Best(init, os2);
    if r1 != init {
      var i :| 0 <= i < |os1| && os1[i].value == r1;
      var j :| 0 <= j < |os2| && os2[j] == os1[i];
    }
    if r2 != init {
      var j :| 0 <= j < |os2| && os2[j].value == r2;
      var i :| 0 <= i < |os1| && os1[i] == os2[j];
    }
  }

  /** The best value is the same in every completion order: that of the jobs taken in row-major order. */
  lemma OrderFree(e: Env, b: seq<int>, order: seq<nat>)
    requires EnvOk(e) && |b| == Cells && Arrival(order, |Jobs(e, b, Cells)|)
    ensures Best(2 * LOSS, ThreadOffers(e, b, order)) == Best(2 * LOSS, Stopped(e, b, Cells) + Finished(e, b, Jobs(e, b, Cells)))
  {
    var js := Jobs(e, b, Cells);
    var s := Stopped(e, b, Cells);
    var f1, f2 := Finished(e, b, InOrder(js, order)), Finished(e, b, js);
    var os1, os2 := s + f1, s + f2;
    forall i | 0 <= i < |os1|
      ensures os1[i] in os2
    {
      if i >= |s| {
        var t := i - |s|;
        assert os1[i] == f1[t] == f2[order[t]] == os2[|s| + order[t]];
      } else {
        assert os1[i] == os2[i];
      }
    }
    forall j | 0 <= j < |os2|
      ensures os2[j] in os1
    {
      if j >= |s| {
        var c := j - |s|;
        assert c in order;
        var t :| 0 <= t < |order| && order[t] == c;
        assert os2[j] == f2[c] == f1[t] == os1[|s| + t];
      } else {
        assert os2[j] == os1[j];
      }
    }
    BestSameOffers(2 * LOSS, os1, os2);
  }

  /** A record ready to be searched: the board with the job's cell marked, the cell, the limit and the root value. */
  ghost predicate JobReady(g: GameState, b: seq<int>, t: Ticket, md: int)
    reads g
  {
    |b| == Cells && t.c < Cells &&
    g.bd == b[t.c := MAXIMIZER] && g.x == Row(t.c) && g.y == Col(t.c) && g.maxDepth == md && g.value == t.v
  }

  /** The search a worker runs on a ready record, with the engine's own setting, is the job's outcome. */
  lemma WorkerRunsJob(e: Env, b: seq<int>, t: Ticket, bd: seq<int>, x: int, y: int, md: int, v: int)
    requires EnvOk(e) && |b| == Cells && t.c < Cells
    requires bd == b[t.c := MAXIMIZER] && x == Row(t.c) && y == Col(t.c) && md == e.maxDepth && v == t.v
    ensures Node(ReturnedCountRule, e.(maxDepth := md), bd, 1, MINIMIZER, 2 * LOSS, 2 * WIN, Idx(x, y), v) == JobOutcome(e, b, t)
  {
    IdxRowCol(t.c);
    assert e.(maxDepth := md) == e;
  }

  /**
   * worker: searches the job's board from the minimizer's reply at ply 1,
   * with the job's depth limit and root value, and stores the value and the
   * leaf count in the record. The engine searches a copy of the job's board
   * and is left with its own board afterwards.
   */
  method Worker(p: Engine, gs: GameState)
    requires p.Valid() && ValidBoard(gs.bd) && 0 <= gs.x < 5 && 0 <= gs.y < 5
    modifies p`bd, p`maxDepth, p`leafNodeCount, gs
    ensures p.Valid() && p.bd == old(p.bd) && p.maxDepth == gs.maxDepth
    ensures gs.bd == old(gs.bd) && gs.x == old(gs.x) && gs.y == old(gs.y) && gs.maxDepth == old(gs.maxDepth)
    ensures var o := Node(p.rule, old(p.Setting()).(maxDepth := gs.maxDepth), gs.bd, 1, MINIMIZER,
                          2 * LOSS, 2 * WIN, Idx(gs.x, gs.y), old(gs.value));
      gs.value == o.value && gs.leafNodes == o.leaves
  {
    var main := p.bd;
    var cells := gs.bd;
    var board := new int[Cells](i => if 0 <= i < |cells| then cells[i] else UNSET);
    assert board[..] == cells;
    p.bd := board;
    p.maxDepth := gs.maxDepth;
    var value, leafNodes := p.AlphaBeta(1, MINIMIZER, 2 * LOSS, 2 * WIN, Idx(gs.x, gs.y), gs.value);
    gs.value, gs.leafNodes := value, leafNodes;
    p.bd := main;
  }

  /**
   * The first loop of chooseMove: each empty cell in row-major order is
   * judged; a stop goes to the keeper and counts one leaf, anything else is
   * sent as a job.
   */
  method Dispatch(p: Engine, pool: Pool, moves: MoveKeeper, ghost e: Env, ghost b: seq<int>) returns (jobs: seq<GameState>, leaves: int)
    requires p.Valid() && p.rule == ReturnedCountRule && e == p.Setting() && b == p.bd[..]
    requires pool.Valid() && moves.Valid() && moves.offered == []
    modifies pool, moves, moves.moves, set g | g in pool.stack
    ensures pool.Valid() && moves.Valid() && moves.moves == old(moves.moves) && moves.init == old(moves.init) && moves.deterministic == old(moves.deterministic)
    ensures moves.offered == Stopped(e, b, Cells) && leaves == |Stopped(e, b, Cells)|
    ensures var js := Jobs(e, b, Cells); |jobs| == |js| && forall j :: 0 <= j < |jobs| ==> JobReady(jobs[j], b, js[j], e.maxDepth)
    ensures Unrepeated(jobs) && Unshared(pool.stack, jobs)
    ensures forall j :: 0 <= j < |jobs| ==> fresh(jobs[j]) || jobs[j] in old(pool.stack)
  {
    jobs := [];
    leaves := 0;
    var k := 0;
    DispatchingStarts(p, pool, moves, e, b);
    ghost var s0 := pool.stack;
    while k < Cells
      invariant Dispatching(p, pool, moves, jobs, k, leaves, e, b) && pool.stack <= s0 && s0 == old(pool.stack)
      invariant moves.moves == old(moves.moves) && moves.init == old(moves.init) && moves.deterministic == old(moves.deterministic)
      invariant forall g | g in jobs :: fresh(g) || g in s0
    {
      if pool.stack != [] {
        var top := |pool.stack| - 1;
        assert pool.stack[top] == s0[top] && pool.stack[top] in s0;
      }
      jobs, leaves := Judged(p, pool, moves, jobs, k, leaves, e, b, s0);
      k := k + 1;
    }
    assert forall j :: 0 <= j < |jobs| ==> jobs[j] in jobs;
    DispatchingEnds(p, pool, moves, jobs, leaves, e, b);
  }

  /** Before the first cell nothing is offered and nothing is sent. */
  lemma DispatchingStarts(p: Engine, pool: Pool, moves: MoveKeeper, e: Env, b: seq<int>)
    requires p.Valid() && p.rule == ReturnedCountRule && e == p.Setting() && b == p.bd[..]
    requires pool.Valid() && moves.Valid() && moves.offered == []
    ensures Dispatching(p, pool, moves, [], 0, 0, e, b)
  {
  }

  /** After the last cell the keeper holds every stopped cell and the jobs are those of all the other empty cells. */
  lemma DispatchingEnds(p: Engine, pool: Pool, moves: MoveKeeper, jobs: seq<GameState>, leaves: int, e: Env, b: seq<int>)
    requires Dispatching(p, pool, moves, jobs, Cells, leaves, e, b)
    ensures pool.Valid() && moves.Valid()
    ensures moves.offered == Stopped(e, b, Cells) && leaves == |Stopped(e, b, Cells)|
    ensures var js := Jobs(e, b, Cells); |jobs| == |js| && forall j :: 0 <= j < |jobs| ==> JobReady(jobs[j], b, js[j], e.maxDepth)
    ensures Unrepeated(jobs) && Unshared(pool.stack, jobs)
  {
  }

  /**
   * The state of chooseMove's first loop before cell k: the keeper holds the
   * stopped cells below k and the leaf count their number; the jobs are those
   * of the other empty cells below k, each a record of its own.
   */
  ghost predicate Dispatching(p: Engine, pool: Pool, moves: MoveKeeper, jobs: seq<GameState>, k: nat, leaves: int, e: Env, b: seq<int>)
    reads p, p.bd, p.index, pool, moves, moves.moves, set g | g in jobs
  {
    k <= Cells && p.Valid() && p.rule == ReturnedCountRule && e == p.Setting() && b == p.bd[..] && pool.Valid() && moves.Valid() &&
    moves.offered == Stopped(e, b, k) && leaves == |moves.offered| &&
    |jobs| == |Jobs(e, b, k)| && (forall j :: 0 <= j < |jobs| ==> JobReady(jobs[j], b, Jobs(e, b, k)[j], e.maxDepth)) &&
    Unrepeated(jobs) && Unshared(pool.stack, jobs)
  }

  /** One cell of the first loop: judged when empty, then offered to the keeper or sent as a job. */
  method Judged(p: Engine, pool: Pool, moves: MoveKeeper, jobs: seq<GameState>, k: nat, leaves: int, ghost e: Env, ghost b: seq<int>,
                ghost s0: seq<GameState>)
    returns (jobs': seq<GameState>, leaves': int)
    requires k < Cells && Dispatching(p, pool, moves, jobs, k, leaves, e, b) && pool.stack <= s0
    modifies pool, pool.Top(), moves, moves.moves
    ensures Dispatching(p, pool, moves, jobs', k + 1, leaves', e, b) && pool.stack <= s0
    ensures moves.moves == old(moves.moves) && moves.init == old(moves.init) && moves.deterministic == old(moves.deterministic)
    ensures jobs' == jobs || exists g :: jobs' == jobs + [g] && (fresh(g) || g in s0)
  {
    IdxRowCol(k);
    if p.bd[Idx(Row(k), Col(k))] == UNSET {
      jobs', leaves' := JudgedEmpty(p, pool, moves, jobs, k, leaves, e, b, s0);
    } else {
      StoppedJobsCount(e, b, k);
      jobs', leaves' := jobs, leaves;
      assert Jobs(e, b, k + 1) == Jobs(e, b, k) && Stopped(e, b, k + 1) == moves.offered;
    }
  }

  /** The first loop's body at an empty cell k: judge it, then record its value or send it as a job. */
  method JudgedEmpty(p: Engine, pool: Pool, moves: MoveKeeper, jobs: seq<GameState>, k: nat, leaves: int, ghost e: Env, ghost b: seq<int>,
                     ghost s0: seq<GameState>)
    returns (jobs': seq<GameState>, leaves': int)
    requires k < Cells && Dispatching(p, pool, moves, jobs, k, leaves, e, b) && b[k] == UNSET && pool.stack <= s0
    modifies pool, pool.Top(), moves, moves.moves
    ensures Dispatching(p, pool, moves, jobs', k + 1, leaves', e, b) && pool.stack <= s0
    ensures moves.moves == old(moves.moves) && moves.init == old(moves.init) && moves.deterministic == old(moves.deterministic)
    ensures jobs' == jobs || exists g :: jobs' == jobs + [g] && (fresh(g) || g in s0)
  {
    var stop, value := p.Judge(0, k, 0);
    if stop {
      Record(p, pool, moves, jobs, k, leaves, value, e, b);
      jobs', leaves' := jobs, leaves + 1;
    } else {
      jobs' := Dispatched(p, pool, moves, jobs, k, leaves, value, e, b, s0);
      leaves' := leaves;
    }
  }

  /** The job branch of the first loop, stated on the loop's state: the job for cell k joins the others. */
  method Dispatched(p: Engine, pool: Pool, moves: MoveKeeper, jobs: seq<GameState>, k: nat, leaves: int, value: int,
                    ghost e: Env, ghost b: seq<int>, ghost s0: seq<GameState>)
    returns (jobs': seq<GameState>)
    requires k < Cells && Dispatching(p, pool, moves, jobs, k, leaves, e, b) && b[k] == UNSET && pool.stack <= s0
    requires RootJudge(e, b, k) == Verdict(false, value)
    modifies pool, pool.Top()
    ensures Dispatching(p, pool, moves, jobs', k + 1, leaves, e, b) && pool.stack <= s0
    ensures exists g :: jobs' == jobs + [g] && (fresh(g) || g in s0)
  {
    assert Jobs(e, b, k + 1) == Jobs(e, b, k) + [Ticket(k, value)] && Stopped(e, b, k + 1) == Stopped(e, b, k);
    ghost var s1 := pool.stack;
    jobs' := Send(p, pool, jobs, Jobs(e, b, k), k, value, e, b);
    ghost var g := jobs'[|jobs|];
    assert jobs' == jobs + [g];
    if !fresh(g) {
      PrefixMember(s1, s0, g);
    }
    PrefixTrans(pool.stack, s1, s0);
  }

  /** A member of a prefix is a member of the whole. */
  lemma PrefixMember<T>(a: seq<T>, b: seq<T>, x: T)
    requires a <= b && x in a
    ensures x in b
  {
    var i :| 0 <= i < |a| && a[i] == x;
    assert b[i] == x;
  }

  /** A prefix of a prefix is a prefix. */
  lemma PrefixTrans<T>(a: seq<T>, b: seq<T>, c: seq<T>)
    requires a <= b && b <= c
    ensures a <= c
  {
  }

  /** The stop branch of the first loop: an empty cell whose judgement stops goes to the keeper at once. */
  method Record(p: Engine, pool: Pool, moves: MoveKeeper, jobs: seq<GameState>, k: nat, leaves: int, value: int,
                ghost e: Env, ghost b: seq<int>)
    requires k < Cells && Dispatching(p, pool, moves, jobs, k, leaves, e, b) && b[k] == UNSET
    requires RootJudge(e, b, k) == Verdict(true, value)
    modifies moves, moves.moves
    ensures Dispatching(p, pool, moves, jobs, k + 1, leaves + 1, e, b) && moves.moves == old(moves.moves)
    ensures moves.init == old(moves.init) && moves.deterministic == old(moves.deterministic)
  {
    StoppedJobsCount(e, b, k);
    IdxRowCol(k);
    moves.SetMove(Row(k), Col(k), value);
    assert moves.offered == Stopped(e, b, k + 1) && Jobs(e, b, k + 1) == Jobs(e, b, k);
  }

  /** The job branch of the first loop: newState for cell k, sent after the earlier jobs. */
  method Send(p: Engine, pool: Pool, jobs: seq<GameState>, ghost js: seq<Ticket>, k: nat, value: int, ghost e: Env, ghost b: seq<int>)
    returns (jobs': seq<GameState>)
    requires p.Valid() && e == p.Setting() && b == p.bd[..] && k < Cells && pool.Valid()
    requires |jobs| == |js| && forall j :: 0 <= j < |jobs| ==> JobReady(jobs[j], b, js[j], e.maxDepth)
    requires Unrepeated(jobs) && Unshared(pool.stack, jobs)
    modifies pool, pool.Top()
    ensures pool.Valid() && pool.stack <= old(pool.stack)
    ensures |jobs'| == |js| + 1 && jobs'[..|jobs|] == jobs
    ensures forall j :: 0 <= j < |jobs'| ==> JobReady(jobs'[j], b, (js + [Ticket(k, value)])[j], e.maxDepth)
    ensures Unrepeated(jobs') && Unshared(pool.stack, jobs')
    ensures var gs := jobs'[|jobs|]; fresh(gs) || gs in old(pool.stack)
  {
    IdxRowCol(k);
    assert forall j :: 0 <= j < |jobs| ==> jobs[j] !in pool.Top();
    var gs := pool.NewState(p.bd, p.maxDepth, value, Row(k), Col(k));
    assert forall j :: 0 <= j < |jobs| ==> jobs[j] != gs && JobReady(jobs[j], b, js[j], e.maxDepth);
    jobs' := jobs + [gs];
  }

  /**
   * The second loop of chooseMove: the jobs come back in the given order;
   * each result goes to the keeper, its leaf count is added up, and its
   * record goes back onto the stack.
   */
  method Collect(p: Engine, pool: Pool, moves: MoveKeeper, jobs: seq<GameState>, ghost js: seq<Ticket>, arrival: seq<nat>,
                 ghost e: Env, ghost b: seq<int>)
    returns (leaves: int)
    requires p.Valid() && p.rule == ReturnedCountRule && e == p.Setting() && b == p.bd[..] && pool.Valid() && moves.Valid()
    requires |jobs| == |js| && Arrival(arrival, |jobs|) && Below(js, Cells)
    requires forall j :: 0 <= j < |jobs| ==> JobReady(jobs[j], b, js[j], e.maxDepth)
    requires Unrepeated(jobs) && Unshared(pool.stack, jobs)
    requires |moves.offered| + |jobs| <= Cells
    modifies p`bd, p`maxDepth, p`leafNodeCount, pool, moves, moves.moves, set g | g in jobs
    ensures p.Valid() && p.bd == old(p.bd) && p.Setting() == e
    ensures pool.Valid() && moves.Valid() && moves.init == old(moves.init) && moves.deterministic == old(moves.deterministic)
    ensures var order := InOrder(js, arrival);
      moves.offered == old(moves.offered) + Finished(e, b, order) && leaves == LeavesOf(e, b, order)
  {
    ghost var s0, o0 := pool.stack, moves.offered;
    leaves := 0;
    var t := 0;
    ProgressStarts(p, pool, moves, jobs, js, arrival, e, b);
    while t < |arrival|
      invariant 0 <= t <= |arrival| && Progress(p, pool, moves, jobs, js, arrival, t, s0, o0, leaves, e, b) && p.bd == old(p.bd)
      invariant moves.moves == old(moves.moves) && moves.init == old(moves.init) && moves.deterministic == old(moves.deterministic)
    {
      leaves := Arrive(p, pool, moves, jobs, js, arrival, t, s0, o0, leaves, e, b);
      t := t + 1;
    }
    ProgressEnds(p, pool, moves, jobs, js, arrival, s0, o0, leaves, e, b);
  }

  /** Before the first result comes back nothing has changed. */
  lemma ProgressStarts(p: Engine, pool: Pool, moves: MoveKeeper, jobs: seq<GameState>, js: seq<Ticket>, arrival: seq<nat>, e: Env, b: seq<int>)
    requires p.Valid() && p.rule == ReturnedCountRule && e == p.Setting() && b == p.bd[..] && pool.Valid() && moves.Valid()
    requires |jobs| == |js| && Arrival(arrival, |jobs|) && Below(js, Cells)
    requires forall j :: 0 <= j < |jobs| ==> JobReady(jobs[j], b, js[j], e.maxDepth)
    requires Unrepeated(jobs) && Unshared(pool.stack, jobs)
    requires |moves.offered| + |jobs| <= Cells
    ensures Progress(p, pool, moves, jobs, js, arrival, 0, pool.stack, moves.offered, 0, e, b)
  {
    assert arrival[..0] == [];
  }

  /** After the last result the keeper and the leaf count hold every job's result in arrival order. */
  lemma ProgressEnds(p: Engine, pool: Pool, moves: MoveKeeper, jobs: seq<GameState>, js: seq<Ticket>, arrival: seq<nat>,
                     s0: seq<GameState>, o0: seq<Offer>, leaves: int, e: Env, b: seq<int>)
    requires Progress(p, pool, moves, jobs, js, arrival, |arrival|, s0, o0, leaves, e, b)
    ensures var order := InOrder(js, arrival);
      moves.offered == o0 + Finished(e, b, order) && leaves == LeavesOf(e, b, order)
  {
    assert arrival[..|arrival|] == arrival;
  }

  /** The t-th arrival adds the offer and the leaf count of its job to those of the earlier arrivals. */
  lemma ArrivalStep(e: Env, b: seq<int>, js: seq<Ticket>, arrival: seq<nat>, t: nat)
    requires EnvOk(e) && |b| == Cells && Arrival(arrival, |js|) && t < |arrival| && Below(js, Cells)
    ensures Finished(e, b, InOrder(js, arrival[..t + 1])) == Finished(e, b, InOrder(js, arrival[..t])) + [JobOffer(e, b, js[arrival[t]])]
    ensures LeavesOf(e, b, InOrder(js, arrival[..t + 1])) == LeavesOf(e, b, InOrder(js, arrival[..t])) + JobOutcome(e, b, js[arrival[t]]).leaves
  {
    InOrderStep(js, arrival, t);
    var done := InOrder(js, arrival[..t + 1]);
    assert done[..|done| - 1] == InOrder(js, arrival[..t]);
  }

  /**
   * The record of the t-th arrival is neither on the stack nor among the
   * records still out, so pushing it keeps the stack free of repeats.
   */
  lemma ReturnedOnce(jobs: seq<GameState>, s0: seq<GameState>, arrival: seq<nat>, t: nat)
    requires Unrepeated(jobs) && Unshared(s0, jobs) && Arrival(arrival, |jobs|) && t < |arrival|
    ensures jobs[arrival[t]] !in s0 + InOrder(jobs, arrival[..t])
    ensures forall u :: t < u < |arrival| ==> jobs[arrival[u]] != jobs[arrival[t]]
    ensures s0 + InOrder(jobs, arrival[..t + 1]) == s0 + InOrder(jobs, arrival[..t]) + [jobs[arrival[t]]]
  {
    var gs := jobs[arrival[t]];
    var stack := s0 + InOrder(jobs, arrival[..t]);
    forall i | 0 <= i < |stack|
      ensures stack[i] != gs
    {
      if i >= |s0| {
        assert stack[i] == jobs[arrival[i - |s0|]];
      }
    }
    InOrderStep(jobs, arrival, t);
  }

  /** The worker's search for the t-th arrival; the jobs still to come back are left as they were. */
  method Serve(p: Engine, jobs: seq<GameState>, ghost js: seq<Ticket>, arrival: seq<nat>, t: nat, ghost e: Env, ghost b: seq<int>)
    requires p.Valid() && p.rule == ReturnedCountRule && e == p.Setting() && ValidBoard(b)
    requires |jobs| == |js| && Arrival(arrival, |jobs|) && t < |arrival| && Unrepeated(jobs) && Below(js, Cells)
    requires Waiting(jobs, js, arrival, t, b, e.maxDepth)
    modifies p`bd, p`maxDepth, p`leafNodeCount, jobs[arrival[t]]
    ensures p.Valid() && p.bd == old(p.bd) && p.Setting() == e && Waiting(jobs, js, arrival, t + 1, b, e.maxDepth)
    ensures var gs, o := jobs[arrival[t]], JobOutcome(e, b, js[arrival[t]]);
      gs.x == Row(js[arrival[t]].c) && gs.y == Col(js[arrival[t]].c) && gs.value == o.value && gs.leafNodes == o.leaves
  {
    var gs := jobs[arrival[t]];
    assert forall u :: t < u < |arrival| ==> jobs[arrival[u]] != gs;
    RunJob(p, gs, e, b, js[arrival[t]]);
  }

  /** A worker run on a ready record: it comes back with the job's outcome, and the engine is as it was. */
  method RunJob(p: Engine, gs: GameState, ghost e: Env, ghost b: seq<int>, ghost t: Ticket)
    requires p.Valid() && p.rule == ReturnedCountRule && e == p.Setting() && ValidBoard(b) && JobReady(gs, b, t, e.maxDepth)
    modifies p`bd, p`maxDepth, p`leafNodeCount, gs
    ensures p.Valid() && p.bd == old(p.bd) && p.Setting() == e
    ensures gs.x == Row(t.c) && gs.y == Col(t.c)
    ensures gs.value == JobOutcome(e, b, t).value && gs.leafNodes == JobOutcome(e, b, t).leaves
  {
    WorkerRunsJob(e, b, t, gs.bd, gs.x, gs.y, gs.maxDepth, gs.value);
    assert ValidBoard(gs.bd);
    IdxRowCol(t.c);
    Worker(p, gs);
  }

  /**
   * The state of chooseMove's second loop after t results: the engine and its
   * board as at the start, the stack holding what was popped back in arrival
   * order, the keeper and the leaf count holding those results, and the jobs
   * still out untouched.
   */
  ghost predicate Progress(p: Engine, pool: Pool, moves: MoveKeeper, jobs: seq<GameState>, js: seq<Ticket>, arrival: seq<nat>,
                           t: nat, s0: seq<GameState>, o0: seq<Offer>, leaves: int, e: Env, b: seq<int>)
    reads p, p.bd, p.index, pool, moves, moves.moves, set g | g in jobs
  {
    p.Valid() && p.rule == ReturnedCountRule && e == p.Setting() && b == p.bd[..] && pool.Valid() && moves.Valid() &&
    |jobs| == |js| && Arrival(arrival, |jobs|) && t <= |arrival| && Below(js, Cells) &&
    Unrepeated(jobs) && Unshared(s0, jobs) && |o0| + |jobs| <= Cells &&
    pool.stack == s0 + InOrder(jobs, arrival[..t]) &&
    moves.offered == o0 + Finished(e, b, InOrder(js, arrival[..t])) &&
    leaves == LeavesOf(e, b, InOrder(js, arrival[..t])) &&
    Waiting(jobs, js, arrival, t, b, e.maxDepth)
  }

  /** The jobs that come back from the t-th arrival on are still ready for their searches. */
  ghost predicate Waiting(jobs: seq<GameState>, js: seq<Ticket>, arrival: seq<nat>, t: nat, b: seq<int>, md: int)
    requires |jobs| == |js| && Arrival(arrival, |jobs|)
    reads set g | g in jobs
  {
    forall u :: t <= u < |arrival| ==> JobReady(jobs[arrival[u]], b, js[arrival[u]], md)
  }

  /** The t-th result to come back: the job js[arrival[t]], searched and handed to the keeper. */
  method Arrive(p: Engine, pool: Pool, moves: MoveKeeper, jobs: seq<GameState>, ghost js: seq<Ticket>, arrival: seq<nat>,
                t: nat, ghost s0: seq<GameState>, ghost o0: seq<Offer>, leaves: int, ghost e: Env, ghost b: seq<int>)
    returns (leaves': int)
    requires t < |arrival| && Progress(p, pool, moves, jobs, js, arrival, t, s0, o0, leaves, e, b)
    modifies p`bd, p`maxDepth, p`leafNodeCount, pool, moves, moves.moves, jobs[arrival[t]]
    ensures Progress(p, pool, moves, jobs, js, arrival, t + 1, s0, o0, leaves', e, b) && p.bd == old(p.bd)
    ensures moves.moves == old(moves.moves) && moves.init == old(moves.init) && moves.deterministic == old(moves.deterministic)
  {
    var gs := jobs[arrival[t]];
    ghost var job := js[arrival[t]];
    ReturnedOnce(jobs, s0, arrival, t);
    ArrivalStep(e, b, js, arrival, t);
    assert |InOrder(js, arrival[..t])| == t < |jobs|;
    Serve(p, jobs, js, arrival, t, e, b);
    leaves' := leaves + gs.leafNodes;
    Deliver(pool, moves, gs);
  }

  /** A result handed on: its offer goes to the keeper and its record back onto the stack. */
  method Deliver(pool: Pool, moves: MoveKeeper, gs: GameState)
    requires pool.Valid() && gs !in pool.stack && moves.Valid() && |moves.offered| < Cells
    modifies pool, moves, moves.moves
    ensures pool.Valid() && pool.stack == old(pool.stack) + [gs]
    ensures moves.Valid() && moves.moves == old(moves.moves)
    ensures moves.init == old(moves.init) && moves.deterministic == old(moves.deterministic)
    ensures moves.offered == old(moves.offered) + [Offer(gs.x, gs.y, gs.value)]
  {
    assert |CellsValued(moves.offered, moves.max)| <= |moves.offered|;
    moves.SetMove(gs.x, gs.y, gs.value);
    pool.OldState(gs);
  }

  /**
   * chooseMove of squavathr.go: the depth limit is lowered by one, the root
   * cells are judged and the rest sent out as jobs, the results collected in
   * the given completion order, and the keeper asked for a move (rnd is its
   * random draw). The value does not depend on the completion order.
   * A depth of 1 lowers the limit to 0, no job is sent and the receive
   * loop never ends (ReceivesMatchSends), so callers pass another depth.
   */
  method ChooseMove(p: Engine, pool: Pool, deterministic: bool, maxDepth: int, arrival: seq<nat>, rnd: int)
    returns (xcoord: int, ycoord: int, value: int, leafNodes: int)
    requires p.Valid() && p.rule == ReturnedCountRule && pool.Valid() && maxDepth != 1
    requires var e, b := p.Setting().(maxDepth := maxDepth - 1), p.bd[..];
      Arrival(arrival, |Jobs(e, b, Cells)|) &&
      (var os := ThreadOffers(e, b, arrival); var kept := CellsValued(os, Best(2 * LOSS, os));
       !deterministic && kept != [] ==> 0 <= rnd < |kept|)
    modifies p`bd, p`maxDepth, p`leafNodeCount, pool, set g | g in pool.stack
    ensures p.Valid() && p.bd == old(p.bd) && p.bd[..] == old(p.bd[..]) && p.maxDepth == maxDepth - 1 && pool.Valid()
    ensures var e, b := old(p.Setting()).(maxDepth := maxDepth - 1), old(p.bd[..]);
      var os := ThreadOffers(e, b, arrival);
      var kept := CellsValued(os, Best(2 * LOSS, os));
      leafNodes == |Stopped(e, b, Cells)| + LeavesOf(e, b, InOrder(Jobs(e, b, Cells), arrival)) &&
      (kept == [] ==> xcoord == -1 && ycoord == -1 && value == 0) &&
      (kept != [] ==> (xcoord, ycoord) == kept[if deterministic then 0 else rnd] &&
                      value == Best(2 * LOSS, Stopped(e, b, Cells) + Finished(e, b, Jobs(e, b, Cells))))
  {
    var moves := new MoveKeeper(2 * LOSS, deterministic);
    ghost var e0 := p.Setting();
    p.maxDepth := maxDepth - 1;
    ghost var e, b := p.Setting(), p.bd[..];
    assert e == e0.(maxDepth := maxDepth - 1);
    leafNodes := Gather(p, pool, moves, arrival, e, b);
    xcoord, ycoord, value := moves.ChooseMove(rnd);
    OrderFree(e, b, arrival);
  }

  /** Both loops of chooseMove: every empty cell is offered to the keeper, stopped cells first, then jobs as they come back. */
  method Gather(p: Engine, pool: Pool, moves: MoveKeeper, arrival: seq<nat>, ghost e: Env, ghost b: seq<int>)
    returns (leafNodes: int)
    requires p.Valid() && p.rule == ReturnedCountRule && e == p.Setting() && b == p.bd[..] && pool.Valid()
    requires moves.Valid() && moves.offered == [] && Arrival(arrival, |Jobs(e, b, Cells)|)
    modifies p`bd, p`maxDepth, p`leafNodeCount, pool, moves, moves.moves, set g | g in pool.stack
    ensures p.Valid() && p.bd == old(p.bd) && p.Setting() == e && pool.Valid()
    ensures moves.Valid() && moves.init == old(moves.init) && moves.deterministic == old(moves.deterministic)
    ensures moves.offered == ThreadOffers(e, b, arrival)
    ensures leafNodes == |Stopped(e, b, Cells)| + LeavesOf(e, b, InOrder(Jobs(e, b, Cells), arrival))
  {
    ghost var js := Jobs(e, b, Cells);
    var jobs, stops := Dispatch(p, pool, moves, e, b);
    StoppedJobsCount(e, b, Cells);
    assert forall g | g in jobs :: fresh(g) || g in old(pool.stack);
    var done := Collect(p, pool, moves, jobs, js, arrival, e, b);
    leafNodes := stops + done;
  }
}

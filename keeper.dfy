/**
 * Root move selection: the engines offer every root move with its value to a
 * keeper, which remembers the moves tied at the best value seen so far, then
 * ask it for one of them.
 */
module Keeper {
  /** A move offered to a keeper: the cell (x, y) and its search value. */
  datatype Offer = Offer(x: int, y: int, value: int)

  /** The largest of init and the offered values. */
  function Best(init: int, os: seq<Offer>): (r: int)
    ensures r >= init && forall i :: 0 <= i < |os| ==> os[i].value <= r
    ensures r == init || exists i :: 0 <= i < |os| && os[i].value == r
  {
    if os == [] then init
    else
      var m := Best(init, os[..|os| - 1]);
      var v := os[|os| - 1].value;
      assert forall i :: 0 <= i < |os| - 1 ==> os[..|os| - 1][i] == os[i];
      if v > m then v else m
  }

  /** The cells of the offers whose value is v, in the order they were offered. */
  function CellsValued(os: seq<Offer>, v: int): (r: seq<(int, int)>)
    ensures |r| <= |os|
  {
    if os == [] then []
    else
      var last := os[|os| - 1];
      CellsValued(os[..|os| - 1], v) + (if last.value == v then [(last.x, last.y)] else [])
  }

  /** The index of the last offer whose value is v, if any. */
  function LastValued(os: seq<Offer>, v: int): (r: int)
    ensures -1 <= r < |os|
    ensures r >= 0 ==> os[r].value == v && forall i :: r < i < |os| ==> os[i].value != v
    ensures r == -1 ==> forall i :: 0 <= i < |os| ==> os[i].value != v
  {
    if os == [] then -1
    else if os[|os| - 1].value == v then |os| - 1
    else
      assert forall i :: 0 <= i < |os| - 1 ==> os[..|os| - 1][i] == os[i];
      LastValued(os[..|os| - 1], v)
  }

  /** One more offer: the best value rises to it exactly when it is larger. */
  lemma BestAppend(init: int, os: seq<Offer>, o: Offer)
    ensures Best(init, os + [o]) == if o.value > Best(init, os) then o.value else Best(init, os)
  {
    assert (os + [o])[..|os|] == os;
  }

  /** One more offer: it becomes the last one valued v exactly when its value is v. */
  lemma LastValuedAppend(os: seq<Offer>, o: Offer, v: int)
    ensures LastValued(os + [o], v) == if o.value == v then |os| else LastValued(os, v)
  {
    assert (os + [o])[..|os|] == os;
  }

  lemma {:induction false} CellsValuedNone(os: seq<Offer>, v: int)
    requires forall i :: 0 <= i < |os| ==> os[i].value < v
    ensures CellsValued(os, v) == []
  {
    if os != [] {
      CellsValuedNone(os[..|os| - 1], v);
    }
  }

  /** Every kept cell was offered with the kept value. */
  lemma {:induction false} CellsValuedOffered(os: seq<Offer>, v: int, k: int)
    requires 0 <= k < |CellsValued(os, v)|
    ensures exists i :: 0 <= i < |os| && os[i].value == v && CellsValued(os, v)[k] == (os[i].x, os[i].y)
  {
    var init := os[..|os| - 1];
    var r := CellsValued(os, v);
    if k < |CellsValued(init, v)| {
      CellsValuedOffered(init, v, k);
      var i :| 0 <= i < |init| && init[i].value == v && CellsValued(init, v)[k] == (init[i].x, init[i].y);
      assert os[i] == init[i] && r[k] == CellsValued(init, v)[k];
    } else {
      var j := |os| - 1;
      assert os[j].value == v && r[k] == (os[j].x, os[j].y);
    }
  }

  /** Every offer with the kept value is kept: the list is as long as the set of such offers. */
  lemma {:induction false} CellsValuedCount(os: seq<Offer>, v: int)
    ensures |CellsValued(os, v)| == |set i | 0 <= i < |os| && os[i].value == v|
  {
    var t := set i | 0 <= i < |os| && os[i].value == v;
    if os != [] {
      var init := os[..|os| - 1];
      CellsValuedCount(init, v);
      var s := set i | 0 <= i < |init| && init[i].value == v;
      if os[|os| - 1].value == v {
        assert t == s + {|os| - 1};
      } else {
        assert t == s;
      }
    } else {
      assert t == {};
    }
  }

  /**
   * MoveKeeper from the movekeeper package (and its copies in the stand-alone
   * engines): a fixed buffer of 25 cells, the count of tied cells in use and
   * the best value. The ghost fields record the initial bound and the offers
   * made so far, to state what the buffer holds.
   */
  class MoveKeeper {
    var moves: array<(int, int)>
    var next: int
    var max: int
    var deterministic: bool
    ghost var init: int
    ghost var offered: seq<Offer>

    /** The buffer holds exactly the offered cells tied at the best value, and max is that value. */
    ghost predicate Valid()
      reads this, moves
    {
      moves.Length == 25 && 0 <= next <= 25 &&
      max == Best(init, offered) &&
      moves[..next] == CellsValued(offered, max)
    }

    /** New: nothing kept yet, with the given starting bound. */
    constructor (max: int, deterministic: bool)
      ensures Valid() && fresh(moves)
      ensures this.next == 0 && this.max == max && this.deterministic == deterministic
      ensures this.init == max && this.offered == []
    {
      moves := new (int, int)[25];
      next := 0;
      this.max := max;
      this.deterministic := deterministic;
      init := max;
      offered := [];
    }

    /**
     * SetMove: a value below max is ignored; a larger value restarts the list
     * with (a, b); an equal value appends (a, b) after the earlier ties. The
     * buffer holds 25 cells, so an equal value needs a free slot.
     */
    method SetMove(a: int, b: int, value: int)
      requires Valid()
      requires value > max || next < 25
      modifies this, moves
      ensures Valid() && moves == old(moves) && deterministic == old(deterministic) && init == old(init)
      ensures offered == old(offered) + [Offer(a, b, value)]
      ensures value < old(max) ==> max == old(max) && next == old(next) && moves[..next] == old(moves[..next])
      ensures value > old(max) ==> max == value && moves[..next] == [(a, b)]
      ensures value == old(max) ==> max == old(max) && moves[..next] == old(moves[..next]) + [(a, b)]
    {
      var o := Offer(a, b, value);
      ghost var os := offered + [o];
      assert os[..|os| - 1] == offered;
      if value > max {
        CellsValuedNone(offered, value);
        assert CellsValued(os, value) == [(a, b)];
        max := value;
        moves[0] := (a, b);
        next := 1;
      } else if value == max {
        assert CellsValued(os, max) == moves[..next] + [(a, b)];
        moves[next] := (a, b);
        next := next + 1;
      } else {
        assert CellsValued(os, max) == CellsValued(offered, max);
      }
      offered := os;
    }

    /**
     * ChooseMove: (-1, -1, 0) when nothing was kept; otherwise the first kept
     * cell when deterministic, else the kept cell at the caller-supplied index
     * r (the random draw), with the best value.
     */
    method ChooseMove(r: int) returns (x: int, y: int, value: int)
      requires Valid()
      requires !deterministic && next > 0 ==> 0 <= r < next
      ensures next == 0 ==> x == -1 && y == -1 && value == 0
      ensures next > 0 ==> value == max && Best(init, offered) == value
      ensures next > 0 && deterministic ==> (x, y) == CellsValued(offered, max)[0]
      ensures next > 0 && !deterministic ==> (x, y) == CellsValued(offered, max)[r]
      ensures next > 0 ==> exists i :: 0 <= i < |offered| && offered[i] == Offer(x, y, value)
      ensures var kept := CellsValued(offered, Best(init, offered));
        (kept == [] ==> x == -1 && y == -1 && value == 0) &&
        (kept != [] ==> value == Best(init, offered) && (x, y) == kept[if deterministic then 0 else r])
    {
      assert |moves[..next]| == next;
      if next == 0 {
        return -1, -1, 0;
      }
      var k := 0;
      if !deterministic {
        k := r;
      }
      x, y := moves[k].0, moves[k].1;
      value := max;
      CellsValuedOffered(offered, max, k);
      assert (x, y) == CellsValued(offered, max)[k];
      ghost var i :| 0 <= i < |offered| && offered[i].value == max && CellsValued(offered, max)[k] == (offered[i].x, offered[i].y);
      assert offered[i] == Offer(x, y, value);
    }
  }

  /** The slot (x, y, hist) holds the last offer at the best value max, or its start values when every offer was lower. */
  ghost predicate Slot<H>(init: int, offered: seq<Offer>, hists: seq<H>, start: (int, int), startHist: H,
                          max: int, x: int, y: int, hist: H)
  {
    |hists| == |offered| &&
    max == Best(init, offered) &&
    var k := LastValued(offered, max);
    (k >= 0 ==> x == offered[k].x && y == offered[k].y && hist == hists[k]) &&
    (k < 0 ==> (x, y) == start && hist == startHist)
  }

  /** setMove keeps the slot: an offer at least max takes it over, a lower one leaves it. */
  lemma SlotStep<H>(init: int, offered: seq<Offer>, hists: seq<H>, start: (int, int), startHist: H,
                    max: int, x: int, y: int, hist: H, a: int, b: int, value: int, h: H)
    requires Slot(init, offered, hists, start, startHist, max, x, y, hist)
    ensures value >= max ==> Slot(init, offered + [Offer(a, b, value)], hists + [h], start, startHist, value, a, b, h)
    ensures value < max ==> Slot(init, offered + [Offer(a, b, value)], hists + [h], start, startHist, max, x, y, hist)
  {
    var os, hs := offered + [Offer(a, b, value)], hists + [h];
    BestAppend(init, offered, Offer(a, b, value));
    if value >= max {
      LastValuedAppend(offered, Offer(a, b, value), value);
      assert hs[|offered|] == h;
    } else {
      var k := LastValued(offered, max);
      LastValuedAppend(offered, Offer(a, b, value), max);
      assert k >= 0 ==> os[k] == offered[k] && hs[k] == hists[k];
    }
  }

  /**
   * The single-slot keeper of the history-keeping NegaScout engine: a value
   * at least max overwrites the slot, so the last of several ties wins.
   */
  class SlotKeeper<H> {
    var x: int
    var y: int
    var max: int
    var hist: H
    ghost var init: int
    ghost var start: (int, int)
    ghost var startHist: H
    ghost var offered: seq<Offer>
    ghost var hists: seq<H>

    /** The slot holds the last offer at the best value, or its start values when every offer was lower. */
    ghost predicate Valid()
      reads this
    {
      Slot(init, offered, hists, start, startHist, max, x, y, hist)
    }

    /** A keeper whose slot starts at (a, b) with the given bound and history. */
    constructor (a: int, b: int, max: int, h: H)
      ensures Valid() && this.max == max && x == a && y == b && hist == h
      ensures init == max && start == (a, b) && startHist == h && offered == [] && hists == []
    {
      x, y := a, b;
      this.max := max;
      hist := h;
      init := max;
      start, startHist := (a, b), h;
      offered, hists := [], [];
    }

    /** setMove: overwrite the slot whenever value >= max. */
    method SetMove(a: int, b: int, value: int, h: H)
      requires Valid()
      modifies this
      ensures Valid() && init == old(init) && start == old(start) && startHist == old(startHist)
      ensures offered == old(offered) + [Offer(a, b, value)] && hists == old(hists) + [h]
      ensures value >= old(max) ==> max == value && x == a && y == b && hist == h
      ensures value < old(max) ==> max == old(max) && x == old(x) && y == old(y) && hist == old(hist)
    {
      SlotStep(init, offered, hists, start, startHist, max, x, y, hist, a, b, value, h);
      var m, sx, sy, sh := max, x, y, hist;
      if value >= max {
        m, sx, sy, sh := value, a, b, h;
      }
      ghost var os, hs := offered + [Offer(a, b, value)], hists + [h];
      assert Slot(init, os, hs, start, startHist, m, sx, sy, sh);
      max, x, y, hist := m, sx, sy, sh;
      offered, hists := os, hs;
    }

    /** chooseMove: the slot as it stands; after at least one offer at or above the start value, the last best one. */
    method ChooseMove() returns (a: int, b: int, value: int, h: H)
      requires Valid()
      ensures value == Best(init, offered)
      ensures var k := LastValued(offered, value);
        k >= 0 ==> (a, b) == (offered[k].x, offered[k].y) && offered[k].value == value && h == hists[k]
    ensures LastValued(offered, value) < 0 ==> (a, b) == start && h == startHist
    {
      return x, y, max, hist;
    }
  }
}

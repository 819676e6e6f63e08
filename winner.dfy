/**
 * Deciding the game: a complete quad wins for its owner, otherwise a complete
 * triplet loses for its owner. Every minimax engine scans the whole catalogue
 * this way; the Monte Carlo engines scan per-cell tables (see Mcts).
 */
module Referee {
  import opened Lines

  /** Every line of ls is a well-formed triplet or quad. */
  predicate LinesOk(ls: seq<Line>)
  {
    forall i :: 0 <= i < |ls| ==> WellFormed(ls[i], |ls[i]|)
  }

  lemma CatalogueOk()
    ensures LinesOk(Triplets) && LinesOk(Quads)
  {
    CatalogueWellFormed();
  }

  predicate AnyComplete(b: seq<int>, ls: seq<Line>)
    requires |b| == Cells && LinesOk(ls)
  {
    exists i :: 0 <= i < |ls| && Complete(b, ls[i])
  }

  /** The owner of the first complete line of ls, or UNSET when none is complete. */
  function FirstOwner(b: seq<int>, ls: seq<Line>): int
    requires |b| == Cells && LinesOk(ls)
  {
    if ls == [] then UNSET
    else if Complete(b, ls[0]) then b[ls[0][0]]
    else FirstOwner(b, ls[1..])
  }

  lemma {:induction false} FirstOwnerFacts(b: seq<int>, ls: seq<Line>)
    requires ValidBoard(b) && LinesOk(ls)
    ensures FirstOwner(b, ls) == UNSET <==> !AnyComplete(b, ls)
    ensures FirstOwner(b, ls) != UNSET ==>
      exists i :: 0 <= i < |ls| && Complete(b, ls[i]) && OwnedBy(b, ls[i], FirstOwner(b, ls))
    ensures FirstOwner(b, ls) == MAXIMIZER || FirstOwner(b, ls) == MINIMIZER || FirstOwner(b, ls) == UNSET
  {
    if ls != [] {
      if Complete(b, ls[0]) {
        var l := ls[0];
        CompleteOwner(b, l, l[0]);
        CompleteOwner(b, l, l[1]);
        CompleteOwner(b, l, l[2]);
        if |l| == 4 {
          CompleteOwner(b, l, l[3]);
        }
      } else {
        FirstOwnerFacts(b, ls[1..]);
        if AnyComplete(b, ls) {
          var i :| 0 <= i < |ls| && Complete(b, ls[i]);
          assert ls[1..][i - 1] == ls[i];
        }
        if FirstOwner(b, ls) != UNSET {
          var i :| 0 <= i < |ls[1..]| && Complete(b, ls[1..][i]) && OwnedBy(b, ls[1..][i], FirstOwner(b, ls));
          assert ls[i + 1] == ls[1..][i];
        }
      }
    }
  }

  /** A complete quad's owner among qs, else the opponent of a complete triplet's owner among ts. */
  function Decide(b: seq<int>, qs: seq<Line>, ts: seq<Line>): int
    requires |b| == Cells && LinesOk(qs) && LinesOk(ts)
  {
    var q := FirstOwner(b, qs);
    if q != UNSET then q else -FirstOwner(b, ts)
  }

  lemma DecideMeaning(b: seq<int>, qs: seq<Line>, ts: seq<Line>)
    requires ValidBoard(b) && LinesOk(qs) && LinesOk(ts)
    ensures Decide(b, qs, ts) == MAXIMIZER || Decide(b, qs, ts) == MINIMIZER || Decide(b, qs, ts) == UNSET
    ensures Decide(b, qs, ts) == UNSET <==> !AnyComplete(b, qs) && !AnyComplete(b, ts)
    ensures AnyComplete(b, qs) ==> exists i :: 0 <= i < |qs| && OwnedBy(b, qs[i], Decide(b, qs, ts))
    ensures !AnyComplete(b, qs) && AnyComplete(b, ts) ==>
      exists i :: 0 <= i < |ts| && OwnedBy(b, ts[i], -Decide(b, qs, ts))
  {
    FirstOwnerFacts(b, qs);
    FirstOwnerFacts(b, ts);
  }

  /** The winner as the engines define it: a complete quad's owner, else the opponent of a complete triplet's owner. */
  function Winner(b: seq<int>): int
    requires |b| == Cells
  {
    CatalogueOk();
    Decide(b, Quads, Triplets)
  }

  /**
   * The result is UNSET exactly when no line is complete; a non-UNSET result
   * owns a complete quad, or, when no quad is complete, the other player owns a
   * complete triplet. The catalogue is passed as qs and ts, equal to Quads and
   * Triplets, so that its lines are reasoned about symbolically.
   */
  lemma WinnerMeaning(b: seq<int>, qs: seq<Line>, ts: seq<Line>)
    requires ValidBoard(b) && qs == Quads && ts == Triplets
    ensures LinesOk(qs) && LinesOk(ts) && Winner(b) == Decide(b, qs, ts)
    ensures Winner(b) == MAXIMIZER || Winner(b) == MINIMIZER || Winner(b) == UNSET
    ensures Winner(b) == UNSET <==> !AnyComplete(b, qs) && !AnyComplete(b, ts)
    ensures AnyComplete(b, qs) ==> exists i :: 0 <= i < |qs| && OwnedBy(b, qs[i], Winner(b))
    ensures !AnyComplete(b, qs) && AnyComplete(b, ts) ==>
      exists i :: 0 <= i < |ts| && OwnedBy(b, ts[i], -Winner(b))
  {
    CatalogueOk();
    DecideMeaning(b, qs, ts);
  }

  lemma {:induction false} FirstOwnerStep(b: seq<int>, ls: seq<Line>, k: nat)
    requires |b| == Cells && LinesOk(ls) && k < |ls|
    ensures FirstOwner(b, ls[k..]) == if Complete(b, ls[k]) then b[ls[k][0]] else FirstOwner(b, ls[k + 1..])
  {
    assert ls[k..][1..] == ls[k + 1..];
  }

  /** Scans lines the way findWinner does: the first line summing to +-length decides. */
  method ScanLines(bd: array<int>, ls: seq<Line>) returns (owner: int)
    requires bd.Length == Cells && LinesOk(ls)
    ensures owner == FirstOwner(bd[..], ls)
  {
    var k := 0;
    while k < |ls|
      invariant 0 <= k <= |ls|
      invariant FirstOwner(bd[..], ls) == FirstOwner(bd[..], ls[k..])
    {
      var l := ls[k];
      FirstOwnerStep(bd[..], ls, k);
      var sum := bd[l[0]] + bd[l[1]] + bd[l[2]];
      if |l| == 4 {
        sum := sum + bd[l[3]];
      }
      if sum == |l| || sum == -|l| {
        return bd[l[0]];
      }
      k := k + 1;
    }
    assert ls[k..] == [];
    owner := UNSET;
  }

  method ScanDecide(bd: array<int>, qs: seq<Line>, ts: seq<Line>) returns (w: int)
    requires bd.Length == Cells && LinesOk(qs) && LinesOk(ts)
    ensures w == Decide(bd[..], qs, ts)
  {
    var q := ScanLines(bd, qs);
    if q != UNSET {
      return q;
    }
    var t := ScanLines(bd, ts);
    w := -t;
  }

  /** findWinner: quads first, then triplets, over the whole catalogue. */
  method FindWinner(bd: array<int>) returns (w: int)
    requires bd.Length == Cells
    ensures w == Winner(bd[..])
  {
    CatalogueOk();
    w := ScanDecide(bd, Quads, Triplets);
  }
}

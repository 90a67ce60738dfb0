/** Price ranking of one side of an order book: bids rank high to low, asks low to high. */
module Ranking {
  import opened Prelude

  predicate Beats(high: bool, x: real, y: real) {
    if high then x > y else x < y
  }

  lemma {:induction false} BestExists(s: set<real>, high: bool)
    requires s != {}
    ensures exists m :: m in s && forall x :: x in s ==> !Beats(high, x, m)
  {
    var x := Pick(s);
    var rest := s - {x};
    if rest == {} {
      assert s == {x};
    } else {
      BestExists(rest, high);
      var m :| m in rest && forall y :: y in rest ==> !Beats(high, y, m);
      var best := if Beats(high, x, m) then x else m;
      assert forall y :: y in s ==> y == x || y in rest;
      assert best in s && forall y :: y in s ==> !Beats(high, y, best);
    }
  }

  /** The best price of a non-empty side: `max` of the bids, `min` of the asks. */
  function Best(s: set<real>, high: bool): (m: real)
    requires s != {}
    ensures m in s
    ensures forall x :: x in s && x != m ==> Beats(high, m, x)
  {
    BestExists(s, high);
    var m :| m in s && forall x :: x in s ==> !Beats(high, x, m);
    m
  }

  /** All prices of a side, best first. */
  function Ranked(s: set<real>, high: bool): (r: seq<real>)
    ensures |r| == |s|
    decreases |s|
  {
    if s == {} then [] else
      var m := Best(s, high);
      [m] + Ranked(s - {m}, high)
  }

  lemma {:induction false} RankedMembers(s: set<real>, high: bool, x: real)
    ensures x in Ranked(s, high) <==> x in s
    decreases |s|
  {
    if s != {} {
      var m := Best(s, high);
      RankedMembers(s - {m}, high, x);
      assert Ranked(s, high) == [m] + Ranked(s - {m}, high);
    }
  }

  lemma {:induction false} RankedOrder(s: set<real>, high: bool, i: nat, j: nat)
    requires i < j < |s|
    ensures Beats(high, Ranked(s, high)[i], Ranked(s, high)[j])
    decreases |s|
  {
    var m := Best(s, high);
    var tail := Ranked(s - {m}, high);
    assert Ranked(s, high) == [m] + tail;
    if i == 0 {
      assert tail[j - 1] in tail;
      RankedMembers(s - {m}, high, tail[j - 1]);
    } else {
      RankedOrder(s - {m}, high, i - 1, j - 1);
    }
  }

  /** `Ranked` really is the sorted listing of the set, without repetition. */
  lemma RankedIsSorted(s: set<real>, high: bool)
    ensures forall x :: x in Ranked(s, high) <==> x in s
    ensures forall i, j :: 0 <= i < j < |s| ==> Beats(high, Ranked(s, high)[i], Ranked(s, high)[j])
  {
    forall x ensures x in Ranked(s, high) <==> x in s {
      RankedMembers(s, high, x);
    }
    forall i, j | 0 <= i < j < |s| ensures Beats(high, Ranked(s, high)[i], Ranked(s, high)[j]) {
      RankedOrder(s, high, i, j);
    }
  }

  /** `local` holds everything of `truth` at and beyond `edge`, and nothing else. */
  ghost predicate CompleteTo(local: set<real>, truth: set<real>, high: bool, edge: real) {
    && local <= truth
    && forall p :: p in truth && !Beats(high, edge, p) ==> p in local
  }

  /** Two books that agree at and beyond `edge` have the same `n` best prices, as long as the
      n-th best price of the smaller book has not fallen behind `edge`. */
  lemma {:induction false} SameTop(local: set<real>, truth: set<real>, high: bool, edge: real, n: nat)
    requires CompleteTo(local, truth, high, edge)
    requires n <= |local|
    requires n > 0 ==> !Beats(high, edge, Ranked(local, high)[n - 1])
    ensures n <= |truth|
    ensures Ranked(local, high)[..n] == Ranked(truth, high)[..n]
    decreases n
  {
    if n > 0 {
      SameBest(local, truth, high, edge, n);
      var a := Best(local, high);
      assert CompleteTo(local - {a}, truth - {a}, high, edge);
      RankedCons(local, high, a, n);
      RankedCons(truth, high, a, n);
      SameTop(local - {a}, truth - {a}, high, edge, n - 1);
    }
  }

  lemma RankedCons(s: set<real>, high: bool, a: real, n: nat)
    requires s != {} && a == Best(s, high) && n > 0
    ensures |s - {a}| == |s| - 1
    ensures n <= |s| ==> Ranked(s, high)[..n] == [a] + Ranked(s - {a}, high)[..n - 1]
    ensures 1 < n <= |s| ==> Ranked(s, high)[n - 1] == Ranked(s - {a}, high)[n - 2]
  {
    var tail := Ranked(s - {a}, high);
    assert Ranked(s, high) == [a] + tail;
  }

  lemma SameBest(local: set<real>, truth: set<real>, high: bool, edge: real, n: nat)
    requires CompleteTo(local, truth, high, edge)
    requires 0 < n <= |local| && !Beats(high, edge, Ranked(local, high)[n - 1])
    ensures local != {} && truth != {}
    ensures Best(local, high) == Best(truth, high)
  {
    assert local != {};
    var a := Best(local, high);
    RankedIsSorted(local, high);
    assert Ranked(local, high)[0] == a;
    assert n > 1 ==> Beats(high, Ranked(local, high)[0], Ranked(local, high)[n - 1]);
    assert !Beats(high, edge, a);
    assert a in truth;
    var b := Best(truth, high);
    assert b == a || Beats(high, b, a);
  }
}

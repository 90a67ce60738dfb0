/** The summary of a backtest: what the one-pass computations amount to. */
module Metrics {
  import opened Prelude

  // ---- drawdown ----

  /** `d` is the deepest fall from any earlier point of the path to a later one; zero if it never falls. */
  ghost predicate IsDrawdown(path: seq<real>, d: real) {
    && d <= 0.0
    && (forall i, j :: 0 <= i <= j < |path| ==> path[j] - path[i] >= d)
    && (path != [] ==> exists i, j :: 0 <= i <= j < |path| && path[j] - path[i] == d)
    && (path == [] ==> d == 0.0)
  }

  method MaxDrawdown(path: seq<real>) returns (worst: real)
    ensures IsDrawdown(path, worst)
  {
    var peak := if path != [] then path[0] else 0.0;
    worst := 0.0;
    ghost var top, from_, to := 0, 0, 0;
    for n := 0 to |path|
      invariant 0 <= top && (n == 0 ==> top == 0) && (n > 0 ==> top < n)
      invariant path != [] ==> peak == path[top]
      invariant forall i :: 0 <= i < n ==> path[i] <= peak
      invariant worst <= 0.0 && (forall i, j :: 0 <= i <= j < n ==> path[j] - path[i] >= worst)
      invariant n == 0 ==> worst == 0.0
      invariant n > 0 ==> 0 <= from_ <= to < n && path[to] - path[from_] == worst
    {
      var v := path[n];
      if v > peak || n == 0 {
        top := n;
      }
      peak := MaxR(peak, v);
      if v - peak < worst || n == 0 {
        from_, to := top, n;
      }
      worst := MinR(worst, v - peak);
    }
  }

  // ---- losing streak ----

  /** The trades from `a` up to `b` all lost or broke even. */
  ghost predicate Losing(nets: seq<real>, a: int, b: int) {
    0 <= a <= b <= |nets| && forall i :: a <= i < b ==> nets[i] <= 0.0
  }

  ghost predicate IsLongestStreak(nets: seq<real>, n: nat) {
    (exists a, b :: Losing(nets, a, b) && b - a == n) && (forall a, b :: Losing(nets, a, b) ==> b - a <= n)
  }

  method LongestLosingStreak(nets: seq<real>) returns (worst: nat)
    ensures IsLongestStreak(nets, worst)
  {
    var streak: nat := 0;
    worst := 0;
    ghost var a, b := 0, 0;
    assert Losing(nets, 0, 0);
    for n := 0 to |nets|
      invariant streak <= n && Losing(nets, n - streak, n) && (streak < n ==> nets[n - streak - 1] > 0.0)
      invariant streak <= worst && Losing(nets, a, b) && b - a == worst
      invariant forall p, q :: Losing(nets, p, q) && q <= n ==> q - p <= worst
    {
      ghost var before := streak;
      if nets[n] <= 0.0 {
        streak := streak + 1;
        if streak > worst {
          a, b := n + 1 - streak, n + 1;
        }
        worst := Max(worst, streak);
      } else {
        streak := 0;
      }
      forall p, q | Losing(nets, p, q) && q <= n + 1 ensures q - p <= worst {
        if q == n + 1 && p <= n {
          assert nets[n] <= 0.0;
          assert n - before - 1 >= 0 ==> nets[n - before - 1] > 0.0;
          assert p >= n - before;
        }
      }
    }
  }

  // ---- wins and losses ----

  function Wins(nets: seq<real>): seq<real> {
    if nets == [] then [] else (if nets[0] > 0.0 then [nets[0]] else []) + Wins(nets[1..])
  }

  function Losses(nets: seq<real>): seq<real> {
    if nets == [] then [] else (if nets[0] <= 0.0 then [nets[0]] else []) + Losses(nets[1..])
  }

  function Sum(s: seq<real>): real {
    if s == [] then 0.0 else s[0] + Sum(s[1..])
  }

  function Abs(x: real): real {
    if x < 0.0 then -x else x
  }

  lemma SumCons(x: real, s: seq<real>)
    ensures Sum([x] + s) == x + Sum(s)
  {
    assert ([x] + s)[1..] == s;
  }

  lemma JoinOneSide(x: real, s: seq<real>, w: seq<real>, l: seq<real>)
    requires multiset(w) + multiset(l) == multiset(s)
    ensures multiset([x] + w) + multiset(l) == multiset([x] + s)
    ensures multiset(w) + multiset([x] + l) == multiset([x] + s)
  {
  }

  lemma SidesOfCons(nets: seq<real>)
    requires nets != []
    ensures Wins(nets) == if nets[0] > 0.0 then [nets[0]] + Wins(nets[1..]) else Wins(nets[1..])
    ensures Losses(nets) == if nets[0] > 0.0 then Losses(nets[1..]) else [nets[0]] + Losses(nets[1..])
  {
  }

  lemma {:induction false} EveryTradeOnOneSide(nets: seq<real>)
    ensures multiset(Wins(nets)) + multiset(Losses(nets)) == multiset(nets)
  {
    if nets != [] {
      EveryTradeOnOneSide(nets[1..]);
      SidesOfCons(nets);
      hide Wins, Losses;
      JoinOneSide(nets[0], nets[1..], Wins(nets[1..]), Losses(nets[1..]));
      ConsTail(nets);
    }
  }

  lemma {:induction false} SignsOfTheSides(nets: seq<real>)
    ensures forall i :: 0 <= i < |Wins(nets)| ==> Wins(nets)[i] > 0.0
    ensures forall i :: 0 <= i < |Losses(nets)| ==> Losses(nets)[i] <= 0.0
  {
    if nets != [] {
      SignsOfTheSides(nets[1..]);
    }
  }

  lemma {:induction false} SumOfTheSides(nets: seq<real>)
    ensures Sum(Wins(nets)) >= 0.0 && Sum(Losses(nets)) <= 0.0 && Sum(Wins(nets)) + Sum(Losses(nets)) == Sum(nets)
  {
    if nets != [] {
      var x, rest := nets[0], nets[1..];
      SumOfTheSides(rest);
      SidesOfCons(nets);
      SumCons(x, Wins(rest));
      SumCons(x, Losses(rest));
    }
  }

  /** Every trade is a win or a loss and only one of them, and the gross amounts make up the total. */
  lemma WinsAndLossesPartition(nets: seq<real>)
    ensures multiset(Wins(nets)) + multiset(Losses(nets)) == multiset(nets)
    ensures |Wins(nets)| + |Losses(nets)| == |nets|
    ensures forall x :: (x in Wins(nets) ==> x > 0.0) && (x in Losses(nets) ==> x <= 0.0)
    ensures Sum(Wins(nets)) >= 0.0 && Sum(Wins(nets)) - Abs(Sum(Losses(nets))) == Sum(nets)
  {
    hide Wins, Losses, Sum;
    EveryTradeOnOneSide(nets);
    assert |multiset(nets)| == |multiset(Wins(nets))| + |multiset(Losses(nets))|;
    SignsOfTheSides(nets);
    SumOfTheSides(nets);
  }

  lemma Quotients(win: real, loss: real, n: real)
    requires win >= 0.0 && loss > 0.0 && n > 0.0
    ensures (win / loss) * loss == win && ((win - loss) / n) * n == win - loss
    ensures win / loss > 1.0 <==> win > loss
    ensures (win - loss) / n > 0.0 <==> win > loss
  {
    var f, e := win / loss, (win - loss) / n;
    assert f * loss == win && e * n == win - loss;
    var g := f - 1.0;
    assert g * loss == win - loss;
    assert g > 0.0 ==> g * loss > 0.0;
    assert g < 0.0 ==> g * loss < 0.0;
    assert e > 0.0 ==> e * n > 0.0;
    assert e < 0.0 ==> e * n < 0.0;
  }

  /** The two measures of an edge agree before they are rounded: the profit factor exceeds one exactly
      when the expectancy per trade is positive. */
  lemma ProfitFactorAgreesWithExpectancy(nets: seq<real>)
    requires Abs(Sum(Losses(nets))) > 0.0
    ensures nets != []
    ensures Sum(Wins(nets)) / Abs(Sum(Losses(nets))) > 1.0 <==> Sum(nets) / (|nets| as real) > 0.0
  {
    WinsAndLossesPartition(nets);
    Quotients(Sum(Wins(nets)), Abs(Sum(Losses(nets))), |nets| as real);
  }
}

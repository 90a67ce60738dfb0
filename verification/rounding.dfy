/** Exact decimal rounding to an exchange filter step. Products and quotients are kept behind the
    small functions below, so that each lemma multiplies plain variables only. */
module Rounding {

  /** A filter step as printed by the exchange: its digits and how many of them are decimals. */
  datatype Step = Step(units: nat, decimals: nat)

  function Pow10(n: nat): (p: int)
    ensures p >= 1
  {
    if n == 0 then 1 else 10 * Pow10(n - 1)
  }

  function Scale(s: Step): (p: real)
    ensures p >= 1.0
  {
    Pow10(s.decimals) as real
  }

  function Value(s: Step): real {
    s.units as real / Scale(s)
  }

  /** Toward zero. */
  function Trunc(x: real): int {
    if x >= 0.0 then x.Floor else -((-x).Floor)
  }

  /** Cut to a whole number of `1/p`. */
  function CutTo(v: real, p: real): real
    requires p > 0.0
  {
    Trunc(v * p) as real / p
  }

  /** Cut to a whole number of `s`. */
  function Steps(v: real, s: real): real
    requires s > 0.0
  {
    Trunc(v / s) as real * s
  }

  /** `x % s == 0`. */
  predicate OnGrid(x: real, s: real)
    requires s > 0.0
  {
    Trunc(x / s) as real * s == x
  }

  /** `round_down`: first to a whole number of steps, then to the step's decimal places. */
  function RoundDown(v: real, s: Step): real {
    if s.units == 0 then CutTo(v, Scale(s))
    else ValuePositive(s); CutTo(Steps(v, Value(s)), Scale(s))
  }

  // ---- products of plain variables ----

  lemma QuotientPositive(x: real, y: real)
    requires x > 0.0 && y > 0.0
    ensures x / y > 0.0
  {
  }

  lemma ValuePositive(s: Step)
    ensures s.units > 0 <==> Value(s) > 0.0
  {
    if s.units > 0 {
      QuotientPositive(s.units as real, Scale(s));
    }
  }

  lemma TruncIs(y: real, m: int)
    requires y == m as real
    ensures Trunc(y) == m
  {
    assert -y == (-m) as real;
  }

  lemma IntProduct(a: real, b: real, m: int, n: int)
    requires a == m as real && b == n as real
    ensures a * b == (m * n) as real
  {
  }

  lemma MulDiv(x: real, s: real, y: real)
    requires s > 0.0 && y == x * s
    ensures y / s == x
  {
  }

  lemma Associate(x: real, k: real, s: real, p: real, u: real)
    requires x == k * s && s * p == u
    ensures x * p == k * u
  {
    assert (k * s) * p == k * (s * p);
  }

  lemma MulMonotone(a: real, b: real, s: real)
    requires a <= b && s >= 0.0
    ensures a * s <= b * s
  {
  }

  lemma MulStrict(a: real, b: real, s: real)
    requires a < b && s > 0.0
    ensures a * s < b * s
  {
  }

  lemma NonNegative(a: real, s: real)
    requires a >= 0.0 && s >= 0.0
    ensures a * s >= 0.0
  {
  }

  lemma MulGap(n: real, q: real, s: real, v: real, st: real)
    requires q < n + 1.0 && s > 0.0 && v == q * s && st == n * s
    ensures v < st + s
  {
    var d := n + 1.0 - q;
    assert d * s > 0.0;
    assert d * s == n * s + s - q * s;
  }

  lemma MulStep(a: real, b: real, s: real, x: real, y: real)
    requires a >= b + 1.0 && s > 0.0 && x == a * s && y == b * s
    ensures x >= y + s
  {
    var d := a - b - 1.0;
    assert d * s >= 0.0;
    assert d * s == x - y - s;
  }

  lemma Quotient(v: real, s: real) returns (q: real)
    requires s > 0.0
    ensures q == v / s && q * s == v && (v >= 0.0 ==> q >= 0.0)
  {
    q := v / s;
  }

  // ---- the two stages ----

  lemma CutIs(x: real, p: real, y: real, m: int)
    requires p > 0.0 && y == x * p && y == m as real
    ensures CutTo(x, p) == y / p
  {
    TruncIs(y, m);
  }

  /** Cutting at `1/p` keeps every multiple of a step that is itself a multiple of `1/p`. */
  lemma CutKeepsMultiples(x: real, k: int, s: real, p: real, units: int, y: real)
    requires p > 0.0 && s * p == units as real && x == k as real * s && y == x * p
    ensures CutTo(x, p) == x
  {
    var kr, ur := k as real, units as real;
    assert x == kr * s;
    Associate(x, kr, s, p, ur);
    IntProduct(kr, ur, k, units);
    CutIs(x, p, y, k * units);
    MulDiv(x, p, y);
  }

  lemma StepsIs(v: real, s: real, q: real)
    requires s > 0.0 && v == q * s
    ensures Steps(v, s) == Trunc(q) as real * s
  {
    MulDiv(q, s, v);
  }

  lemma StepsIsMultiple(v: real, s: real) returns (k: int, x: real)
    requires s > 0.0
    ensures x == Steps(v, s) && x == k as real * s && k == Trunc(v / s)
  {
    k, x := Trunc(v / s), Steps(v, s);
  }

  lemma MultipleIsOnGrid(x: real, k: int, s: real)
    requires s > 0.0 && x == k as real * s
    ensures OnGrid(x, s) && Steps(x, s) == x
  {
    var kr := k as real;
    assert x == kr * s;
    StepsIs(x, s, kr);
    TruncIs(kr, k);
  }

  /** The second stage does nothing: `round_down` counts whole steps. */
  lemma RoundDownCountsSteps(v: real, s: Step)
    requires s.units > 0
    ensures Value(s) > 0.0 && RoundDown(v, s) == Steps(v, Value(s)) && OnGrid(RoundDown(v, s), Value(s))
  {
    ValuePositive(s);
    var sv, p := Value(s), Scale(s);
    var q := Quotient(s.units as real, p);
    assert sv * p == s.units as real;
    var k, x := StepsIsMultiple(v, sv);
    CutKeepsMultiples(x, k, sv, p, s.units, x * p);
    MultipleIsOnGrid(x, k, sv);
  }

  /** Rounding twice is rounding once. */
  lemma RoundDownIdempotent(v: real, s: Step)
    requires s.units > 0
    ensures RoundDown(RoundDown(v, s), s) == RoundDown(v, s)
  {
    hide RoundDown, Value, Steps, OnGrid, Trunc;
    RoundDownCountsSteps(v, s);
    RoundDownCountsSteps(RoundDown(v, s), s);
    var k, x := StepsIsMultiple(v, Value(s));
    MultipleIsOnGrid(x, k, Value(s));
  }

  // ---- the greatest multiple ----

  lemma Bracket(v: real, q: real, n: real, s: real, st: real)
    requires s > 0.0 && 0.0 <= n && n <= q && q < n + 1.0 && v == q * s && st == n * s
    ensures 0.0 <= st && st <= v && v < st + s
  {
    assert st >= 0.0 by { NonNegative(n, s); }
    assert st <= v by { MulMonotone(n, q, s); }
    assert v < st + s by { MulGap(n, q, s, v, st); }
  }

  lemma StepsBracket(v: real, s: real)
    requires v >= 0.0 && s > 0.0
    ensures 0.0 <= Steps(v, s) <= v < Steps(v, s) + s
  {
    var q := Quotient(v, s);
    StepsIs(v, s, q);
    var st := Steps(v, s);
    assert Trunc(q) == q.Floor;
    var n := Trunc(q) as real;
    assert st == n * s;
    Bracket(v, q, n, s, st);
  }

  lemma UnitStepTruncates(v: real, s: Step)
    requires s == Step(1, 0)
    ensures RoundDown(v, s) == Trunc(v) as real
  {
    assert Value(s) == 1.0;
    RoundDownCountsSteps(v, s);
    StepsIs(v, 1.0, v);
  }

  lemma NonPositive(a: real, s: real)
    requires a <= 0.0 && s >= 0.0
    ensures a * s <= 0.0
  {
  }

  lemma QuotientNonPositive(v: real, s: real)
    requires v <= 0.0 && s > 0.0
    ensures v / s <= 0.0
  {
    assert (v / s) * s == v;
  }

  /** Toward zero: what is not positive does not become positive. */
  lemma RoundDownOfNonPositive(v: real, s: Step)
    requires s.units > 0 && v <= 0.0
    ensures RoundDown(v, s) <= 0.0
  {
    RoundDownCountsSteps(v, s);
    QuotientNonPositive(v, Value(s));
    var k, x := StepsIsMultiple(v, Value(s));
    NonPositive(k as real, Value(s));
  }

  lemma Greatest(a: real, b: real, k: int, n: int, s: real, v: real, x: real, y: real)
    requires s > 0.0 && a == k as real && b == n as real && x == a * s && y == b * s
    requires x <= v < y + s
    ensures x <= y
  {
    if k > n {
      MulStep(a, b, s, x, y);
    } else {
      MulMonotone(a, b, s);
    }
  }

  /** No multiple of `s` lies strictly between the rounded value and the value. */
  lemma StepsIsGreatest(v: real, s: real, m: real)
    requires v >= 0.0 && s > 0.0 && OnGrid(m, s) && m <= v
    ensures m <= Steps(v, s)
  {
    StepsBracket(v, s);
    var k, x := StepsIsMultiple(m, s);
    var n, y := StepsIsMultiple(v, s);
    var a, b := k as real, n as real;
    assert x == m && x == a * s && y == b * s;
    Greatest(a, b, k, n, s, v, x, y);
  }

  /** `round_down` of a non-negative value is the greatest multiple of the step not above it. */
  lemma RoundDownIsGreatestMultiple(v: real, s: Step, m: real)
    requires s.units > 0 && v >= 0.0
    ensures Value(s) > 0.0 && OnGrid(RoundDown(v, s), Value(s))
    ensures 0.0 <= RoundDown(v, s) <= v < RoundDown(v, s) + Value(s)
    ensures OnGrid(m, Value(s)) && m <= v ==> m <= RoundDown(v, s)
  {
    RoundDownCountsSteps(v, s);
    StepsBracket(v, Value(s));
    if OnGrid(m, Value(s)) && m <= v {
      StepsIsGreatest(v, Value(s), m);
    }
  }
}

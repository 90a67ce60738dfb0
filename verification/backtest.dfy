/** The candle-by-candle replay of one symbol. The indicator score is any function of its window. */
module Backtests {
  import opened Prelude

  const MIN_SCORE := 60.0

  datatype RateValues = RateValues(trail: real, slip: real, target: real, fee: real)

  /** Trail and slippage as fractions, the target as a multiple of the entry, the round-trip fee. */
  type Rates = r: RateValues | 0.0 <= r.trail < 1.0 && 0.0 <= r.slip < 1.0 && 1.0 <= r.target
    witness RateValues(0.005, 0.0005, 1.04, 0.002)

  datatype Candle = Candle(open_: real, high: real, low: real, close: real)

  datatype Outcome = StopLoss | TakeProfit | EndOfData

  datatype Exit = Exit(at: nat, price: real, outcome: Outcome)

  datatype Trade = Trade(entryAt: nat, entry: real, exit: Exit, gross: real, net: real)

  /** What a run is given beside the candles. */
  datatype Rules = Rules(score: seq<Candle> -> real, warmup: nat, cooldown: nat, rates: Rates)

  ghost predicate Priced(k: seq<Candle>) {
    forall i :: 0 <= i < |k| ==> k[i].open_ > 0.0
  }

  // ---- prices ----

  function Bought(open_: real, r: Rates): real {
    open_ * (1.0 + r.slip)
  }

  /** The stop of a position whose highest price so far is `top`. */
  function Stop(top: real, r: Rates): real {
    top * (1.0 - r.trail)
  }

  function StopFill(stop: real, r: Rates): real {
    stop * (1.0 - r.slip)
  }

  function Target(entry: real, r: Rates): real {
    entry * r.target
  }

  lemma Scaled(x: real, y: real, k: real)
    requires x <= y && k >= 0.0
    ensures x * k <= y * k
  {
    assert (y - x) * k >= 0.0;
  }

  lemma StopMonotone(x: real, y: real, r: Rates)
    requires x <= y
    ensures Stop(x, r) <= Stop(y, r) && StopFill(x, r) <= StopFill(y, r)
  {
    Scaled(x, y, 1.0 - r.trail);
    Scaled(x, y, 1.0 - r.slip);
  }

  lemma BoughtPositive(open_: real, r: Rates)
    requires open_ > 0.0
    ensures Bought(open_, r) > 0.0
  {
    Scaled(0.0, r.slip, open_);
    assert open_ * (1.0 + r.slip) == open_ + open_ * r.slip;
  }

  lemma TargetAbove(entry: real, r: Rates)
    requires entry >= 0.0
    ensures Target(entry, r) >= entry
  {
    Scaled(1.0, r.target, entry);
  }

  // ---- the specification ----

  /** The exit of a position open from candle `j` on, whose highest price so far is `top`. */
  function ExitFrom(k: seq<Candle>, j: nat, entry: real, top: real, r: Rates): (x: Exit)
    requires j <= |k| && k != []
    ensures j < |k| ==> j <= x.at < |k|
    decreases |k| - j
  {
    if j == |k| then Exit(|k| - 1, k[|k| - 1].close, EndOfData)
    else
      var highest := MaxR(top, k[j].high);
      if k[j].low <= Stop(highest, r) then Exit(j, StopFill(Stop(highest, r), r), StopLoss)
      else if k[j].high >= Target(entry, r) then Exit(j, Target(entry, r), TakeProfit)
      else ExitFrom(k, j + 1, entry, highest, r)
  }

  function EntryPrice(k: seq<Candle>, e: nat, r: Rates): (p: real)
    requires e < |k| && Priced(k)
    ensures p > 0.0
  {
    BoughtPositive(k[e].open_, r);
    Bought(k[e].open_, r)
  }

  function Gross(entry: real, price: real): real
    requires entry != 0.0
  {
    (price - entry) / entry
  }

  /** The trade entered at the open of candle `e`. */
  function TradeAt(k: seq<Candle>, e: nat, r: Rates): (t: Trade)
    requires e < |k| && Priced(k)
    ensures t.entryAt == e && e <= t.exit.at < |k|
  {
    var entry := EntryPrice(k, e, r);
    var x := ExitFrom(k, e, entry, entry, r);
    var gross := Gross(entry, x.price);
    Trade(e, entry, x, gross, gross - r.fee)
  }

  /** The entry signal of candle `i`, which sees candles up to `i` only. */
  predicate Signal(k: seq<Candle>, rules: Rules, i: nat)
    requires i < |k|
  {
    (rules.score)(k[Max(0, i - rules.warmup)..i + 1]) >= MIN_SCORE
  }

  /** The trades from candle `i` on, while no entry is allowed up to candle `cool`. */
  function Walk(k: seq<Candle>, rules: Rules, i: nat, cool: int): seq<Trade>
    requires Priced(k)
    decreases |k| - i
  {
    if i + 1 >= |k| then []
    else if i <= cool || !Signal(k, rules, i) then Walk(k, rules, i + 1, cool)
    else
      var t := TradeAt(k, i + 1, rules.rates);
      [t] + Walk(k, rules, t.exit.at + 1, t.exit.at + rules.cooldown)
  }

  function Trades(k: seq<Candle>, rules: Rules): seq<Trade>
    requires Priced(k)
  {
    if |k| < rules.warmup + 5 then [] else Walk(k, rules, rules.warmup, -1)
  }

  function Total(trades: seq<Trade>): real {
    if trades == [] then 0.0 else Total(trades[..|trades| - 1]) + trades[|trades| - 1].net
  }

  // ---- the program ----

  method FindExit(k: seq<Candle>, e: nat, entry: real, r: Rates) returns (x: Exit)
    requires e < |k|
    ensures x == ExitFrom(k, e, entry, entry, r)
  {
    hide Stop, StopFill, Target;
    var highest := entry;
    var stop := Stop(entry, r);
    var target := Target(entry, r);
    var j := e;
    while j < |k|
      invariant e <= j <= |k| && stop == Stop(highest, r)
      invariant ExitFrom(k, j, entry, highest, r) == ExitFrom(k, e, entry, entry, r)
    {
      var hi, lo := k[j].high, k[j].low;
      if hi > highest {
        StopMonotone(highest, hi, r);
        highest := hi;
        stop := MaxR(stop, Stop(highest, r));
      }
      if lo <= stop {
        return Exit(j, StopFill(stop, r), StopLoss);
      }
      if hi >= target {
        return Exit(j, target, TakeProfit);
      }
      j := j + 1;
    }
    return Exit(|k| - 1, k[|k| - 1].close, EndOfData);
  }

  /** The equity path starts at zero and runs the total of the net results. */
  ghost predicate IsEquity(equity: seq<real>, trades: seq<Trade>) {
    |equity| == |trades| + 1 && forall q :: 0 <= q <= |trades| ==> equity[q] == Total(trades[..q])
  }

  lemma TotalGrows(trades: seq<Trade>, t: Trade)
    ensures Total(trades + [t]) == Total(trades) + t.net
  {
    assert (trades + [t])[..|trades|] == trades;
  }

  lemma EquityGrows(equity: seq<real>, trades: seq<Trade>, t: Trade, cum: real)
    requires IsEquity(equity, trades) && cum == Total(trades) + t.net
    ensures IsEquity(equity + [cum], trades + [t]) && Total(trades + [t]) == cum
  {
    hide Total;
    TotalGrows(trades, t);
    var more := trades + [t];
    assert more[..|more|] == more;
    forall q | 0 <= q <= |trades| ensures more[..q] == trades[..q] {
    }
  }

  lemma WalkStep(k: seq<Candle>, rules: Rules, i: nat, cool: int, trades: seq<Trade>, t: Trade)
    requires Priced(k) && i + 1 < |k| && cool < i && Signal(k, rules, i) && t == TradeAt(k, i + 1, rules.rates)
    ensures var rest := Walk(k, rules, t.exit.at + 1, t.exit.at + rules.cooldown);
            trades + Walk(k, rules, i, cool) == (trades + [t]) + rest
  {
    hide TradeAt, Signal, Priced;
    var rest := Walk(k, rules, t.exit.at + 1, t.exit.at + rules.cooldown);
    assert Walk(k, rules, i, cool) == [t] + rest;
    hide Walk;
    assert trades + ([t] + rest) == (trades + [t]) + rest;
  }

  lemma NoSignal(k: seq<Candle>, rules: Rules, i: nat, cool: int)
    requires Priced(k) && i + 1 < |k| && (i <= cool || !Signal(k, rules, i))
    ensures Walk(k, rules, i, cool) == Walk(k, rules, i + 1, cool)
  {
    hide TradeAt, Signal, Priced;
  }

  lemma TakesSignal(k: seq<Candle>, rules: Rules, i: nat, cool: int)
    requires Priced(k) && i + 1 < |k| && cool < i && Signal(k, rules, i)
    ensures var w, t := Walk(k, rules, i, cool), TradeAt(k, i + 1, rules.rates);
            w != [] && w[0] == t && w[1..] == Walk(k, rules, t.exit.at + 1, t.exit.at + rules.cooldown)
  {
    hide TradeAt, Priced, Signal;
  }

  lemma WalkEnds(k: seq<Candle>, rules: Rules, i: nat, cool: int, trades: seq<Trade>)
    requires Priced(k) && i + 1 >= |k|
    ensures trades + Walk(k, rules, i, cool) == trades
  {
  }

  lemma WalkStarts(k: seq<Candle>, rules: Rules)
    requires Priced(k) && |k| >= rules.warmup + 5
    ensures [] + Walk(k, rules, rules.warmup, -1) == Trades(k, rules)
  {
    hide Walk, Priced;
  }

  /** Every trade adds its net result to the equity. */
  lemma EquityAddsEachNet(equity: seq<real>, trades: seq<Trade>, q: nat)
    requires IsEquity(equity, trades) && q < |trades|
    ensures equity[0] == 0.0 && equity[q + 1] == equity[q] + trades[q].net
  {
    assert trades[..q + 1] == trades[..q] + [trades[q]];
    TotalGrows(trades[..q], trades[q]);
  }

  method Simulate(k: seq<Candle>, rules: Rules) returns (trades: seq<Trade>, equity: seq<real>)
    requires Priced(k)
    ensures trades == Trades(k, rules)
    ensures if |k| < rules.warmup + 5 then equity == [] else IsEquity(equity, trades)
  {
    hide Total, IsEquity, ExitFrom, Walk, Gross, Bought;
    if |k| < rules.warmup + 5 {
      return [], [];
    }
    trades, equity := [], [0.0];
    var cum := 0.0;
    NoTradesYet();
    WalkStarts(k, rules);
    hide Trades;
    var i: nat := rules.warmup;
    var cool := -1;
    while i < |k| - 1
      invariant trades + Walk(k, rules, i, cool) == Trades(k, rules)
      invariant cum == Total(trades) && IsEquity(equity, trades)
      decreases |k| - i
    {
      if i <= cool {
        NoSignal(k, rules, i, cool);
        i := i + 1;
        continue;
      }
      if (rules.score)(k[Max(0, i - rules.warmup)..i + 1]) < MIN_SCORE {
        NoSignal(k, rules, i, cool);
        i := i + 1;
        continue;
      }
      var entry := EntryPrice(k, i + 1, rules.rates);
      var x := FindExit(k, i + 1, entry, rules.rates);
      var gross := Gross(entry, x.price);
      var net := gross - rules.rates.fee;
      var t := Trade(i + 1, entry, x, gross, net);
      WalkStep(k, rules, i, cool, trades, t);
      cum := cum + net;
      EquityGrows(equity, trades, t, cum);
      equity := equity + [cum];
      trades := trades + [t];
      cool := x.at + rules.cooldown;
      i := x.at + 1;
    }
    WalkEnds(k, rules, i, cool, trades);
  }

  lemma NoTradesYet()
    ensures Total([]) == 0.0 && IsEquity([0.0], [])
  {
  }

  // ---- the exit ----

  /** The highest of the entry and the highs of candles `e` to `j`. */
  function Highest(k: seq<Candle>, e: nat, j: int, entry: real): real
    requires j < |k|
    decreases j + 1 - e
  {
    if j < e then entry else MaxR(Highest(k, e, j - 1, entry), k[j].high)
  }

  predicate StopHit(k: seq<Candle>, e: nat, j: nat, entry: real, r: Rates)
    requires j < |k|
  {
    k[j].low <= Stop(Highest(k, e, j, entry), r)
  }

  predicate TargetHit(k: seq<Candle>, j: nat, entry: real, r: Rates)
    requires j < |k|
  {
    k[j].high >= Target(entry, r)
  }

  ghost predicate Untouched(k: seq<Candle>, e: nat, j: nat, entry: real, r: Rates)
    requires j <= |k|
  {
    forall q: nat :: e <= q < j ==> !StopHit(k, e, q, entry, r) && !TargetHit(k, q, entry, r)
  }

  lemma {:induction false} ExitFromHere(k: seq<Candle>, e: nat, j: nat, entry: real, r: Rates)
    requires e <= j <= |k| && e < |k| && Untouched(k, e, j, entry, r)
    ensures FirstTouch(k, e, entry, ExitFrom(k, j, entry, Highest(k, e, j - 1, entry), r), r)
    decreases |k| - j
  {
    hide Stop, StopFill, Target;
    if j < |k| && !StopHit(k, e, j, entry, r) && !TargetHit(k, j, entry, r) {
      ExitFromHere(k, e, j + 1, entry, r);
    }
  }

  /** `x` leaves at the first candle that touches the stop or the target, the stop first; without one,
      at the last close. */
  ghost predicate FirstTouch(k: seq<Candle>, e: nat, entry: real, x: Exit, r: Rates)
    requires e < |k|
  {
    && e <= x.at < |k|
    && match x.outcome
       case StopLoss =>
         Untouched(k, e, x.at, entry, r) && StopHit(k, e, x.at, entry, r)
         && x.price == StopFill(Stop(Highest(k, e, x.at, entry), r), r)
       case TakeProfit =>
         Untouched(k, e, x.at, entry, r) && !StopHit(k, e, x.at, entry, r) && TargetHit(k, x.at, entry, r)
         && x.price == Target(entry, r)
       case EndOfData =>
         Untouched(k, e, |k|, entry, r) && x.at == |k| - 1 && x.price == k[|k| - 1].close
  }

  lemma ExitIsTheFirstTouch(k: seq<Candle>, e: nat, r: Rates)
    requires e < |k| && Priced(k)
    ensures FirstTouch(k, e, TradeAt(k, e, r).entry, TradeAt(k, e, r).exit, r)
  {
    ExitFromHere(k, e, e, EntryPrice(k, e, r), r);
  }

  /** The highest price, and so the trailing stop, never falls and is never below its start. */
  lemma {:induction false} StopNeverFalls(k: seq<Candle>, e: nat, i: int, j: int, entry: real, r: Rates)
    requires e - 1 <= i <= j < |k|
    ensures entry <= Highest(k, e, i, entry) <= Highest(k, e, j, entry)
    ensures Stop(entry, r) <= Stop(Highest(k, e, i, entry), r) <= Stop(Highest(k, e, j, entry), r)
    decreases j - e + 1
  {
    if e <= j {
      if i < j {
        StopNeverFalls(k, e, i, j - 1, entry, r);
      } else {
        StopNeverFalls(k, e, i - 1, j - 1, entry, r);
      }
    }
    hide Stop;
    StopMonotone(entry, Highest(k, e, i, entry), r);
    StopMonotone(Highest(k, e, i, entry), Highest(k, e, j, entry), r);
  }

  lemma Ratio(price: real, entry: real, c: real, floor: real)
    requires entry > 0.0 && floor == entry * c && price >= floor
    ensures Gross(entry, price) >= c - 1.0
  {
    var g := (price - entry) / entry;
    assert g * entry == price - entry;
    var d := c - 1.0 - g;
    assert d * entry == floor - price;
    assert d > 0.0 ==> d * entry > 0.0;
  }

  lemma TwoFactors(x: real, a: real, b: real, y: real, c: real)
    requires y == x * a && c == a * b
    ensures y * b == x * c
  {
    assert (x * a) * b == x * (a * b);
  }

  /** The most a stopped trade loses before fees, however the market gapped in the model. */
  lemma StopLossIsBounded(k: seq<Candle>, e: nat, r: Rates)
    requires e < |k| && Priced(k) && TradeAt(k, e, r).exit.outcome == StopLoss
    ensures TradeAt(k, e, r).gross >= (1.0 - r.trail) * (1.0 - r.slip) - 1.0
  {
    var t := TradeAt(k, e, r);
    ExitIsTheFirstTouch(k, e, r);
    hide ExitFrom, Stop, StopFill, Target, Gross, Untouched, Highest;
    StopNeverFalls(k, e, e - 1, t.exit.at, t.entry, r);
    StopReturn(t.entry, Highest(k, e, t.exit.at, t.entry), t.exit.price, r);
  }

  lemma StopReturn(entry: real, top: real, price: real, r: Rates)
    requires 0.0 < entry <= top && price == StopFill(Stop(top, r), r)
    ensures Gross(entry, price) >= (1.0 - r.trail) * (1.0 - r.slip) - 1.0
  {
    var c := (1.0 - r.trail) * (1.0 - r.slip);
    TwoFactors(entry, 1.0 - r.trail, 1.0 - r.slip, Stop(entry, r), c);
    assert StopFill(Stop(entry, r), r) == entry * c;
    hide Stop, StopFill, Gross;
    StopMonotone(entry, top, r);
    StopMonotone(Stop(entry, r), Stop(top, r), r);
    Ratio(price, entry, c, StopFill(Stop(entry, r), r));
  }

  /** While nothing was touched the highest price stayed within the target. */
  lemma {:induction false} UntouchedStaysBelowTarget(k: seq<Candle>, e: nat, j: nat, entry: real, r: Rates)
    requires e <= j <= |k| && entry >= 0.0 && Untouched(k, e, j, entry, r)
    ensures Highest(k, e, j - 1, entry) <= Target(entry, r)
    decreases j
  {
    hide Stop;
    TargetAbove(entry, r);
    hide Target;
    if e < j {
      UntouchedStaysBelowTarget(k, e, j - 1, entry, r);
      assert !TargetHit(k, j - 1, entry, r);
      assert Highest(k, e, j - 1, entry) == MaxR(Highest(k, e, j - 2, entry), k[j - 1].high);
    }
  }

  /** When one candle touches both, the stop is taken first as the worst case. It is that exactly when
      the stop which this candle's own high has just raised fills no higher than the target. */
  lemma StopFirstIsWorstExactlyWhen(k: seq<Candle>, e: nat, r: Rates)
    requires e < |k| && Priced(k)
    requires TradeAt(k, e, r).exit.outcome == StopLoss
    requires TargetHit(k, TradeAt(k, e, r).exit.at, TradeAt(k, e, r).entry, r)
    ensures var t := TradeAt(k, e, r);
            t.exit.price <= Target(t.entry, r) <==> StopFill(Stop(k[t.exit.at].high, r), r) <= Target(t.entry, r)
  {
    hide Stop, StopFill, Target;
    var t := TradeAt(k, e, r);
    ExitIsTheFirstTouch(k, e, r);
    UntouchedStaysBelowTarget(k, e, t.exit.at, t.entry, r);
    assert Highest(k, e, t.exit.at, t.entry) == k[t.exit.at].high;
  }

  /** A candle that makes it better than the target. */
  lemma StopFirstIsNotAlwaysWorst(k: seq<Candle>, r: Rates)
    requires k == [Candle(100.0, 110.0, 100.0, 105.0)] && r == RateValues(0.005, 0.0005, 1.04, 0.002)
    ensures Priced(k)
    ensures var t := TradeAt(k, 0, r);
            t.exit.outcome == StopLoss && TargetHit(k, 0, t.entry, r) && t.exit.price > Target(t.entry, r)
  {
    assert k[0].open_ == 100.0;
    assert EntryPrice(k, 0, r) == 100.05;
    var x := ExitFrom(k, 0, 100.05, 100.05, r);
    assert x.price == 110.0 * 0.995 * 0.9995;
  }

  // ---- the order of trades ----

  /** Entries come at the first signal allowed, and none is passed over. */
  lemma {:induction false} FirstTradeIsTheFirstSignal(k: seq<Candle>, rules: Rules, i: nat, cool: int)
    requires Priced(k)
    ensures var w := Walk(k, rules, i, cool);
            var until := if w == [] then |k| - 1 else w[0].entryAt - 1;
            && (forall s: nat :: i <= s < until && s < |k| && cool < s ==> !Signal(k, rules, s))
            && (w != [] ==>
                && i <= until < |k| - 1 && cool < until && Signal(k, rules, until)
                && w[0] == TradeAt(k, until + 1, rules.rates)
                && w[1..] == Walk(k, rules, w[0].exit.at + 1, w[0].exit.at + rules.cooldown))
    decreases |k| - i
  {
    hide TradeAt, Priced, Signal;
    if i + 1 < |k| {
      if i <= cool || !Signal(k, rules, i) {
        NoSignal(k, rules, i, cool);
        hide Walk;
        FirstTradeIsTheFirstSignal(k, rules, i + 1, cool);
      } else {
        TakesSignal(k, rules, i, cool);
        hide Walk;
      }
    }
  }

  lemma DataEndsAtTheLastCandle(k: seq<Candle>, e: nat, r: Rates)
    requires Priced(k) && e < |k|
    ensures TradeAt(k, e, r).exit.outcome == EndOfData ==> TradeAt(k, e, r).exit.at == |k| - 1
  {
    hide ExitFrom, Gross, Untouched;
    ExitIsTheFirstTouch(k, e, r);
  }

  /** Trades never overlap: each is entered more than the cooldown after the exit before it. */
  lemma {:induction false} TradesNeverOverlap(k: seq<Candle>, rules: Rules, i: nat, cool: int, q: nat)
    requires Priced(k) && q < |Walk(k, rules, i, cool)|
    ensures var w := Walk(k, rules, i, cool);
            && w[q].entryAt <= w[q].exit.at < |k| && w[q] == TradeAt(k, w[q].entryAt, rules.rates)
            && (q > 0 ==> w[q - 1].exit.at + rules.cooldown + 1 < w[q].entryAt && w[q - 1].exit.outcome != EndOfData)
    decreases q
  {
    hide TradeAt, Signal, Priced, Walk;
    FirstTradeIsTheFirstSignal(k, rules, i, cool);
    var w := Walk(k, rules, i, cool);
    if q > 0 {
      var i', cool' := w[0].exit.at + 1, w[0].exit.at + rules.cooldown;
      TradesNeverOverlap(k, rules, i', cool', q - 1);
      if q == 1 {
        FirstTradeIsTheFirstSignal(k, rules, i', cool');
        DataEndsAtTheLastCandle(k, w[0].entryAt, rules.rates);
      }
    }
  }

  // ---- the trades from the candles and the rates alone ----

  /** `h` is the highest of the entry and the highs of candles `e` to `j`. */
  ghost predicate IsHighest(k: seq<Candle>, e: nat, j: int, entry: real, h: real)
    requires j < |k|
  {
    && entry <= h && (forall q :: e <= q <= j ==> k[q].high <= h)
    && (h == entry || exists q :: e <= q <= j && k[q].high == h)
  }

  lemma {:induction false} HighestIsHighest(k: seq<Candle>, e: nat, j: int, entry: real)
    requires j < |k|
    ensures IsHighest(k, e, j, entry, Highest(k, e, j, entry))
    decreases j + 1 - e
  {
    if e <= j {
      HighestIsHighest(k, e, j - 1, entry);
    }
  }

  /** Candle `q` falls to the trail below the highest price up to and with it. */
  ghost predicate Falls(k: seq<Candle>, e: nat, q: nat, entry: real, r: Rates)
    requires q < |k|
  {
    k[q].low <= Highest(k, e, q, entry) * (1.0 - r.trail)
  }

  ghost predicate Gains(k: seq<Candle>, q: nat, entry: real, r: Rates)
    requires q < |k|
  {
    k[q].high >= entry * r.target
  }

  lemma HitsAre(k: seq<Candle>, e: nat, q: nat, entry: real, r: Rates)
    requires q < |k|
    ensures StopHit(k, e, q, entry, r) <==> Falls(k, e, q, entry, r)
    ensures TargetHit(k, q, entry, r) <==> Gains(k, q, entry, r)
  {
    var top := Highest(k, e, q, entry);
    var line := top * (1.0 - r.trail);
    StopIs(top, r);
    TargetIs(entry, r);
    hide Stop, Target;
    assert StopHit(k, e, q, entry, r) <==> k[q].low <= line;
    assert Falls(k, e, q, entry, r) <==> k[q].low <= line;
  }

  lemma StopIs(top: real, r: Rates)
    ensures Stop(top, r) == top * (1.0 - r.trail)
  {
  }

  lemma TargetIs(entry: real, r: Rates)
    ensures Target(entry, r) == entry * r.target
  {
  }

  lemma NothingBefore(k: seq<Candle>, e: nat, j: nat, entry: real, r: Rates)
    requires j <= |k| && Untouched(k, e, j, entry, r)
    ensures forall q: nat :: e <= q < j ==> !Falls(k, e, q, entry, r) && !Gains(k, q, entry, r)
  {
    hide StopHit, TargetHit, Falls, Gains;
    forall q: nat | e <= q < j ensures !Falls(k, e, q, entry, r) && !Gains(k, q, entry, r) {
      HitsAre(k, e, q, entry, r);
    }
  }

  lemma StopFillIs(top: real, r: Rates)
    ensures StopFill(Stop(top, r), r) == top * (1.0 - r.trail) * (1.0 - r.slip)
  {
  }

  /** Left at the first candle that falls or gains enough, the fall first; without one, at the last. */
  ghost predicate LeavesFirst(k: seq<Candle>, e: nat, entry: real, x: Exit, r: Rates) {
    && e <= x.at < |k|
    && (forall q: nat :: e <= q < x.at ==> !Falls(k, e, q, entry, r) && !Gains(k, q, entry, r))
    && match x.outcome
       case StopLoss => Falls(k, e, x.at, entry, r)
       case TakeProfit => !Falls(k, e, x.at, entry, r) && Gains(k, x.at, entry, r)
       case EndOfData => !Falls(k, e, x.at, entry, r) && !Gains(k, x.at, entry, r) && x.at == |k| - 1
  }

  lemma TouchLeavesFirst(k: seq<Candle>, e: nat, entry: real, x: Exit, r: Rates)
    requires e < |k| && FirstTouch(k, e, entry, x, r)
    ensures LeavesFirst(k, e, entry, x, r)
  {
    hide Stop, StopFill, Target, Falls, Gains, StopHit, TargetHit, Highest;
    HitsAre(k, e, x.at, entry, r);
    NothingBefore(k, e, x.at, entry, r);
    if x.outcome == EndOfData {
      var last := |k| - 1;
      assert !StopHit(k, e, last, entry, r) && !TargetHit(k, last, entry, r);
    }
  }

  /** What it is sold for: the trail and the slippage below the highest price `h`, or the target, or the
      last close. */
  ghost predicate SoldFor(k: seq<Candle>, entry: real, x: Exit, h: real, r: Rates) {
    && x.at < |k|
    && match x.outcome
       case StopLoss => x.price == h * (1.0 - r.trail) * (1.0 - r.slip)
       case TakeProfit => x.price == entry * r.target
       case EndOfData => x.price == k[x.at].close
  }

  lemma TouchSoldFor(k: seq<Candle>, e: nat, entry: real, x: Exit, h: real, r: Rates)
    requires e < |k| && FirstTouch(k, e, entry, x, r) && IsHighest(k, e, x.at, entry, h)
    ensures SoldFor(k, entry, x, h, r)
  {
    HighestIsHighest(k, e, x.at, entry);
    assert h == Highest(k, e, x.at, entry);
    StopFillIs(h, r);
    TargetIs(entry, r);
    hide Stop, StopFill, Target, StopHit, TargetHit, Highest, IsHighest, Untouched;
  }

  lemma GrossIs(entry: real, price: real)
    requires entry != 0.0
    ensures Gross(entry, price) * entry == price - entry
  {
  }

  /** Bought at an open plus slippage; the net result is the relative gain less the fee. */
  ghost predicate Accounted(t: Trade, open_: real, r: Rates) {
    t.entry == open_ * (1.0 + r.slip) && t.gross * t.entry == t.exit.price - t.entry && t.net == t.gross - r.fee
  }

  lemma TradeIsAccounted(k: seq<Candle>, e: nat, r: Rates)
    requires e < |k| && Priced(k)
    ensures Accounted(TradeAt(k, e, r), k[e].open_, r)
  {
    EntryIs(k, e, r);
    hide ExitFrom, EntryPrice, Gross;
    var t := TradeAt(k, e, r);
    GrossIs(t.entry, t.exit.price);
  }

  /** A whole trade: bought at the open plus slippage; sold at the first candle that falls the trail
      below the highest price since the entry or that reaches the target; the net result is the
      relative gain less the fee. */
  lemma TradeFromTheCandles(k: seq<Candle>, e: nat, r: Rates, h: real)
    requires e < |k| && Priced(k) && IsHighest(k, e, TradeAt(k, e, r).exit.at, TradeAt(k, e, r).entry, h)
    ensures var t := TradeAt(k, e, r);
            && t.entryAt == e && Accounted(t, k[e].open_, r)
            && LeavesFirst(k, e, t.entry, t.exit, r) && SoldFor(k, t.entry, t.exit, h, r)
  {
    hide Priced, ExitFrom, FirstTouch, LeavesFirst, SoldFor, Accounted, TradeAt, IsHighest;
    ExitIsTheFirstTouch(k, e, r);
    TradeIsAccounted(k, e, r);
    var t := TradeAt(k, e, r);
    TouchLeavesFirst(k, e, t.entry, t.exit, r);
    TouchSoldFor(k, e, t.entry, t.exit, h, r);
  }

  lemma EntryIs(k: seq<Candle>, e: nat, r: Rates)
    requires e < |k| && Priced(k)
    ensures EntryPrice(k, e, r) == k[e].open_ * (1.0 + r.slip)
  {
  }

  /** What the score sees of the past at candle `s`: that candle and up to `warmup` before it. */
  ghost predicate Scores(k: seq<Candle>, rules: Rules, s: nat)
    requires s < |k|
  {
    (rules.score)(k[if s < rules.warmup then 0 else s - rules.warmup..s + 1]) >= 60.0
  }

  lemma SignalIs(k: seq<Candle>, rules: Rules, s: nat)
    requires s < |k|
    ensures Signal(k, rules, s) <==> Scores(k, rules, s)
  {
  }

  /** Where the search for trade number `q` starts: after the cooldown of the one before it. */
  ghost function From(w: seq<Trade>, rules: Rules, i: nat, cool: int, q: nat): int
    requires q <= |w|
  {
    if q == 0 then Max(i, cool + 1) else w[q - 1].exit.at + rules.cooldown + 1
  }

  ghost predicate NextSignal(k: seq<Candle>, rules: Rules, from: int, until: int, taken: bool) {
    && (forall s: nat :: from <= s < until && s < |k| ==> !Scores(k, rules, s))
    && (taken ==> 0 <= until < |k| - 1 && from <= until && Scores(k, rules, until))
  }

  lemma {:induction false} WalkTakesEverySignal(k: seq<Candle>, rules: Rules, i: nat, cool: int, q: nat)
    requires Priced(k) && q <= |Walk(k, rules, i, cool)|
    ensures var w := Walk(k, rules, i, cool);
            NextSignal(k, rules, From(w, rules, i, cool, q), if q < |w| then w[q].entryAt - 1 else |k| - 1, q < |w|)
    decreases q
  {
    hide TradeAt, Signal, Priced, Walk, Scores;
    FirstTradeIsTheFirstSignal(k, rules, i, cool);
    forall s: nat | s < |k| ensures Signal(k, rules, s) <==> Scores(k, rules, s) {
      SignalIs(k, rules, s);
    }
    if q > 0 {
      var w := Walk(k, rules, i, cool);
      WalkTakesEverySignal(k, rules, w[0].exit.at + 1, w[0].exit.at + rules.cooldown, q - 1);
    }
  }

  /** Over a whole history: none without enough candles; else the first trade is entered at the candle
      after the first signal, every further one after the first signal beyond the cooldown of the
      trade before it, and behind the last there is no signal left but on the last candle. */
  lemma EverySignalIsTaken(k: seq<Candle>, rules: Rules, q: nat)
    requires Priced(k) && q <= |Trades(k, rules)|
    ensures |k| < rules.warmup + 5 ==> Trades(k, rules) == []
    ensures |k| >= rules.warmup + 5 ==>
              var w := Trades(k, rules);
              var from := if q == 0 then rules.warmup else w[q - 1].exit.at + rules.cooldown + 1;
              var until := if q < |w| then w[q].entryAt - 1 else |k| - 1;
              && (forall s: nat :: from <= s < until && s < |k| ==> !Scores(k, rules, s))
              && (q < |w| ==>
                  && from <= until < |k| - 1 && Scores(k, rules, until)
                  && w[q] == TradeAt(k, w[q].entryAt, rules.rates))
  {
    hide TradeAt, Signal, Priced, Walk, Scores;
    if |k| >= rules.warmup + 5 {
      WalkTakesEverySignal(k, rules, rules.warmup, -1, q);
      if q < |Trades(k, rules)| {
        TradesNeverOverlap(k, rules, rules.warmup, -1, q);
      }
    }
  }

  // ---- no look-ahead ----

  /** The trades that candles before `m` decide: left by stop or target before `m`. */
  function Decided(trades: seq<Trade>, m: int): seq<Trade> {
    if trades == [] then []
    else (if trades[0].exit.outcome != EndOfData && trades[0].exit.at < m then [trades[0]] else [])
         + Decided(trades[1..], m)
  }

  ghost predicate Agree(k: seq<Candle>, l: seq<Candle>, m: nat) {
    m <= |k| && m <= |l| && forall i :: 0 <= i < m ==> k[i] == l[i]
  }

  ghost predicate Open(x: Exit, m: int) {
    x.outcome == EndOfData || x.at >= m
  }

  lemma {:induction false} SameExit(
      k: seq<Candle>, l: seq<Candle>, m: nat, j: nat, entry: real, top: real, r: Rates)
    requires Agree(k, l, m) && j <= m && k != [] && l != []
    ensures var x, y := ExitFrom(k, j, entry, top, r), ExitFrom(l, j, entry, top, r);
            (x == y && !Open(x, m)) || (Open(x, m) && Open(y, m))
    decreases m - j
  {
    hide Stop, StopFill, Target;
    if j < m {
      SameExit(k, l, m, j + 1, entry, MaxR(top, k[j].high), r);
    }
  }

  lemma SameSignal(k: seq<Candle>, l: seq<Candle>, m: nat, rules: Rules, i: nat)
    requires Agree(k, l, m) && i < m
    ensures Signal(k, rules, i) == Signal(l, rules, i)
  {
    assert k[Max(0, i - rules.warmup)..i + 1] == l[Max(0, i - rules.warmup)..i + 1];
  }

  lemma {:induction false} LateTradesAreUndecided(k: seq<Candle>, rules: Rules, m: int, i: nat, cool: int)
    requires Priced(k) && m <= i + 1
    ensures Decided(Walk(k, rules, i, cool), m) == []
    decreases |k| - i
  {
    if i + 1 < |k| {
      if i <= cool || !Signal(k, rules, i) {
        LateTradesAreUndecided(k, rules, m, i + 1, cool);
      } else {
        var t := TradeAt(k, i + 1, rules.rates);
        LateTradesAreUndecided(k, rules, m, t.exit.at + 1, t.exit.at + rules.cooldown);
        assert ([t] + Walk(k, rules, t.exit.at + 1, t.exit.at + rules.cooldown))[1..]
               == Walk(k, rules, t.exit.at + 1, t.exit.at + rules.cooldown);
      }
    }
  }

  lemma OpenTradeDecidesNothing(k: seq<Candle>, rules: Rules, m: nat, e: nat)
    requires Priced(k) && e < |k| && m <= |k| && Open(TradeAt(k, e, rules.rates).exit, m)
    ensures var t := TradeAt(k, e, rules.rates);
            Decided([t] + Walk(k, rules, t.exit.at + 1, t.exit.at + rules.cooldown), m) == []
  {
    var t := TradeAt(k, e, rules.rates);
    ExitIsTheFirstTouch(k, e, rules.rates);
    var rest := Walk(k, rules, t.exit.at + 1, t.exit.at + rules.cooldown);
    LateTradesAreUndecided(k, rules, m, t.exit.at + 1, t.exit.at + rules.cooldown);
    assert ([t] + rest)[1..] == rest;
  }

  lemma SameTrade(k: seq<Candle>, l: seq<Candle>, m: nat, rules: Rules, e: nat)
    requires Priced(k) && Priced(l) && Agree(k, l, m) && e < m
    ensures (TradeAt(k, e, rules.rates) == TradeAt(l, e, rules.rates) && !Open(TradeAt(k, e, rules.rates).exit, m))
            || (Open(TradeAt(k, e, rules.rates).exit, m) && Open(TradeAt(l, e, rules.rates).exit, m))
  {
    var entry := EntryPrice(k, e, rules.rates);
    SameExit(k, l, m, e, entry, entry, rules.rates);
    hide ExitFrom, Gross, Bought;
  }

  lemma DecidedHead(t: Trade, rest: seq<Trade>, m: int)
    requires !Open(t.exit, m)
    ensures Decided([t] + rest, m) == [t] + Decided(rest, m)
  {
    assert ([t] + rest)[1..] == rest;
  }

  lemma {:induction false} SameWalk(k: seq<Candle>, l: seq<Candle>, m: nat, rules: Rules, i: nat, cool: int)
    requires Priced(k) && Priced(l) && Agree(k, l, m)
    ensures Decided(Walk(k, rules, i, cool), m) == Decided(Walk(l, rules, i, cool), m)
    decreases m - i
  {
    hide Signal, TradeAt, Priced, Decided, Open;
    if m <= i + 1 {
      LateTradesAreUndecided(k, rules, m, i, cool);
      LateTradesAreUndecided(l, rules, m, i, cool);
    } else {
      SameSignal(k, l, m, rules, i);
      if i <= cool || !Signal(k, rules, i) {
        SameWalk(k, l, m, rules, i + 1, cool);
      } else {
        SameTrade(k, l, m, rules, i + 1);
        var t := TradeAt(k, i + 1, rules.rates);
        if Open(t.exit, m) {
          OpenTradeDecidesNothing(k, rules, m, i + 1);
          OpenTradeDecidesNothing(l, rules, m, i + 1);
        } else {
          var i', cool' := t.exit.at + 1, t.exit.at + rules.cooldown;
          SameWalk(k, l, m, rules, i', cool');
          DecidedHead(t, Walk(k, rules, i', cool'), m);
          DecidedHead(t, Walk(l, rules, i', cool'), m);
        }
      }
    }
  }

  /** Two histories that agree on their first `m` candles give the same trades among those that end
      before `m`, whatever the score and whatever comes after. */
  lemma NeverLooksAhead(k: seq<Candle>, l: seq<Candle>, m: nat, rules: Rules)
    requires Priced(k) && Priced(l) && Agree(k, l, m)
    requires |k| >= rules.warmup + 5 && |l| >= rules.warmup + 5
    ensures Decided(Trades(k, rules), m) == Decided(Trades(l, rules), m)
  {
    SameWalk(k, l, m, rules, rules.warmup, -1);
  }
}

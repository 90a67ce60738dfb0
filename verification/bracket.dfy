/** Sizing an entry, building its bracket (OTOCO) order and checking it against the exchange filters. */
module Brackets {
  import opened Prelude
  import opened Rounding

  /** The filters of one symbol. A step of zero units is a filter the exchange does not impose, and
      so is an absent quantity limit. Trailing deltas are in bips. */
  datatype Filters = Filters(
    tick: Step, lot: Step, minQty: Option<real>, maxQty: Option<real>, minNotional: real, trailMin: int, trailMax: int)

  datatype Otoco = Otoco(entry: real, target: real, floor: real, qty: real, pending: real, delta: int)

  datatype Refusal = NotPositive | OffTick | OffStep | LotRange | BelowNotional | TrailBand

  const FILL_BUFFER := 30
  const ASK_BUFFER := 2
  const ACTIVATION_MARGIN := 15

  function Mult(bips: int): real {
    1.0 + bips as real / 10000.0
  }

  function ClampDelta(f: Filters, bips: int): int {
    Max(f.trailMin, Min(bips, f.trailMax))
  }

  // ---- the filter checks ----

  function First(a: Option<Refusal>, b: Option<Refusal>): Option<Refusal> {
    if a.Some? then a else b
  }

  function When(bad: bool, why: Refusal): Option<Refusal> {
    if bad then Some(why) else None
  }

  function CheckLot(f: Filters, q: real): Option<Refusal> {
    When((f.minQty.Some? && q < f.minQty.value) || (f.maxQty.Some? && q > f.maxQty.value), LotRange)
  }

  predicate OffGrid(x: real, s: Step)
  {
    ValuePositive(s);
    s.units > 0 && !OnGrid(x, Value(s))
  }

  function CheckPrice(f: Filters, px: real): Option<Refusal> {
    First(When(f.tick.units > 0 && px <= 0.0, NotPositive), When(OffGrid(px, f.tick), OffTick))
  }

  function CheckNotional(f: Filters, price: real, qty: real): Option<Refusal> {
    When(f.minNotional > 0.0 && price * qty < f.minNotional, BelowNotional)
  }

  /** `_validate_otoco_filters`, check by check in its order. */
  function Validate(f: Filters, o: Otoco): Option<Refusal> {
    First(CheckPrice(f, o.entry), First(CheckPrice(f, o.target), First(CheckPrice(f, o.floor),
    First(When(OffGrid(o.qty, f.lot), OffStep), First(When(OffGrid(o.pending, f.lot), OffStep),
    First(CheckLot(f, o.qty), First(CheckLot(f, o.pending),
    First(CheckNotional(f, o.entry, o.qty), First(CheckNotional(f, o.target, o.pending),
    First(CheckNotional(f, o.floor, o.pending),
    When(!(f.trailMin <= o.delta <= f.trailMax), TrailBand)))))))))))
  }

  // ---- building the order ----

  /** The sell legs leave out the fee that the buy may be charged in the base asset. */
  function Shaved(f: Filters, qty: real): real {
    var pend := RoundDown(qty * 0.999, f.lot);
    if pend <= 0.0 then qty else pend
  }

  /** The limit under the trailing leg: the first trigger less the fill buffer. */
  function FloorPrice(f: Filters, entry: real, delta: int): real {
    RoundDown(entry * Mult(-(delta + FILL_BUFFER)), f.tick)
  }

  function Build(f: Filters, qty: real, entry: real, target: real, bips: int): Otoco {
    var d := ClampDelta(f, bips);
    Otoco(entry, target, FloorPrice(f, entry, d), qty, Shaved(f, qty), d)
  }

  /** `place_otoco` up to the request: `None` when the order goes out. */
  function PlaceOtoco(f: Filters, qty: real, entry: real, target: real, bips: int): Option<Refusal> {
    var o := Build(f, qty, entry, target, bips);
    First(CheckLot(f, qty), First(CheckLot(f, o.pending), Validate(f, o)))
  }

  datatype Sizing =
    | TooSmall        // the reservation is below the minimum notional
    | NoPrice         // the ask rounds to zero, so the division raises
    | NoQuantity
    | RoundedTooSmall
    | BelowMinQty
    | Sized(price: real, qty: real, target: real)

  /** The limit price before rounding: just above the ask. */
  function Bid(ask: real): real {
    ask * Mult(ASK_BUFFER)
  }

  function Units(money: real, price: real): real
    requires price != 0.0
  {
    money / price
  }

  /** The take-profit price before rounding. */
  function Target(price: real): real {
    price * 1.04
  }

  /** The arithmetic of `execute`, from reservation and ask to the order's numbers. */
  function Size(f: Filters, need: real, ask: real): Sizing {
    var price := RoundDown(Bid(ask), f.tick);
    if need < f.minNotional then TooSmall
    else if price == 0.0 then NoPrice
    else
      var qty := RoundDown(Units(need, price), f.lot);
      if qty <= 0.0 then NoQuantity
      else if qty * price < f.minNotional then RoundedTooSmall
      else if f.minQty.Some? && qty < f.minQty.value then BelowMinQty
      else Sized(price, qty, RoundDown(Target(price), f.tick))
  }

  /** The arithmetic of `_reprice`: the quantity comes from the price before it is rounded. */
  function Resize(f: Filters, remaining: real, ask: real): Sizing {
    var raw := Bid(ask);
    if remaining <= 0.0 then TooSmall
    else if raw == 0.0 then NoPrice
    else
      var qty := RoundDown(Units(remaining, raw), f.lot);
      if qty <= 0.0 then NoQuantity
      else
        var price := RoundDown(raw, f.tick);
        Sized(price, qty, RoundDown(Target(price), f.tick))
  }

  ghost predicate Gridded(f: Filters) {
    f.tick.units > 0 && f.lot.units > 0
  }

  /** On the grid of its filter: `round_down` of something. */
  ghost predicate Rounded(x: real, s: Step) {
    ValuePositive(s);
    s.units > 0 && OnGrid(x, Value(s))
  }

  lemma RoundDownIsRounded(v: real, s: Step)
    requires s.units > 0
    ensures Rounded(RoundDown(v, s), s) && !OffGrid(RoundDown(v, s), s)
  {
    RoundDownCountsSteps(v, s);
  }

  /** Every number of the order is on the grid of its filter. */
  ghost predicate OnItsGrids(f: Filters, o: Otoco) {
    !OffGrid(o.entry, f.tick) && !OffGrid(o.target, f.tick) && !OffGrid(o.floor, f.tick) && !OffGrid(o.qty, f.lot)
    && !OffGrid(o.pending, f.lot)
  }

  lemma FloorPriceIsRounded(f: Filters, entry: real, delta: int)
    requires Gridded(f)
    ensures !OffGrid(FloorPrice(f, entry, delta), f.tick)
  {
    RoundDownIsRounded(entry * Mult(-(delta + FILL_BUFFER)), f.tick);
  }

  lemma ShavedIsRounded(f: Filters, qty: real)
    requires Gridded(f) && Rounded(qty, f.lot)
    ensures !OffGrid(Shaved(f, qty), f.lot)
  {
    RoundDownIsRounded(qty * 0.999, f.lot);
  }

  lemma BuildKeepsTheGrids(f: Filters, qty: real, entry: real, target: real, bips: int)
    requires Gridded(f) && Rounded(qty, f.lot) && Rounded(entry, f.tick) && Rounded(target, f.tick)
    ensures OnItsGrids(f, Build(f, qty, entry, target, bips))
  {
    hide FloorPrice, Shaved, OnGrid;
    FloorPriceIsRounded(f, entry, ClampDelta(f, bips));
    ShavedIsRounded(f, qty);
  }

  lemma ValidateOnTheGrids(f: Filters, o: Otoco)
    requires Gridded(f) && OnItsGrids(f, o)
    ensures Validate(f, o) != Some(OffTick) && Validate(f, o) != Some(OffStep)
    ensures Validate(f, o) == Some(TrailBand) ==> !(f.trailMin <= o.delta <= f.trailMax)
    ensures Validate(f, o) == None <==>
            && o.entry > 0.0 && o.target > 0.0 && o.floor > 0.0
            && CheckLot(f, o.qty) == None && CheckLot(f, o.pending) == None
            && CheckNotional(f, o.entry, o.qty) == None && CheckNotional(f, o.target, o.pending) == None
            && CheckNotional(f, o.floor, o.pending) == None
            && f.trailMin <= o.delta <= f.trailMax
  {
    hide OffGrid;
  }

  /** What is left to refuse a bracket: exactly the price signs, the lot range, the notional, and a
      band with no value in it. Never the tick or the step, and the trailing delta only in an empty band. */
  lemma BracketPassesItsGridChecks(f: Filters, qty: real, entry: real, target: real, bips: int)
    requires Gridded(f) && Rounded(qty, f.lot) && Rounded(entry, f.tick) && Rounded(target, f.tick)
    ensures var o := Build(f, qty, entry, target, bips);
            && PlaceOtoco(f, qty, entry, target, bips) != Some(OffTick)
            && PlaceOtoco(f, qty, entry, target, bips) != Some(OffStep)
            && (PlaceOtoco(f, qty, entry, target, bips) == Some(TrailBand) ==> f.trailMin > f.trailMax)
            && (PlaceOtoco(f, qty, entry, target, bips) == None <==>
                && o.entry > 0.0 && o.target > 0.0 && o.floor > 0.0
                && CheckLot(f, o.qty) == None && CheckLot(f, o.pending) == None
                && CheckNotional(f, o.entry, o.qty) == None && CheckNotional(f, o.target, o.pending) == None
                && CheckNotional(f, o.floor, o.pending) == None
                && f.trailMin <= f.trailMax)
  {
    hide FloorPrice, Shaved, OffGrid;
    BuildKeepsTheGrids(f, qty, entry, target, bips);
    ValidateOnTheGrids(f, Build(f, qty, entry, target, bips));
  }

  // ---- the money in an order ----

  lemma Spends(q: real, price: real, need: real, r: real)
    requires price > 0.0 && r * price == need && q <= r
    ensures q * price <= need
  {
    MulMonotone(q, r, price);
  }

  lemma Affords(m: real, price: real, need: real, r: real)
    requires price > 0.0 && r * price == need && m * price <= need
    ensures m <= r
  {
    if m > r {
      MulStrict(r, m, price);
    }
  }

  /** What a number of units costs against what the money buys. */
  lemma UnitsAreWhatMoneyBuys(money: real, price: real, q: real)
    requires money >= 0.0 && price > 0.0
    ensures Units(money, price) >= 0.0
    ensures q * price <= money <==> q <= Units(money, price)
  {
    var r := money / price;
    assert r * price == money;
    if r < 0.0 {
      MulStrict(r, 0.0, price);
    }
    hide Units;
    if q <= r {
      Spends(q, price, money, r);
    } else if q * price <= money {
      Affords(q, price, money, r);
    }
  }

  lemma BidNonNegative(ask: real)
    requires ask >= 0.0
    ensures Bid(ask) >= 0.0
  {
    NonNegative(ask, Mult(ASK_BUFFER));
  }

  lemma TargetAbove(price: real)
    requires price >= 0.0
    ensures Target(price) >= price
  {
  }

  /** The quantity of an entry: it costs no more than the reservation, and no larger multiple of the
      lot step would; broker-side re-rounding leaves both numbers alone. */
  lemma EntryStaysWithinItsReservation(f: Filters, need: real, ask: real, m: real)
    requires Gridded(f) && need >= 0.0 && ask >= 0.0
    requires Size(f, need, ask).Sized?
    ensures var s := Size(f, need, ask);
            && 0.0 < s.price <= Bid(ask) && s.price <= s.target
            && 0.0 < s.qty && s.qty * s.price <= need && f.minNotional <= s.qty * s.price
            && (Rounded(m, f.lot) && m * s.price <= need ==> m <= s.qty)
            && Rounded(s.qty, f.lot) && Rounded(s.price, f.tick) && Rounded(s.target, f.tick)
            && RoundDown(s.qty, f.lot) == s.qty && RoundDown(s.price, f.tick) == s.price
  {
    hide RoundDown, OnGrid, Value, Bid, Units, Target;
    var s := Size(f, need, ask);
    BidNonNegative(ask);
    RoundDownIsGreatestMultiple(Bid(ask), f.tick, 0.0);
    RoundDownIdempotent(Bid(ask), f.tick);
    var r := Units(need, s.price);
    UnitsAreWhatMoneyBuys(need, s.price, s.qty);
    UnitsAreWhatMoneyBuys(need, s.price, m);
    RoundDownIsGreatestMultiple(r, f.lot, m);
    RoundDownIdempotent(r, f.lot);
    TargetAbove(s.price);
    RoundDownIsGreatestMultiple(Target(s.price), f.tick, s.price);
  }

  lemma RefusalReasons(f: Filters, o: Otoco)
    requires Gridded(f) && OnItsGrids(f, o)
    requires o.entry > 0.0 && o.target > 0.0 && o.entry * o.qty >= f.minNotional
    ensures Validate(f, o) == Some(NotPositive) ==> o.floor <= 0.0
    ensures Validate(f, o) == Some(BelowNotional) ==>
              o.target * o.pending < f.minNotional || o.floor * o.pending < f.minNotional
  {
    hide OffGrid;
  }

  /** A bracket built by `execute`: its own checks leave only the floor price, the lot range, the two
      sell notionals and an empty band as reasons to refuse it. */
  lemma ExecutedBracketIsRefusedOnlyFor(f: Filters, need: real, ask: real, bips: int)
    requires Gridded(f) && need >= 0.0 && ask >= 0.0
    requires Size(f, need, ask).Sized?
    ensures var s := Size(f, need, ask);
            var o := Build(f, s.qty, s.price, s.target, bips);
            var refusal := PlaceOtoco(f, s.qty, s.price, s.target, bips);
            && refusal != Some(OffTick) && refusal != Some(OffStep)
            && (refusal == Some(NotPositive) ==> o.floor <= 0.0)
            && (refusal == Some(BelowNotional) ==>
                o.target * o.pending < f.minNotional || o.floor * o.pending < f.minNotional)
            && (refusal == Some(TrailBand) ==> f.trailMin > f.trailMax)
  {
    hide FloorPrice, Shaved, OnGrid, RoundDown, Size, OffGrid, Mult;
    EntryStaysWithinItsReservation(f, need, ask, 0.0);
    var s := Size(f, need, ask);
    BracketPassesItsGridChecks(f, s.qty, s.price, s.target, bips);
    var o := Build(f, s.qty, s.price, s.target, bips);
    Commutes(s.qty, s.price);
    BuildKeepsTheGrids(f, s.qty, s.price, s.target, bips);
    RefusalReasons(f, o);
  }

  lemma Commutes(x: real, y: real)
    ensures x * y == y * x
  {
  }

  /** The same for a repriced entry, with the money not yet spent. */
  lemma RepriceStaysWithinTheRemainder(f: Filters, remaining: real, ask: real, bips: int)
    requires Gridded(f) && ask >= 0.0
    requires Resize(f, remaining, ask).Sized?
    ensures var s := Resize(f, remaining, ask);
            var refusal := PlaceOtoco(f, s.qty, s.price, s.target, bips);
            && 0.0 < s.qty && 0.0 <= s.price && s.qty * s.price <= remaining
            && refusal != Some(OffTick) && refusal != Some(OffStep)
            && (refusal == Some(TrailBand) ==> f.trailMin > f.trailMax)
  {
    hide RoundDown, OnGrid, Value, PlaceOtoco, Bid, Units, Target;
    var s := Resize(f, remaining, ask);
    var raw := Bid(ask);
    BidNonNegative(ask);
    UnitsAreWhatMoneyBuys(remaining, raw, s.qty);
    RoundDownIsGreatestMultiple(Units(remaining, raw), f.lot, 0.0);
    RoundDownIsGreatestMultiple(raw, f.tick, 0.0);
    CheaperFits(s.qty, s.price, raw, remaining);
    RoundDownIsRounded(Target(s.price), f.tick);
    BracketPassesItsGridChecks(f, s.qty, s.price, s.target, bips);
  }

  lemma CheaperFits(q: real, price: real, raw: real, money: real)
    requires q >= 0.0 && price <= raw && q * raw <= money
    ensures q * price <= money
  {
    MulMonotone(price, raw, q);
    Commutes(q, price);
    Commutes(q, raw);
  }

  // ---- the numbers of an order, from the filters and the market alone ----

  /** The greatest multiple of the step that is not above `v`. */
  ghost predicate IsCut(x: real, s: Step, v: real) {
    Rounded(x, s) && x <= v && forall m: real :: Rounded(m, s) && m <= v ==> m <= x
  }

  lemma CutIsRoundDown(x: real, s: Step, v: real)
    requires s.units > 0 && v >= 0.0 && IsCut(x, s, v)
    ensures RoundDown(v, s) == x && x >= 0.0
  {
    hide RoundDown, OnGrid, Value;
    RoundDownIsGreatestMultiple(v, s, x);
    RoundDownIsRounded(v, s);
  }

  lemma BidIs(ask: real)
    ensures Bid(ask) == ask * 1.0002
  {
    assert Mult(ASK_BUFFER) == 1.0002;
  }

  lemma UnitsAre(money: real, price: real, units: real)
    requires price > 0.0 && units * price == money
    ensures Units(money, price) == units
  {
    var r := money / price;
    assert r * price == money;
    hide Units;
    if r < units {
      MulStrict(r, units, price);
    } else if units < r {
      MulStrict(units, r, price);
    }
  }

  lemma TargetIs(price: real)
    ensures Target(price) == price * 1.04
  {
  }

  lemma SizeIs(f: Filters, need: real, ask: real, price: real, qty: real, target: real)
    requires RoundDown(Bid(ask), f.tick) == price && price >= 0.0
    requires price > 0.0 ==> RoundDown(Units(need, price), f.lot) == qty && RoundDown(Target(price), f.tick) == target
    ensures Size(f, need, ask) ==
            if need < f.minNotional then TooSmall
            else if price == 0.0 then NoPrice
            else if qty <= 0.0 then NoQuantity
            else if qty * price < f.minNotional then RoundedTooSmall
            else if f.minQty.Some? && qty < f.minQty.value then BelowMinQty
            else Sized(price, qty, target)
  {
    hide RoundDown, Bid, Units, Target;
  }

  /** What `execute` makes of a reservation: the price is the greatest tick not above the ask plus two
      bips, the quantity the greatest lot that the reservation buys at it, the target the greatest tick
      not above the price plus four percent; and which of its checks stops it. */
  lemma SizeFromTheNumbers(
    f: Filters, need: real, ask: real, bid: real, units: real, goal: real, price: real, qty: real, target: real
  )
    requires Gridded(f) && need >= 0.0 && ask >= 0.0 && bid == ask * 1.0002 && IsCut(price, f.tick, bid)
    requires price > 0.0 ==>
               && units * price == need && IsCut(qty, f.lot, units)
               && goal == price * 1.04 && IsCut(target, f.tick, goal)
    ensures Size(f, need, ask) ==
            if need < f.minNotional then TooSmall
            else if price == 0.0 then NoPrice
            else if qty <= 0.0 then NoQuantity
            else if qty * price < f.minNotional then RoundedTooSmall
            else if f.minQty.Some? && qty < f.minQty.value then BelowMinQty
            else Sized(price, qty, target)
  {
    BidIs(ask);
    BidNonNegative(ask);
    hide RoundDown, OnGrid, Value, Bid, Mult, IsCut, Size, Units, Target;
    CutIsRoundDown(price, f.tick, bid);
    if price > 0.0 {
      UnitsAreWhatMoneyBuys(need, price, 0.0);
      UnitsAre(need, price, units);
      CutIsRoundDown(qty, f.lot, units);
      TargetAbove(price);
      TargetIs(price);
      CutIsRoundDown(target, f.tick, goal);
    }
    SizeIs(f, need, ask, price, qty, target);
  }

  lemma ResizeIs(f: Filters, remaining: real, ask: real, price: real, qty: real, target: real)
    requires RoundDown(Bid(ask), f.tick) == price && RoundDown(Target(price), f.tick) == target
    requires remaining > 0.0 && Bid(ask) != 0.0 ==> RoundDown(Units(remaining, Bid(ask)), f.lot) == qty
    ensures Resize(f, remaining, ask) ==
            if remaining <= 0.0 then TooSmall
            else if Bid(ask) == 0.0 then NoPrice
            else if qty <= 0.0 then NoQuantity
            else Sized(price, qty, target)
  {
    hide RoundDown, Bid, Units, Target;
  }

  /** What `_reprice` makes of the remainder: the quantity is what it buys at the price before rounding. */
  lemma ResizeFromTheNumbers(
    f: Filters, remaining: real, ask: real, bid: real, units: real, goal: real, price: real, qty: real, target: real
  )
    requires Gridded(f) && ask >= 0.0 && bid == ask * 1.0002 && IsCut(price, f.tick, bid)
    requires goal == price * 1.04 && IsCut(target, f.tick, goal)
    requires remaining > 0.0 && bid != 0.0 ==> units * bid == remaining && IsCut(qty, f.lot, units)
    ensures Resize(f, remaining, ask) ==
            if remaining <= 0.0 then TooSmall
            else if bid == 0.0 then NoPrice
            else if qty <= 0.0 then NoQuantity
            else Sized(price, qty, target)
  {
    BidIs(ask);
    BidNonNegative(ask);
    hide RoundDown, OnGrid, Value, Bid, Mult, IsCut, Resize, Units, Target;
    CutIsRoundDown(price, f.tick, bid);
    TargetAbove(price);
    TargetIs(price);
    CutIsRoundDown(target, f.tick, goal);
    if remaining > 0.0 && bid != 0.0 {
      UnitsAreWhatMoneyBuys(remaining, bid, 0.0);
      UnitsAre(remaining, bid, units);
      CutIsRoundDown(qty, f.lot, units);
    }
    ResizeIs(f, remaining, ask, price, qty, target);
  }

  /** The share of a price that is left a number of bips below it. */
  lemma ShareIs(d: int)
    ensures Mult(-(d + FILL_BUFFER)) == 1.0 - (d + 30) as real / 10000.0
  {
    assert (-(d + 30)) as real == -((d + 30) as real);
  }

  lemma FloorFromTheNumbers(f: Filters, entry: real, d: int, share: real, below: real, floor: real)
    requires f.tick.units > 0 && entry >= 0.0 && share == 1.0 - (d + 30) as real / 10000.0 && below == entry * share
    requires share >= 0.0 ==> IsCut(floor, f.tick, below)
    ensures share >= 0.0 ==> FloorPrice(f, entry, d) == floor && 0.0 <= floor
    ensures share < 0.0 ==> FloorPrice(f, entry, d) <= 0.0
    ensures d >= -30 ==> FloorPrice(f, entry, d) <= entry
  {
    ShareIs(d);
    hide RoundDown, OnGrid, Value, Mult, IsCut;
    assert entry * Mult(-(d + FILL_BUFFER)) == below;
    if share >= 0.0 {
      NonNegative(entry, share);
      CutIsRoundDown(floor, f.tick, below);
      CutIsBelow(floor, f.tick, below);
    } else {
      NonNegative(entry, -share);
      assert entry * -share == -below;
      RoundDownOfNonPositive(below, f.tick);
    }
    if d >= -30 {
      TakesAway(entry, share);
    }
  }

  lemma LegsFromTheNumbers(f: Filters, qty: real, most: real, legs: real)
    requires f.lot.units > 0 && qty >= 0.0 && most == qty * 0.999 && IsCut(legs, f.lot, most)
    ensures Shaved(f, qty) == if legs <= 0.0 then qty else legs
    ensures qty > 0.0 ==> 0.0 < Shaved(f, qty) <= qty
  {
    hide RoundDown, OnGrid, Value, IsCut;
    CutIsRoundDown(legs, f.lot, most);
    CutIsBelow(legs, f.lot, most);
  }

  /** What the bracket is made of: the delta in its band, the floor the greatest tick not above the entry
      less the delta and 30 bips, and the sell legs the greatest lot within 99.9 percent of the buy, or all
      of it when that is nothing. A delta beyond 9970 bips leaves no positive floor. The legs never sell
      more than is bought, nor is the floor above the entry unless the band allows deltas below -30. */
  lemma BracketFromTheNumbers(
    f: Filters, qty: real, entry: real, target: real, bips: int,
    d: int, share: real, below: real, floor: real, most: real, legs: real
  )
    requires Gridded(f) && qty >= 0.0 && entry >= 0.0 && d == Max(f.trailMin, Min(bips, f.trailMax))
    requires share == 1.0 - (d + 30) as real / 10000.0 && below == entry * share
    requires share >= 0.0 ==> IsCut(floor, f.tick, below)
    requires most == qty * 0.999 && IsCut(legs, f.lot, most)
    ensures var o := Build(f, qty, entry, target, bips);
            && o == Otoco(entry, target, o.floor, qty, if legs <= 0.0 then qty else legs, d)
            && (if share >= 0.0 then o.floor == floor else o.floor <= 0.0)
            && (d >= -30 ==> o.floor <= entry) && (qty > 0.0 ==> 0.0 < o.pending <= qty)
  {
    hide RoundDown, OnGrid, Value, Mult, IsCut, FloorPrice, Shaved;
    FloorFromTheNumbers(f, entry, d, share, below, floor);
    LegsFromTheNumbers(f, qty, most, legs);
  }

  lemma CutIsBelow(x: real, s: Step, v: real)
    requires IsCut(x, s, v)
    ensures x <= v
  {
  }

  lemma TakesAway(t: real, share: real)
    requires t >= 0.0 && share <= 1.0
    ensures t * share <= t
  {
    var rest := 1.0 - share;
    NonNegative(t, rest);
    assert t * rest == t - t * share;
  }

  ghost predicate InLotRange(f: Filters, qty: real) {
    (f.minQty.Some? ==> f.minQty.value <= qty) && (f.maxQty.Some? ==> qty <= f.maxQty.value)
  }

  ghost predicate WorthEnough(f: Filters, price: real, qty: real) {
    f.minNotional > 0.0 ==> f.minNotional <= price * qty
  }

  lemma NotionalIs(f: Filters, price: real, qty: real)
    ensures CheckNotional(f, price, qty) == When(!WorthEnough(f, price, qty), BelowNotional)
  {
  }

  lemma LotIs(f: Filters, qty: real)
    ensures CheckLot(f, qty) == When(!InLotRange(f, qty), LotRange)
  {
  }

  /** The reasons to refuse a bracket whose numbers are on their grids, in the order of the checks. */
  ghost function Reason(f: Filters, o: Otoco): Option<Refusal> {
    if !InLotRange(f, o.qty) || !InLotRange(f, o.pending) then Some(LotRange)
    else if o.entry <= 0.0 || o.target <= 0.0 || o.floor <= 0.0 then Some(NotPositive)
    else if !WorthEnough(f, o.entry, o.qty) || !WorthEnough(f, o.target, o.pending)
            || !WorthEnough(f, o.floor, o.pending) then Some(BelowNotional)
    else if o.delta < f.trailMin || o.delta > f.trailMax then Some(TrailBand)
    else None
  }

  lemma PriceOnTheGrid(f: Filters, px: real)
    requires f.tick.units > 0 && !OffGrid(px, f.tick)
    ensures CheckPrice(f, px) == When(px <= 0.0, NotPositive)
  {
    hide OffGrid;
  }

  lemma NoneFirst()
    ensures forall b: Option<Refusal> :: First(None, b) == b
  {
  }

  /** The checks one after the other, once the grid checks are known to pass. */
  lemma ValidateChains(f: Filters, o: Otoco)
    requires Gridded(f) && OnItsGrids(f, o)
    ensures Validate(f, o) ==
            First(When(o.entry <= 0.0, NotPositive), First(When(o.target <= 0.0, NotPositive),
            First(When(o.floor <= 0.0, NotPositive),
            First(CheckLot(f, o.qty), First(CheckLot(f, o.pending),
            First(CheckNotional(f, o.entry, o.qty), First(CheckNotional(f, o.target, o.pending),
            First(CheckNotional(f, o.floor, o.pending),
            When(o.delta < f.trailMin || o.delta > f.trailMax, TrailBand)))))))))
  {
    PriceOnTheGrid(f, o.entry);
    PriceOnTheGrid(f, o.target);
    PriceOnTheGrid(f, o.floor);
    NoneFirst();
    assert When(OffGrid(o.qty, f.lot), OffStep) == None && When(OffGrid(o.pending, f.lot), OffStep) == None;
    assert !(f.trailMin <= o.delta <= f.trailMax) == (o.delta < f.trailMin || o.delta > f.trailMax);
    hide OffGrid, CheckNotional, CheckLot, CheckPrice, First, When;
  }

  lemma RefusedFor(f: Filters, o: Otoco)
    requires Gridded(f) && OnItsGrids(f, o)
    ensures First(CheckLot(f, o.qty), First(CheckLot(f, o.pending), Validate(f, o))) == Reason(f, o)
  {
    ValidateChains(f, o);
    NotionalIs(f, o.entry, o.qty);
    NotionalIs(f, o.target, o.pending);
    NotionalIs(f, o.floor, o.pending);
    LotIs(f, o.qty);
    LotIs(f, o.pending);
    hide WorthEnough, CheckNotional, CheckLot, InLotRange, Validate, OnItsGrids;
  }

  /** A filter with a step admits its multiples only. */
  ghost predicate OnStep(x: real, s: Step) {
    s.units == 0 || Rounded(x, s)
  }

  lemma OnStepIs(x: real, s: Step)
    ensures OnStep(x, s) <==> !OffGrid(x, s)
  {
    hide OnGrid;
  }

  lemma PriceIs(f: Filters, px: real)
    ensures CheckPrice(f, px) == None <==> OnStep(px, f.tick) && (f.tick.units > 0 ==> px > 0.0)
  {
    OnStepIs(px, f.tick);
    hide OffGrid, OnStep;
  }

  ghost predicate PricesPass(f: Filters, o: Otoco) {
    && OnStep(o.entry, f.tick) && OnStep(o.target, f.tick) && OnStep(o.floor, f.tick)
    && (f.tick.units > 0 ==> o.entry > 0.0 && o.target > 0.0 && o.floor > 0.0)
  }

  ghost predicate QuantitiesPass(f: Filters, o: Otoco) {
    && OnStep(o.qty, f.lot) && OnStep(o.pending, f.lot) && InLotRange(f, o.qty) && InLotRange(f, o.pending)
    && WorthEnough(f, o.entry, o.qty) && WorthEnough(f, o.target, o.pending) && WorthEnough(f, o.floor, o.pending)
  }

  lemma ValidateNone(f: Filters, o: Otoco)
    ensures Validate(f, o) == None <==>
            && CheckPrice(f, o.entry) == None && CheckPrice(f, o.target) == None && CheckPrice(f, o.floor) == None
            && !OffGrid(o.qty, f.lot) && !OffGrid(o.pending, f.lot)
            && CheckLot(f, o.qty) == None && CheckLot(f, o.pending) == None
            && CheckNotional(f, o.entry, o.qty) == None && CheckNotional(f, o.target, o.pending) == None
            && CheckNotional(f, o.floor, o.pending) == None && f.trailMin <= o.delta <= f.trailMax
  {
    hide CheckPrice, CheckLot, CheckNotional, OffGrid;
  }

  /** Any order, on its grids or not, passes the filter checks exactly when every number meets its own
      filter; a filter without a step or limit asks for nothing. */
  lemma ValidatesExactlyWhen(f: Filters, o: Otoco)
    ensures Validate(f, o) == None <==>
            PricesPass(f, o) && QuantitiesPass(f, o) && f.trailMin <= o.delta <= f.trailMax
  {
    ValidateNone(f, o);
    PriceIs(f, o.entry);
    PriceIs(f, o.target);
    PriceIs(f, o.floor);
    OnStepIs(o.qty, f.lot);
    OnStepIs(o.pending, f.lot);
    LotIs(f, o.qty);
    LotIs(f, o.pending);
    NotionalIs(f, o.entry, o.qty);
    NotionalIs(f, o.target, o.pending);
    NotionalIs(f, o.floor, o.pending);
    hide Validate, CheckPrice, CheckLot, CheckNotional, OffGrid, OnStep, InLotRange, WorthEnough;
  }

  /** Whether a bracket built from rounded numbers goes out, and otherwise why not. */
  lemma BracketRefusedExactlyFor(f: Filters, qty: real, entry: real, target: real, bips: int)
    requires Gridded(f) && Rounded(qty, f.lot) && Rounded(entry, f.tick) && Rounded(target, f.tick)
    ensures var o := Build(f, qty, entry, target, bips);
            PlaceOtoco(f, qty, entry, target, bips) ==
            if !InLotRange(f, qty) || !InLotRange(f, o.pending) then Some(LotRange)
            else if entry <= 0.0 || target <= 0.0 || o.floor <= 0.0 then Some(NotPositive)
            else if !WorthEnough(f, entry, qty) || !WorthEnough(f, target, o.pending)
                    || !WorthEnough(f, o.floor, o.pending) then Some(BelowNotional)
            else if f.trailMin > f.trailMax then Some(TrailBand)
            else None
  {
    hide FloorPrice, Shaved, OffGrid, WorthEnough, Validate, InLotRange, CheckLot;
    BuildKeepsTheGrids(f, qty, entry, target, bips);
    RefusedFor(f, Build(f, qty, entry, target, bips));
  }

  // ---- break-even arming ----

  /** The activation price that `activation_trailing_sell` sends, and the lowest trigger right at it. */
  function Rise(entry: real, bips: int): real {
    entry * Mult(bips + ACTIVATION_MARGIN)
  }

  function Activation(f: Filters, entry: real, bips: int): real {
    RoundDown(Rise(entry, bips), f.tick)
  }

  function WorstTrigger(f: Filters, entry: real, bips: int): real {
    Activation(f, entry, bips) * Mult(-ClampDelta(f, bips))
  }

  /** A delta whose round trip up by `d + 15` bips and down by `d` bips ends above the start. */
  ghost predicate Recovers(d: int) {
    0 <= d && d * (d + ACTIVATION_MARGIN) <= 150000
  }

  lemma RecoversIsSmall(d: int)
    requires Recovers(d)
    ensures d < 10000
  {
    assert d >= 10000 ==> d * (d + 15) >= 10000 * (d + 15);
  }

  /** Up and down again in one polynomial; `p` is `d * (d + 15)`. */
  lemma UpAndDown(d: real, p: real, up: real, down: real)
    requires p == d * (d + 15.0) && up == 1.0 + (d + 15.0) / 10000.0 && down == 1.0 - d / 10000.0
    ensures up * down == 1.0 + (150000.0 - p) / 100000000.0
  {
  }

  lemma Regroup(e: real, up: real, down: real, k: real, a: real)
    requires k == up * down && a == e * up
    ensures a * down == e * k
  {
    assert (e * up) * down == e * (up * down);
  }

  lemma Gains(e: real, gain: real)
    requires e >= 0.0 && gain >= 0.0
    ensures e * (1.0 + gain) == e + e * gain && e * gain >= 0.0
  {
    NonNegative(e, gain);
  }

  lemma Shrinks(x: real, y: real, t: real, down: real, wx: real, wy: real, wt: real)
    requires x > y - t && down > 0.0 && wx == x * down && wy == y * down && wt == t * down
    ensures wx > wy - wt
  {
    var z := y - t;
    MulStrict(z, x, down);
    assert z * down == wy - wt;
  }

  /** The gain of the round trip over the entry, in the price's own unit. */
  function Gain(entry: real, bips: int): real {
    entry * ((150000 - bips * (bips + ACTIVATION_MARGIN)) as real / 100000000.0)
  }

  lemma DownIsPositive(d: int)
    requires Recovers(d)
    ensures 0.0 < Mult(-d) <= 1.0
  {
    RecoversIsSmall(d);
    assert (-d) as real == -(d as real);
  }

  lemma TripMultiplier(d: int, p: int)
    requires p == d * (d + ACTIVATION_MARGIN)
    ensures Mult(d + ACTIVATION_MARGIN) * Mult(-d) == 1.0 + (150000 - p) as real / 100000000.0
  {
    var dr := d as real;
    IntProduct(dr, dr + 15.0, d, d + ACTIVATION_MARGIN);
    UpAndDown(dr, p as real, Mult(d + ACTIVATION_MARGIN), Mult(-d));
  }

  lemma TripGains(entry: real, d: int)
    requires entry >= 0.0 && Recovers(d)
    ensures Rise(entry, d) >= 0.0 && Rise(entry, d) * Mult(-d) == entry + Gain(entry, d) && Gain(entry, d) >= 0.0
  {
    var p := d * (d + ACTIVATION_MARGIN);
    TripMultiplier(d, p);
    NonNegative(entry, Mult(d + ACTIVATION_MARGIN));
    GainOf(entry, d, p);
    hide Mult, Gain;
    var gain := (150000 - p) as real / 100000000.0;
    Regroup(entry, Mult(d + ACTIVATION_MARGIN), Mult(-d), 1.0 + gain, Rise(entry, d));
    Gains(entry, gain);
  }

  lemma GainOf(entry: real, d: int, p: int)
    requires p == d * (d + ACTIVATION_MARGIN)
    ensures Gain(entry, d) == entry * ((150000 - p) as real / 100000000.0)
  {
  }

  /** The unrounded trigger is `entry` plus the gain; rounding the activation to the tick costs less
      than one tick of it. */
  lemma TriggerBounds(f: Filters, entry: real, d: int)
    requires f.tick.units > 0 && entry >= 0.0 && Recovers(d) && ClampDelta(f, d) == d
    ensures Value(f.tick) > 0.0 && 0.0 < Mult(-d) <= 1.0 && Gain(entry, d) >= 0.0
    ensures WorstTrigger(f, entry, d) > entry + Gain(entry, d) - Value(f.tick) * Mult(-d)
  {
    hide RoundDown, OnGrid, Value, Gain, Rise, Mult, Recovers;
    ValuePositive(f.tick);
    DownIsPositive(d);
    TripGains(entry, d);
    RoundDownIsGreatestMultiple(Rise(entry, d), f.tick, 0.0);
    var act, top, t, down := Activation(f, entry, d), Rise(entry, d), Value(f.tick), Mult(-d);
    Shrinks(act, top, t, down, act * down, top * down, t * down);
  }

  /** With the delta unclamped, the first trigger is never a whole tick below the entry. */
  lemma ArmsWithinATickOfBreakEven(f: Filters, entry: real, d: int)
    requires f.tick.units > 0 && entry >= 0.0 && Recovers(d) && ClampDelta(f, d) == d
    ensures WorstTrigger(f, entry, d) > entry - Value(f.tick)
  {
    hide Value, Mult, Gain, WorstTrigger, Recovers;
    TriggerBounds(f, entry, d);
    TakesAway(Value(f.tick), Mult(-d));
  }

  /** It is at break-even as soon as the gain outweighs a tick; for the two configured deltas that is
      an entry of 679 and of 697 ticks. */
  lemma ArmsAtBreakEven(f: Filters, entry: real, d: int)
    requires f.tick.units > 0 && entry >= 0.0 && ClampDelta(f, d) == d && Recovers(d)
    requires || Gain(entry, d) >= Value(f.tick) * Mult(-d)
             || (d == 50 && entry >= 679.0 * Value(f.tick))
             || (d == 80 && entry >= 697.0 * Value(f.tick))
    ensures WorstTrigger(f, entry, d) > entry
  {
    hide Value, Mult, Gain, WorstTrigger, Recovers;
    TriggerBounds(f, entry, d);
    if d == 50 && entry >= 679.0 * Value(f.tick) {
      ConfiguredGains(entry, Value(f.tick));
    } else if d == 80 && entry >= 697.0 * Value(f.tick) {
      ConfiguredGains(entry, Value(f.tick));
    }
  }

  lemma ConfiguredGains(entry: real, t: real)
    requires t > 0.0
    ensures entry >= 679.0 * t ==> Gain(entry, 50) >= t * Mult(-50)
    ensures entry >= 697.0 * t ==> Gain(entry, 80) >= t * Mult(-80)
  {
  }

  lemma GreatestReaches(s: Step, top: real, down: real, e: real, m: real)
    requires Rounded(m, s) && top >= 0.0 && m <= top && down > 0.0 && m * down >= e
    ensures RoundDown(top, s) * down >= e
  {
    hide RoundDown, OnGrid, Value;
    RoundDownIsGreatestMultiple(top, s, m);
    MulMonotone(m, RoundDown(top, s), down);
  }

  lemma RiseNonNegative(entry: real, bips: int)
    requires entry >= 0.0 && 0 <= bips
    ensures Rise(entry, bips) >= 0.0
  {
    NonNegative(entry, Mult(bips + ACTIVATION_MARGIN));
  }

  lemma DownStaysPositive(d: int)
    requires 0 <= d < 10000
    ensures Mult(-d) > 0.0
  {
  }

  /** Exactly when the trigger is at break-even: some price on the tick lies no higher than the
      unrounded activation and high enough to lose the delta that is sent. The activation is computed
      from the requested delta, the order carries the clamped one. */
  lemma BreakEvenNeedsATickInReach(f: Filters, entry: real, bips: int)
    requires f.tick.units > 0 && entry >= 0.0 && 0 <= bips && 0 <= ClampDelta(f, bips) < 10000
    ensures WorstTrigger(f, entry, bips) >= entry <==>
            exists m: real :: Rounded(m, f.tick) && m <= Rise(entry, bips) && m * Mult(-ClampDelta(f, bips)) >= entry
  {
    hide RoundDown, OnGrid, Value, Rise, Mult, Rounded, ClampDelta;
    var d := ClampDelta(f, bips);
    RiseNonNegative(entry, bips);
    DownStaysPositive(d);
    var top, down, act := Rise(entry, bips), Mult(-d), Activation(f, entry, bips);
    RoundDownIsGreatestMultiple(top, f.tick, 0.0);
    RoundDownIsRounded(top, f.tick);
    forall m: real | Rounded(m, f.tick) && m <= top && m * down >= entry ensures act * down >= entry {
      GreatestReaches(f.tick, top, down, entry, m);
    }
  }

  lemma RiseIs(entry: real, bips: int, share: real)
    requires entry >= 0.0 && 0 <= bips && share == 1.0 + (bips + 15) as real / 10000.0
    ensures Rise(entry, bips) == entry * share && Rise(entry, bips) >= 0.0
  {
    assert Mult(bips + ACTIVATION_MARGIN) == share;
    hide Mult;
    NonNegative(entry, share);
  }

  lemma DownIs(d: int)
    ensures Mult(-d) == 1.0 - d as real / 10000.0
  {
    assert (-d) as real == -(d as real);
  }

  /** The activation is the greatest tick not above the entry plus the requested bips and fifteen more;
      the clamped bips below it, the order is triggered. */
  lemma ActivationFromTheNumbers(f: Filters, entry: real, bips: int, share: real, rise: real, act: real)
    requires f.tick.units > 0 && entry >= 0.0 && 0 <= bips && share == 1.0 + (bips + 15) as real / 10000.0
    requires rise == entry * share && IsCut(act, f.tick, rise)
    ensures Activation(f, entry, bips) == act
  {
    RiseIs(entry, bips, share);
    hide RoundDown, OnGrid, Value, Mult, IsCut, Rise;
    CutIsRoundDown(act, f.tick, rise);
  }

  lemma TriggerFromTheNumbers(f: Filters, entry: real, bips: int, d: int, down: real)
    requires d == Max(f.trailMin, Min(bips, f.trailMax)) && down == 1.0 - d as real / 10000.0
    ensures WorstTrigger(f, entry, bips) == Activation(f, entry, bips) * down
  {
    DownIs(d);
    hide RoundDown, Mult, Activation;
  }

  /** The comment beside the configured deltas promises break-even for every price. An entry of one
      tick is a counterexample. */
  lemma BreakEvenCanBeMissed(f: Filters)
    requires f.tick == Step(1, 0) && f.trailMin == 10 && f.trailMax == 2000
    ensures ClampDelta(f, 50) == 50 && WorstTrigger(f, 1.0, 50) < 1.0
  {
    var top := Rise(1.0, 50);
    assert top == 1.0065;
    UnitStepTruncates(top, f.tick);
    hide RoundDown;
    assert Activation(f, 1.0, 50) == 1.0;
  }

  /** So is any price at all when the exchange's band pushes the delta up: the activation still allows
      for the 50 bips asked for, the order trails by 100. */
  lemma ClampingCanMissBreakEven(f: Filters)
    requires f.tick == Step(1, 2) && f.trailMin == 100 && f.trailMax == 2000
    ensures ClampDelta(f, 50) == 100 && WorstTrigger(f, 1000.0, 50) < 1000.0
  {
    assert Rise(1000.0, 50) == 1006.5;
    WorstTriggerOf(f, 1000.0, 50, 1006.5, 100);
  }

  lemma WorstTriggerOf(f: Filters, entry: real, bips: int, top: real, d: int)
    requires f.tick.units > 0 && top == Rise(entry, bips) && top >= 0.0 && d == ClampDelta(f, bips) && 0 <= d < 10000
    ensures WorstTrigger(f, entry, bips) <= top * Mult(-d)
  {
    hide RoundDown, OnGrid, Value, Rise, ClampDelta;
    RoundDownIsGreatestMultiple(top, f.tick, 0.0);
    DownStaysPositive(d);
    hide Mult;
    MulMonotone(RoundDown(top, f.tick), top, Mult(-d));
  }
}

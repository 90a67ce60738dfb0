/** `reprotect_if_naked`: whether a position whose protective order was being swapped is protected,
    unknown or naked, and what is then sold. */
module Protection {
  import opened Prelude
  import opened Rounding
  import opened Brackets
  import opened Brokers

  const INITIAL_TRAIL := 50

  datatype OrderStatus = New | PartiallyFilled | Filled | Canceled | Expired | Rejected | PendingCancel | OtherOrder
  datatype ListStatus = Executing | AllDone | OtherList
  datatype PosState = Armed | Tightened | InEmergency | Closed

  /** The protection side of a position; `replacing` is the durable flag raised before a swap cancels
      the old order. `next` is the earliest instant of the next retry. */
  datatype Guard = Guard(
    exitOrder: Option<int>, list: Option<int>, replacing: bool, state: PosState, filled: real, trail: int, tries: nat,
    next: real)

  /** The shared switches that protection sets: the latched text, and the ordinary halt. */
  datatype Switches = Switches(latched: bool, halted: bool)

  /** The outside's answers in one call; `None` where the query or the order raises. `free` and
      `freeAgain` are the two balances that the broker reports, which always answers. */
  datatype Answers = Answers(
    order: Option<OrderStatus>, list: Option<ListStatus>, now: real, free: real, freeAgain: real,
    sell: Option<int>, emergencySell: bool)

  datatype Standing = Live | Terminal | Unknown

  function OfOrder(s: Option<OrderStatus>): Standing {
    match s
    case Some(New) => Live
    case Some(PartiallyFilled) => Live
    case None => Unknown
    case Some(OtherOrder) => Unknown
    case _ => Terminal
  }

  function OfList(s: Option<ListStatus>): Standing {
    match s
    case Some(Executing) => Live
    case Some(AllDone) => Terminal
    case _ => Unknown
  }

  /** Only the handle that the position holds is asked; without one nothing is known. */
  function Observed(g: Guard, a: Answers): Standing {
    if g.exitOrder.Some? then OfOrder(a.order) else if g.list.Some? then OfList(a.list) else Unknown
  }

  function Pow2(n: nat): nat {
    if n == 0 then 1 else 2 * Pow2(n - 1)
  }

  /** Seconds until the next retry after `n` unknown answers. */
  function Backoff(n: nat): int {
    Min(15 * Pow2(Min(n, 6)), 900)
  }

  predicate Dust(f: Filters, cur: real, held: real) {
    held < (if f.minQty.Some? then f.minQty.value else 0.0) || (f.minNotional > 0.0 && cur * held < f.minNotional)
  }

  /** What to protect: the booked fill, cut to the balance reported a second time. */
  function Sellable(f: Filters, g: Guard, a: Answers): real {
    RoundDown(MinR(g.filled, a.freeAgain), f.lot)
  }

  function Delta(f: Filters, g: Guard): int {
    ClampDelta(f, if g.trail != 0 then g.trail else INITIAL_TRAIL)
  }

  /** The order that one call knows to be placed. A sell whose call raised is not among them, although
      the exchange may have taken it: see `Placement`. */
  datatype Sent = Nothing | Trailing(qty: real, delta: int) | Emergency(qty: real)

  datatype After = After(g: Guard, s: Switches, sent: Sent)

  function Spaced(g: Guard, s: Switches, a: Answers): After {
    if a.now < g.next then After(g, s, Nothing)
    else After(g.(tries := g.tries + 1, next := a.now + Backoff(g.tries + 1) as real), s.(latched := true), Nothing)
  }

  /** The trailing sell goes out when its rounded quantity passes the lot range; a failure of either
      turns to the emergency exit, which sells the whole booked fill and halts. */
  function Rearm(f: Filters, g: Guard, s: Switches, a: Answers): After {
    var qty := Sellable(f, g, a);
    if qty <= 0.0 then After(g.(replacing := false), s, Nothing)
    else if CheckLot(f, RoundDown(qty, f.lot)) == None && a.sell.Some?
    then After(g.(exitOrder := a.sell, list := None, state := Armed, replacing := false, tries := 0),
               s.(latched := false), Trailing(RoundDown(qty, f.lot), Delta(f, g)))
    else if a.emergencySell
    then After(g.(state := InEmergency), s.(halted := true), Emergency(RoundDown(g.filled, f.lot)))
    else After(g.(state := InEmergency), s, Nothing)
  }

  function Naked(f: Filters, g: Guard, s: Switches, cur: real, a: Answers): After {
    if Dust(f, cur, RoundDown(a.free, f.lot))
    then After(g.(replacing := false, tries := 0, state := Closed), s.(latched := false), Nothing)
    else Rearm(f, g, s, a)
  }

  function Reprotect(f: Filters, g: Guard, s: Switches, cur: real, a: Answers): After {
    if !g.replacing then After(g, s, Nothing)
    else match Observed(g, a)
      case Live => After(g.(replacing := false, tries := 0), s.(latched := false), Nothing)
      case Unknown => Spaced(g, s, a)
      case Terminal => Naked(f, g, s, cur, a)
  }

  // ---- the object ----

  class ExitEngine {
    const filters: Filters
    var g: Guard
    var s: Switches

    constructor (filters: Filters, g: Guard, s: Switches)
      ensures this.filters == filters && this.g == g && this.s == s
    {
      this.filters, this.g, this.s := filters, g, s;
    }

    method QueryStanding(a: Answers) returns (status: Standing)
      ensures status == Observed(g, a)
    {
      status := Unknown;
      if g.exitOrder.Some? {
        if a.order.Some? {
          if a.order.value == New || a.order.value == PartiallyFilled {
            status := Live;
          } else if a.order.value != OtherOrder {
            status := Terminal;
          }
        }
      } else if g.list.Some? {
        if a.list == Some(Executing) {
          status := Live;
        } else if a.list == Some(AllDone) {
          status := Terminal;
        }
      }
    }

    method RearmOrExit(a: Answers) returns (sent: Sent)
      modifies this
      ensures After(g, s, sent) == Rearm(filters, old(g), old(s), a)
    {
      var sellable := MinR(g.filled, a.freeAgain);
      sellable := RoundDown(sellable, filters.lot);
      if sellable <= 0.0 {
        g := g.(replacing := false);
        return Nothing;
      }
      var d := Delta(filters, g);
      var qty := RoundDown(sellable, filters.lot);
      if CheckLot(filters, qty) == None && a.sell.Some? {
        g := g.(exitOrder := a.sell, list := None, state := Armed);
        g := g.(replacing := false, tries := 0);
        s := s.(latched := false);
        return Trailing(qty, d);
      }
      g := g.(state := InEmergency);
      sent := Nothing;
      if a.emergencySell {
        sent := Emergency(RoundDown(g.filled, filters.lot));
        s := s.(halted := true);
      }
    }

    method ReprotectIfNaked(cur: real, a: Answers) returns (sent: Sent)
      modifies this
      ensures After(g, s, sent) == Reprotect(filters, old(g), old(s), cur, a)
    {
      sent := Nothing;
      if !g.replacing {
        return;
      }
      var status := QueryStanding(a);
      if status == Live {
        g := g.(replacing := false, tries := 0);
        s := s.(latched := false);
        return;
      }
      if status == Unknown {
        if a.now < g.next {
          return;
        }
        g := g.(tries := g.tries + 1);
        g := g.(next := a.now + Backoff(g.tries) as real);
        s := s.(latched := true);
        return;
      }
      var held := RoundDown(a.free, filters.lot);
      if Dust(filters, cur, held) {
        g := g.(replacing := false, tries := 0, state := Closed);
        s := s.(latched := false);
        return;
      }
      sent := RearmOrExit(a);
    }
  }

  // ---- one call ----

  /** The tracked order was answered as no longer working; the list is asked only without an exit order. */
  ghost predicate SeenDone(g: Guard, a: Answers) {
    if g.exitOrder.Some? then
      a.order == Some(Filled) || a.order == Some(Canceled) || a.order == Some(Expired) || a.order == Some(Rejected)
      || a.order == Some(PendingCancel)
    else g.list.Some? && a.list == Some(AllDone)
  }

  ghost predicate SeenWorking(g: Guard, a: Answers) {
    if g.exitOrder.Some? then a.order == Some(New) || a.order == Some(PartiallyFilled)
    else g.list.Some? && a.list == Some(Executing)
  }

  /** Less than the smallest lot, or worth less than the smallest order. */
  ghost predicate TooSmall(f: Filters, cur: real, held: real) {
    || (f.minQty.Some? && held < f.minQty.value) || (f.minQty.None? && held < 0.0)
    || (0.0 < f.minNotional && cur * held < f.minNotional)
  }

  /** The whole answer of one call, from the answers it got. */
  lemma ReprotectExactly(f: Filters, g: Guard, s: Switches, cur: real, a: Answers)
    requires f.lot.units > 0
    ensures var r := Reprotect(f, g, s, cur, a);
            var held, qty := RoundDown(a.free, f.lot), RoundDown(MinR(g.filled, a.freeAgain), f.lot);
            && (!g.replacing ==> r == After(g, s, Nothing))
            && (g.replacing && SeenWorking(g, a) ==>
                  r == After(g.(replacing := false, tries := 0), s.(latched := false), Nothing))
            && (g.replacing && !SeenWorking(g, a) && !SeenDone(g, a) ==>
                  r.sent == Nothing && r.g == g.(tries := r.g.tries, next := r.g.next) && r.s.halted == s.halted
                  && (a.now < g.next ==> r.g == g && r.s == s)
                  && (g.next <= a.now ==>
                        r.s.latched && r.g.tries == g.tries + 1 && r.g.next == a.now + Backoff(g.tries + 1) as real))
            && (g.replacing && SeenDone(g, a) && TooSmall(f, cur, held) ==>
                  r == After(g.(replacing := false, tries := 0, state := Closed), s.(latched := false), Nothing))
            && (g.replacing && SeenDone(g, a) && !TooSmall(f, cur, held) && qty <= 0.0 ==>
                  r == After(g.(replacing := false), s, Nothing))
            && (g.replacing && SeenDone(g, a) && !TooSmall(f, cur, held) && qty > 0.0 ==>
                  if InLotRange(f, qty) && a.sell.Some? then
                    && r.g == g.(exitOrder := a.sell, list := None, state := Armed, replacing := false, tries := 0)
                    && r.s == s.(latched := false) && r.sent.Trailing? && r.sent.qty == qty
                    && r.sent.delta == Max(f.trailMin, Min(if g.trail != 0 then g.trail else 50, f.trailMax))
                  else
                    && r.g == g.(state := InEmergency)
                    && r.sent == (if a.emergencySell then Emergency(RoundDown(g.filled, f.lot)) else Nothing)
                    && r.s == s.(halted := s.halted || a.emergencySell))
  {
    RoundDownIdempotent(MinR(g.filled, a.freeAgain), f.lot);
    hide RoundDown, Backoff;
  }

  /** Nothing is sold, and no position booked closed, beside an order that was not answered as done. */
  lemma OnlyADoneOrderIsReplaced(f: Filters, g: Guard, s: Switches, cur: real, a: Answers)
    requires f.lot.units > 0
    ensures var r := Reprotect(f, g, s, cur, a);
            r.sent != Nothing || r.g.state != g.state ==> g.replacing && SeenDone(g, a) && !SeenWorking(g, a)
  {
    hide Reprotect, RoundDown, TooSmall, InLotRange;
    ReprotectExactly(f, g, s, cur, a);
  }

  /** The trailing sell goes out exactly when a raised flag meets a done order, a balance above dust, a
      quantity to protect within the lot range, and an exchange that takes it. */
  lemma RearmsExactlyWhen(f: Filters, g: Guard, s: Switches, cur: real, a: Answers)
    requires f.lot.units > 0
    ensures Reprotect(f, g, s, cur, a).sent.Trailing? <==>
            var held, qty := RoundDown(a.free, f.lot), RoundDown(MinR(g.filled, a.freeAgain), f.lot);
            && g.replacing && SeenDone(g, a) && !TooSmall(f, cur, held)
            && 0.0 < qty && InLotRange(f, qty) && a.sell.Some?
  {
    hide Reprotect, RoundDown, TooSmall, InLotRange;
    ReprotectExactly(f, g, s, cur, a);
  }

  /** An order leaves only after this very call saw the tracked order terminal and a balance above
      dust. A trailing sell is a positive multiple of the lot, within the lot range, the greatest that
      fits in the booked fill and in the balance reported for it. */
  lemma SellsOnlyWhenNaked(f: Filters, g: Guard, s: Switches, cur: real, a: Answers, m: real)
    requires f.lot.units > 0 && g.filled >= 0.0
    requires Reprotect(f, g, s, cur, a).sent != Nothing
    ensures g.replacing && Observed(g, a) == Terminal && !Dust(f, cur, RoundDown(a.free, f.lot))
    ensures var sent := Reprotect(f, g, s, cur, a).sent;
            && (sent.Emergency? ==> sent.qty == RoundDown(g.filled, f.lot) <= g.filled)
            && (sent.Trailing? ==>
                && 0.0 < sent.qty <= g.filled && sent.qty <= a.freeAgain
                && Rounded(sent.qty, f.lot) && CheckLot(f, sent.qty) == None
                && (Rounded(m, f.lot) && m <= g.filled && m <= a.freeAgain ==> m <= sent.qty)
                && (f.trailMin <= f.trailMax ==> f.trailMin <= sent.delta <= f.trailMax))
  {
    hide RoundDown, Rounded, CheckLot, Dust;
    var x := MinR(g.filled, a.freeAgain);
    PositiveCutIsOfAPositive(x, f.lot);
    if x >= 0.0 {
      BestCut(f, x, m);
    }
    BestCut(f, g.filled, m);
  }

  lemma PositiveCutIsOfAPositive(x: real, s: Step)
    requires s.units > 0
    ensures RoundDown(x, s) > 0.0 ==> x > 0.0
  {
    if x <= 0.0 {
      RoundDownOfNonPositive(x, s);
    }
  }

  lemma BestCut(f: Filters, x: real, m: real)
    requires f.lot.units > 0 && x >= 0.0
    ensures RoundDown(RoundDown(x, f.lot), f.lot) == RoundDown(x, f.lot) <= x
    ensures Rounded(RoundDown(x, f.lot), f.lot) && (Rounded(m, f.lot) && m <= x ==> m <= RoundDown(x, f.lot))
  {
    RoundDownIdempotent(x, f.lot);
    RoundDownIsGreatestMultiple(x, f.lot, m);
  }

  /** The first balance decided that there is something to protect. The sale stays within it exactly
      when the fill or the second balance does, cut to the lot; so it does whenever the two agree. */
  lemma FirstBalanceBoundsTheSaleExactlyWhen(f: Filters, g: Guard, s: Switches, cur: real, a: Answers)
    requires f.lot.units > 0 && g.filled >= 0.0
    requires Reprotect(f, g, s, cur, a).sent.Trailing?
    ensures Reprotect(f, g, s, cur, a).sent.qty <= a.free <==>
            RoundDown(g.filled, f.lot) <= a.free || RoundDown(a.freeAgain, f.lot) <= a.free
    ensures a.freeAgain == a.free ==> Reprotect(f, g, s, cur, a).sent.qty <= a.free
  {
    hide RoundDown, Rounded, CheckLot, Dust;
    var x := MinR(g.filled, a.freeAgain);
    PositiveCutIsOfAPositive(x, f.lot);
    BestCut(f, x, 0.0);
    BestCut(f, g.filled, RoundDown(x, f.lot));
    BestCut(f, a.freeAgain, RoundDown(x, f.lot));
  }

  /** With the broker's cache in between: a sale above the first balance takes an account query that
      came more than five seconds after the fetch before it and told of a larger balance. */
  lemma OnlyANewerFetchExceedsTheFirstBalance(
      f: Filters, g: Guard, s: Switches, cur: real, a: Answers, c: Cache, first: Query, second: Query)
    requires f.lot.units > 0 && g.filled >= 0.0
    requires a.free == Held(Asked(c, first)) && a.freeAgain == Held(Asked(Asked(c, first), second))
    requires Reprotect(f, g, s, cur, a).sent.Trailing? && Reprotect(f, g, s, cur, a).sent.qty > a.free
    ensures Stale(Asked(c, first), second.now) && second.account.Some? && second.account.value > a.free
  {
    hide RoundDown, Rounded, CheckLot, Dust;
    SellsOnlyWhenNaked(f, g, s, cur, a, 0.0);
    TwoReadsAgreeExactlyWhen(c, first, second);
  }

  /** The flag is lowered in exactly three ways: the tracked order was seen live; it was seen
      terminal and a new trailing sell took its place; or it was seen terminal and the reported
      balance left nothing to sell. */
  lemma FlagClearsOnlyWhenSettled(f: Filters, g: Guard, s: Switches, cur: real, a: Answers)
    requires g.replacing
    ensures var r := Reprotect(f, g, s, cur, a);
            !r.g.replacing <==>
            || Observed(g, a) == Live
            || (Observed(g, a) == Terminal && r.sent.Trailing? && r.g.exitOrder == a.sell && r.g.state == Armed)
            || (Observed(g, a) == Terminal
                && (Dust(f, cur, RoundDown(a.free, f.lot)) || Sellable(f, g, a) <= 0.0))
  {
    hide RoundDown, CheckLot, Dust;
  }

  /** An unanswered question sells nothing and keeps the flag; when a retry is due it latches the halt
      and pushes the next one back by 30 seconds at first, doubling up to 900. */
  lemma UnknownLatchesAndWaits(f: Filters, g: Guard, s: Switches, cur: real, a: Answers)
    requires g.replacing && Observed(g, a) == Unknown
    ensures var r := Reprotect(f, g, s, cur, a);
            && r.sent == Nothing && r.g.replacing && r.g.state == g.state
            && (a.now < g.next ==> r.g == g && r.s == s)
            && (a.now >= g.next ==>
                && r.s.latched && r.g.tries == g.tries + 1
                && a.now + 30.0 <= r.g.next <= a.now + 900.0
                && (forall later: Answers :: later.now < a.now + 30.0 && Observed(g, later) == Unknown ==>
                      Reprotect(f, r.g, r.s, cur, later) == After(r.g, r.s, Nothing)))
  {
    BackoffInRange(g.tries + 1);
  }

  lemma BackoffInRange(n: nat)
    requires n >= 1
    ensures Backoff(1) == 30 && 30 <= Backoff(n) <= 900 && (n < 6 ==> Backoff(n + 1) == Min(2 * Backoff(n), 900))
    ensures n >= 6 ==> Backoff(n) == 900
  {
    assert Pow2(1) == 2 && Pow2(2) == 4 && Pow2(3) == 8 && Pow2(4) == 16 && Pow2(5) == 32 && Pow2(6) == 64;
  }

  // ---- monitor runs ----

  /** A run of the monitor: calls of `reprotect_if_naked`, and anything else that happens to the
      position between them. */
  datatype Event = Monitor(cur: real, a: Answers) | Outside(g: Guard, s: Switches)

  datatype Tally = Tally(g: Guard, s: Switches, raised: nat, rearmed: nat, emergencies: nat)

  function Tick(f: Filters, t: Tally, e: Event): Tally {
    match e
    case Monitor(cur, a) =>
      var r := Reprotect(f, t.g, t.s, cur, a);
      Tally(r.g, r.s, t.raised, if r.sent.Trailing? then t.rearmed + 1 else t.rearmed,
            if r.sent.Emergency? then t.emergencies + 1 else t.emergencies)
    case Outside(g, s) => t.(g := g, s := s, raised := if g.replacing && !t.g.replacing then t.raised + 1 else t.raised)
  }

  function Run(f: Filters, t: Tally, events: seq<Event>): Tally
    decreases |events|
  {
    if events == [] then t else Run(f, Tick(f, t, events[0]), events[1..])
  }

  /** Whatever fails and whatever else happens: re-armed sells never outnumber the raisings of the flag. */
  lemma {:induction false} OneRearmPerRaising(f: Filters, t: Tally, events: seq<Event>)
    requires t.rearmed + (if t.g.replacing then 1 else 0) <= t.raised
    ensures var after := Run(f, t, events);
            after.rearmed + (if after.g.replacing then 1 else 0) <= after.raised
    decreases |events|
  {
    if events != [] {
      hide RoundDown, CheckLot, Dust;
      OneRearmPerRaising(f, Tick(f, t, events[0]), events[1..]);
    }
  }

  /** The emergency exit is taken exactly when the position is naked, the trailing sell was refused
      and the emergency sell was accepted. It does not lower the flag. */
  lemma EmergencyExactlyWhen(f: Filters, g: Guard, s: Switches, cur: real, a: Answers)
    ensures var r := Reprotect(f, g, s, cur, a);
            && (r.sent.Emergency? <==>
                && g.replacing && Observed(g, a) == Terminal && !Dust(f, cur, RoundDown(a.free, f.lot))
                && Sellable(f, g, a) > 0.0 && a.emergencySell
                && (a.sell == None || CheckLot(f, RoundDown(Sellable(f, g, a), f.lot)) != None))
            && (r.sent.Emergency? ==> r.g == g.(state := InEmergency) && r.s.halted)
  {
    hide RoundDown, CheckLot, Dust;
  }

  function Again(e: Event, n: nat): seq<Event> {
    if n == 0 then [] else [e] + Again(e, n - 1)
  }

  /** So unlike re-arming it can repeat: the same answers again, any number of times, sell again each
      time under the one raising of the flag. */
  lemma {:induction false} EmergenciesCanRepeat(f: Filters, t: Tally, cur: real, a: Answers, n: nat)
    requires Reprotect(f, t.g, t.s, cur, a).sent.Emergency?
    ensures var after := Run(f, t, Again(Monitor(cur, a), n));
            after.emergencies == t.emergencies + n && after.raised == t.raised && after.g.replacing
    decreases n
  {
    OneMoreEmergency(f, t, cur, a);
    hide Tick, Reprotect;
    if n > 0 {
      EmergenciesCanRepeat(f, Tick(f, t, Monitor(cur, a)), cur, a, n - 1);
      assert Again(Monitor(cur, a), n)[1..] == Again(Monitor(cur, a), n - 1);
    }
  }

  lemma OneMoreEmergency(f: Filters, t: Tally, cur: real, a: Answers)
    requires Reprotect(f, t.g, t.s, cur, a).sent.Emergency?
    ensures var next := Tick(f, t, Monitor(cur, a));
            && next.emergencies == t.emergencies + 1 && next.raised == t.raised
            && t.g.replacing && next.g.replacing && Reprotect(f, next.g, next.s, cur, a).sent.Emergency?
  {
    hide RoundDown, CheckLot, Dust;
    EmergencyExactlyWhen(f, t.g, t.s, cur, a);
  }
}

/** `EntryEngine.execute` around its one placement: how each answer of the outside world settles the
    reservation. The broker's answers are parameters. */
module Entries {
  import opened Prelude
  import opened Brackets
  import Rounding
  import opened ReservationSpec
  import opened Portfolios

  /** What the placement's reply holds: reading the order ids of a bracket can raise, can find no
      working order, or can find one; the list id beside it may be unreadable as a number. The id of
      a plain order is read inside the broker call, where a missing one counts as a failed placement. */
  datatype Ids = Raises | NoWorkingOrder | Working
  datatype Reply = Reply(ids: Ids, listIdReadable: bool, orderIdPresent: bool)

  /** What the outside answers in one entry: `None` where the call raises. */
  datatype Market = Market(filters: Option<Filters>, bracketAllowed: bool, ask: Option<real>, reply: Option<Reply>)

  const TRAIL := 50

  /** `limit_buy` rounds once more and checks the lot. */
  function PlaceLimit(f: Filters, qty: real): Option<Refusal> {
    CheckLot(f, Rounding.RoundDown(qty, f.lot))
  }

  function PlacementRefusal(f: Filters, s: Sizing, bracket: bool): Option<Refusal>
    requires s.Sized?
  {
    if bracket then PlaceOtoco(f, s.qty, s.price, s.target, TRAIL) else PlaceLimit(f, s.qty)
  }

  /** The order leaves for the exchange. */
  predicate GoesOut(need: real, m: Market) {
    m.filters.Some? && m.ask.Some? && Size(m.filters.value, need, m.ask.value).Sized?
    && PlacementRefusal(m.filters.value, Size(m.filters.value, need, m.ask.value), m.bracketAllowed) == None
  }

  lemma SizedLimitGoesOut(f: Filters, need: real, ask: real)
    requires Gridded(f) && need >= 0.0 && ask >= 0.0 && Size(f, need, ask).Sized?
    ensures PlaceLimit(f, Size(f, need, ask).qty) == None <==> InLotRange(f, Size(f, need, ask).qty)
  {
    hide Size, Rounding.RoundDown;
    EntryStaysWithinItsReservation(f, need, ask, 0.0);
    LotIs(f, Size(f, need, ask).qty);
  }

  lemma SizedBracketGoesOut(f: Filters, need: real, ask: real, bips: int)
    requires Gridded(f) && need >= 0.0 && ask >= 0.0 && Size(f, need, ask).Sized?
    ensures var s := Size(f, need, ask);
            var o := Build(f, s.qty, s.price, s.target, bips);
            PlaceOtoco(f, s.qty, s.price, s.target, bips) == None <==>
            && InLotRange(f, s.qty) && InLotRange(f, o.pending) && 0.0 < o.floor
            && WorthEnough(f, s.target, o.pending) && WorthEnough(f, o.floor, o.pending)
            && f.trailMin <= f.trailMax
  {
    hide Size, Build, PlaceOtoco, Rounding.RoundDown, WorthEnough, InLotRange, Rounded;
    var s := Size(f, need, ask);
    EntryStaysWithinItsReservation(f, need, ask, 0.0);
    BracketRefusedExactlyFor(f, s.qty, s.price, s.target, bips);
    EntryIsWorthEnough(f, s.price, s.qty);
  }

  lemma EntryIsWorthEnough(f: Filters, price: real, qty: real)
    requires f.minNotional <= qty * price
    ensures WorthEnough(f, price, qty)
  {
    Commutes(price, qty);
  }

  /** An order leaves exactly when the filters and the ask are there, the reservation can be sized, the
      quantity is in the lot range, and, for a bracket, so are its sell legs, the floor is positive, the
      two sell notionals are large enough and the trailing band is not empty. */
  lemma GoesOutExactlyWhen(need: real, m: Market)
    requires need >= 0.0 && (m.filters.Some? ==> Gridded(m.filters.value)) && (m.ask.Some? ==> m.ask.value >= 0.0)
    ensures GoesOut(need, m) <==>
            && m.filters.Some? && m.ask.Some? && var f := m.filters.value;
               var s := Size(f, need, m.ask.value);
               && s.Sized? && InLotRange(f, s.qty)
               && (m.bracketAllowed ==>
                   var o := Build(f, s.qty, s.price, s.target, 50);
                   && InLotRange(f, o.pending) && 0.0 < o.floor && WorthEnough(f, s.target, o.pending)
                   && WorthEnough(f, o.floor, o.pending) && f.trailMin <= f.trailMax)
  {
    hide Size, Build, PlaceOtoco, PlaceLimit, WorthEnough, InLotRange;
    if m.filters.Some? && m.ask.Some? && Size(m.filters.value, need, m.ask.value).Sized? {
      SizedLimitGoesOut(m.filters.value, need, m.ask.value);
      SizedBracketGoesOut(m.filters.value, need, m.ask.value, 50);
    }
  }

  class EntryEngine {
    const pf: Portfolio

    constructor (pf: Portfolio)
      ensures this.pf == pf
    {
      this.pf := pf;
    }

    /** The part of `execute` after a successful `try_reserve`. */
    method Finish(symbol: Symbol, need: real, m: Market) returns (ending: Ending)
      requires need > 0.0
      modifies pf
      ensures pf.State() == (match ending
                case Released => Release(old(pf.State()), symbol, need)
                case Placed(p) => Commit(old(pf.State()), symbol, need, p)
                case Escaped => old(pf.State()))
      ensures ending.Placed? <==>
              && GoesOut(need, m) && m.reply.Some?
              && var reply := m.reply.value;
                 if m.bracketAllowed then reply.ids == Working && reply.listIdReadable else reply.orderIdPresent
      ensures ending == Escaped <==>
              && GoesOut(need, m) && m.reply.Some? && m.bracketAllowed
              && (m.reply.value.ids == Raises || (m.reply.value.ids == Working && !m.reply.value.listIdReadable))
      ensures ending.Placed? ==> ending.p == Position(0.0, 0.0)
    {
      if m.filters == None {
        pf.ReleaseReservation(symbol, need);
        return Released;
      }
      var f := m.filters.value;
      if need < f.minNotional || m.ask == None {
        pf.ReleaseReservation(symbol, need);
        return Released;
      }
      var s := Size(f, need, m.ask.value);
      if !s.Sized? {
        pf.ReleaseReservation(symbol, need);
        return Released;
      }
      var refusal := PlacementRefusal(f, s, m.bracketAllowed);
      if refusal != None || m.reply == None || (!m.bracketAllowed && !m.reply.value.orderIdPresent) {
        pf.ReleaseReservation(symbol, need);
        return Released;
      }
      var r := m.reply.value;
      if m.bracketAllowed {
        if r.ids == Raises {
          return Escaped;
        }
        if r.ids == NoWorkingOrder {
          pf.ReleaseReservation(symbol, need);
          return Released;
        }
        if !r.listIdReadable {
          return Escaped;
        }
      }
      var p := Position(0.0, 0.0);
      pf.CommitReservation(symbol, need, p);
      return Placed(p);
    }

    /** One whole `execute` on a symbol not yet held, with nothing interleaved: the books afterwards
        either hold the new position and no reservation for it, or are as the gates left them; only an
        unreadable reply to an order that went out leaves the reservation behind. */
    method Execute(symbol: Symbol, free: real, today: Option<int>, m: Market, ghost promises: map<Symbol, real>)
      returns (ok: bool, escaped: bool)
      requires HeldIsPromised(pf.held, promises) && symbol !in promises && pf.settings.size > 0.0
      modifies pf
      ensures ok ==> symbol in pf.positions && pf.positions == old(pf.positions)[symbol := Position(0.0, 0.0)]
      ensures !escaped ==> pf.held == old(pf.held)
      ensures !ok ==> pf.positions == old(pf.positions)
      ensures escaped ==> !ok && HeldIsPromised(pf.held, promises[symbol := old(pf.settings.size)])
    {
      var reserved, need := pf.TryReserve(symbol, free, today);
      if !reserved {
        return false, false;
      }
      HoldIsExact(old(pf.held), promises, symbol, need);
      ghost var mid := pf.held;
      UnholdIsExact(mid, promises[symbol := need], symbol);
      assert Unhold(mid, symbol, need) == old(pf.held) by {
        assert old(pf.held).symbols + {symbol} - {symbol} == old(pf.held).symbols;
        assert promises[symbol := need] - {symbol} == promises;
      }
      var ending := Finish(symbol, need, m);
      return ending.Placed?, ending == Escaped;
    }
  }
}

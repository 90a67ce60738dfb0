/** The portfolio's gates and reservations as functions on values, and what every interleaving keeps. */
module ReservationSpec {
  import opened Prelude

  const MAX_TRADES_PER_DAY := 12
  const MAX_DAILY_LOSS := 0.02
  const ROUND_TRIP_FEE := 0.002
  const MAX_TRADE_SIZE := 500.0
  const POSITIONS_CEILING := 5
  const DAILY_LOSS_LIMIT := "daily loss limit"

  datatype Position = Position(entry: real, filled: real)

  /** `day` is the last UTC day the counters were reset on; an empty text is no halt. */
  datatype Risk = Risk(pnl: real, trades: int, day: Option<int>, autotrade: bool, halt: string, protection: string)

  datatype Settings = Settings(size: real, maxPositions: int)

  /** The slots and the money held for entries in flight. */
  datatype Held = Held(pending: int, usdt: real, symbols: set<Symbol>)

  datatype Ledger = Ledger(positions: map<Symbol, Position>, risk: Risk, settings: Settings, held: Held)

  // ---- the operations ----

  function ResetDaily(r: Risk): Risk {
    r.(pnl := 0.0, trades := 0, halt := if r.halt == DAILY_LOSS_LIMIT then "" else r.halt)
  }

  /** `today` is `None` when the clock cannot be read. */
  function Roll(r: Risk, today: Option<int>): Risk {
    if today.None? || r.day == today then r else ResetDaily(r).(day := today)
  }

  predicate GatesOpen(l: Ledger) {
    l.risk.autotrade && l.risk.halt == "" && l.risk.protection == "" && l.risk.trades < MAX_TRADES_PER_DAY
    && |l.positions| + l.held.pending < l.settings.maxPositions
  }

  function Gated(l: Ledger, today: Option<int>): Ledger {
    var rolled := l.(risk := Roll(l.risk, today));
    if GatesOpen(rolled) && rolled.risk.pnl <= -MAX_DAILY_LOSS
    then rolled.(risk := rolled.risk.(halt := DAILY_LOSS_LIMIT))
    else rolled
  }

  predicate CanOpen(l: Ledger, today: Option<int>) {
    var rolled := l.(risk := Roll(l.risk, today));
    GatesOpen(rolled) && rolled.risk.pnl > -MAX_DAILY_LOSS
  }

  predicate Reserves(l: Ledger, symbol: Symbol, free: real, today: Option<int>) {
    CanOpen(l, today) && symbol !in l.positions && symbol !in l.held.symbols
    && free - l.held.usdt >= l.settings.size
  }

  function Reserve(l: Ledger, symbol: Symbol, free: real, today: Option<int>): Ledger {
    var g := Gated(l, today);
    if Reserves(l, symbol, free, today)
    then g.(held := Held(g.held.pending + 1, g.held.usdt + g.settings.size, g.held.symbols + {symbol}))
    else g
  }

  function Unhold(h: Held, symbol: Symbol, need: real): Held {
    Held(Max(0, h.pending - 1), MaxR(0.0, h.usdt - need), h.symbols - {symbol})
  }

  function Release(l: Ledger, symbol: Symbol, need: real): Ledger {
    l.(held := Unhold(l.held, symbol, need))
  }

  function Commit(l: Ledger, symbol: Symbol, need: real, p: Position): Ledger {
    l.(held := Unhold(l.held, symbol, need), positions := l.positions[symbol := p],
       risk := l.risk.(trades := l.risk.trades + 1))
  }

  /** Net of the round-trip fee; an entry that never filled books nothing. */
  function Pnl(p: Position, exit: real): real {
    if p.entry != 0.0 && p.filled > 0.0 then (exit - p.entry) / p.entry - ROUND_TRIP_FEE else 0.0
  }

  function Close(l: Ledger, symbol: Symbol, exit: real): Ledger {
    if symbol in l.positions
    then l.(positions := l.positions - {symbol}, risk := l.risk.(pnl := l.risk.pnl + Pnl(l.positions[symbol], exit)))
    else l
  }

  function SetAutotrade(r: Risk, on: bool): Risk {
    r.(autotrade := on, halt := if on then "" else r.halt)
  }

  function SetSize(s: Settings, usdt: real): Settings {
    if usdt <= 0.0 || usdt > MAX_TRADE_SIZE then s else s.(size := usdt)
  }

  function SetMax(s: Settings, n: int): Settings {
    if n < 1 || n > POSITIONS_CEILING then s else s.(maxPositions := n)
  }

  // ---- runs ----

  /** How one entry ends: an explicit refusal or failure, a placed order, or an exception that
      `execute` does not catch. */
  datatype Ending = Released | Placed(p: Position) | Escaped

  datatype Event =
    | Ask(today: Option<int>)
    | Signal(symbol: Symbol, free: real, today: Option<int>)
    | End(symbol: Symbol, ending: Ending)
    | Closed(symbol: Symbol, exit: real)
    | Halt(reason: string)
    | Protection(reason: string)
    | Autotrade(on: bool)
    | TradeSize(usdt: real)
    | Slots(n: int)

  /** The ledger beside what the entries in flight were promised. `lost` are the entries whose
      `execute` ended in an escaped exception; `peak` is the largest slot limit so far. */
  datatype World = World(book: Ledger, promises: map<Symbol, real>, lost: set<Symbol>, peak: int)

  predicate EventOk(w: World, e: Event) {
    e.End? ==> e.symbol in w.promises && e.symbol !in w.lost
  }

  function EndOf(w: World, symbol: Symbol, ending: Ending): World
    requires symbol in w.promises
  {
    match ending
    case Released => w.(book := Release(w.book, symbol, w.promises[symbol]), promises := w.promises - {symbol})
    case Placed(p) => w.(book := Commit(w.book, symbol, w.promises[symbol], p), promises := w.promises - {symbol})
    case Escaped => w.(lost := w.lost + {symbol})
  }

  function SignalOf(w: World, symbol: Symbol, free: real, today: Option<int>): World {
    w.(book := Reserve(w.book, symbol, free, today),
       promises := if Reserves(w.book, symbol, free, today)
                   then w.promises[symbol := w.book.settings.size]
                   else w.promises)
  }

  function Step(w: World, e: Event): World
    requires EventOk(w, e)
  {
    match e
    case Ask(today) => w.(book := Gated(w.book, today))
    case Signal(symbol, free, today) => SignalOf(w, symbol, free, today)
    case End(symbol, ending) => EndOf(w, symbol, ending)
    case Closed(symbol, exit) => w.(book := Close(w.book, symbol, exit))
    case Halt(reason) => w.(book := w.book.(risk := w.book.risk.(halt := reason, autotrade := false)))
    case Protection(reason) => w.(book := w.book.(risk := w.book.risk.(protection := reason)))
    case Autotrade(on) => w.(book := w.book.(risk := SetAutotrade(w.book.risk, on)))
    case TradeSize(usdt) => w.(book := w.book.(settings := SetSize(w.book.settings, usdt)))
    case Slots(n) =>
      var s := SetMax(w.book.settings, n);
      w.(book := w.book.(settings := s), peak := Max(w.peak, s.maxPositions))
  }

  ghost predicate RunOk(w: World, events: seq<Event>)
    decreases |events|
  {
    events == [] || (EventOk(w, events[0]) && RunOk(Step(w, events[0]), events[1..]))
  }

  function Run(w: World, events: seq<Event>): World
    requires RunOk(w, events)
    decreases |events|
  {
    if events == [] then w else Run(Step(w, events[0]), events[1..])
  }

  /** A portfolio as loaded at start: nothing in flight. */
  ghost predicate Loaded(l: Ledger) {
    l.held == Held(0, 0.0, {}) && l.settings.size > 0.0
  }

  function Start(l: Ledger): World {
    World(l, map[], {}, l.settings.maxPositions)
  }

  // ---- sums over the promises ----

  ghost function Total(m: map<Symbol, real>): real {
    if m.Keys == {} then 0.0 else var k := Pick(m.Keys); m[k] + Total(m - {k})
  }

  lemma {:induction false} TotalWithout(m: map<Symbol, real>, k: Symbol)
    requires k in m
    ensures Total(m) == m[k] + Total(m - {k})
  {
    var p := Pick(m.Keys);
    if p != k {
      TotalWithout(m - {p}, k);
      TotalWithout(m - {k}, p);
      assert m - {p} - {k} == m - {k} - {p};
    }
  }

  lemma {:induction false} TotalNonNegative(m: map<Symbol, real>)
    requires forall k :: k in m ==> m[k] > 0.0
    ensures Total(m) >= 0.0 && (Total(m) == 0.0 ==> m == map[])
  {
    if m.Keys != {} {
      TotalNonNegative(m - {Pick(m.Keys)});
    }
  }

  lemma TotalWith(m: map<Symbol, real>, k: Symbol, x: real)
    requires k !in m
    ensures Total(m[k := x]) == Total(m) + x
  {
    TotalWithout(m[k := x], k);
    assert m[k := x] - {k} == m;
  }

  lemma SizeWithout<V>(m: map<Symbol, V>, k: Symbol)
    requires k in m
    ensures |m - {k}| == |m| - 1 && (m - {k}).Keys == m.Keys - {k}
  {
    assert (m - {k}).Keys == m.Keys - {k};
    assert |m.Keys - {k}| == |m.Keys| - 1;
  }

  lemma SizeWith<V>(m: map<Symbol, V>, k: Symbol, v: V)
    requires k !in m
    ensures |m[k := v]| == |m| + 1 && m[k := v].Keys == m.Keys + {k}
  {
    assert m[k := v].Keys == m.Keys + {k};
  }

  // ---- the invariant ----

  /** The held slots and money are exactly those promised to the entries in flight. */
  ghost predicate HeldIsPromised(h: Held, promises: map<Symbol, real>) {
    h.symbols == promises.Keys && h.pending == |promises| && h.usdt == Total(promises)
    && (forall k :: k in promises ==> promises[k] > 0.0)
  }

  /** `open0` and `trades0` are the open positions and the day's trades at load. */
  ghost predicate Inv(w: World, open0: int, trades0: int) {
    && HeldIsPromised(w.book.held, w.promises)
    && (forall k :: k in w.promises ==> k !in w.book.positions)
    && w.lost <= w.promises.Keys
    && w.book.settings.size > 0.0 && w.book.settings.maxPositions <= w.peak
    && (w.promises != map[] ==> |w.promises| <= w.peak)
    && |w.book.positions| + w.book.held.pending <= Max(open0, w.peak)
    && w.book.risk.trades + w.book.held.pending <= Max(Max(trades0, 0), MAX_TRADES_PER_DAY - 1 + Max(w.peak, 0))
  }

  /** The clamps of a settlement never bite, and it hands back exactly what was promised. */
  lemma UnholdIsExact(h: Held, promises: map<Symbol, real>, symbol: Symbol)
    requires HeldIsPromised(h, promises) && symbol in promises
    ensures h.pending >= 1 && h.usdt >= promises[symbol]
    ensures HeldIsPromised(Unhold(h, symbol, promises[symbol]), promises - {symbol})
    ensures Unhold(h, symbol, promises[symbol]).pending == h.pending - 1
  {
    TotalWithout(promises, symbol);
    TotalNonNegative(promises - {symbol});
    SizeWithout(promises, symbol);
  }

  lemma EndKeeps(w: World, symbol: Symbol, ending: Ending, open0: int, trades0: int)
    requires Inv(w, open0, trades0) && symbol in w.promises && symbol !in w.lost
    ensures Inv(EndOf(w, symbol, ending), open0, trades0)
  {
    UnholdIsExact(w.book.held, w.promises, symbol);
    SizeWithout(w.promises, symbol);
    match ending
    case Released =>
    case Placed(p) => SizeWith(w.book.positions, symbol, p);
    case Escaped =>
  }

  lemma HoldIsExact(h: Held, promises: map<Symbol, real>, symbol: Symbol, need: real)
    requires HeldIsPromised(h, promises) && symbol !in promises && need > 0.0
    ensures HeldIsPromised(Held(h.pending + 1, h.usdt + need, h.symbols + {symbol}), promises[symbol := need])
  {
    TotalWith(promises, symbol, need);
    SizeWith(promises, symbol, need);
  }

  lemma GatedKeeps(w: World, today: Option<int>, open0: int, trades0: int)
    requires Inv(w, open0, trades0)
    ensures Inv(w.(book := Gated(w.book, today)), open0, trades0)
    ensures CanOpen(w.book, today) ==>
              && Gated(w.book, today).risk.trades < MAX_TRADES_PER_DAY
              && |w.book.positions| + w.book.held.pending < w.book.settings.maxPositions
  {
    assert w.promises == map[] ==> w.book.held.pending == 0;
  }

  lemma SignalKeeps(w: World, symbol: Symbol, free: real, today: Option<int>, open0: int, trades0: int)
    requires Inv(w, open0, trades0)
    ensures Inv(SignalOf(w, symbol, free, today), open0, trades0)
  {
    GatedKeeps(w, today, open0, trades0);
    if Reserves(w.book, symbol, free, today) {
      HoldIsExact(w.book.held, w.promises, symbol, w.book.settings.size);
      SizeWith(w.promises, symbol, w.book.settings.size);
    }
  }

  /** The new promise and all the ones before it fit in the balance the broker reported. */
  lemma PromisesFitTheReportedBalance(
      w: World, symbol: Symbol, free: real, today: Option<int>, open0: int, trades0: int)
    requires Inv(w, open0, trades0) && Reserves(w.book, symbol, free, today)
    ensures symbol !in w.promises && Total(SignalOf(w, symbol, free, today).promises) <= free
  {
    TotalWith(w.promises, symbol, w.book.settings.size);
  }

  lemma RiskKeeps(w: World, r: Risk, open0: int, trades0: int)
    requires Inv(w, open0, trades0) && r.trades == w.book.risk.trades
    ensures Inv(w.(book := w.book.(risk := r)), open0, trades0)
  {
  }

  lemma SettingsKeep(w: World, s: Settings, peak: int, open0: int, trades0: int)
    requires Inv(w, open0, trades0) && s.size > 0.0 && s.maxPositions <= peak && w.peak <= peak
    ensures Inv(w.(book := w.book.(settings := s), peak := peak), open0, trades0)
  {
  }

  lemma CloseKeeps(w: World, symbol: Symbol, exit: real, open0: int, trades0: int)
    requires Inv(w, open0, trades0)
    ensures Inv(w.(book := Close(w.book, symbol, exit)), open0, trades0)
  {
    hide Pnl;
    if symbol in w.book.positions {
      SizeWithout(w.book.positions, symbol);
    }
  }

  lemma StepKeeps(w: World, e: Event, open0: int, trades0: int)
    requires Inv(w, open0, trades0) && EventOk(w, e)
    ensures Inv(Step(w, e), open0, trades0) && w.peak <= Step(w, e).peak
  {
    SizeIsPositive(w, open0, trades0);
    hide Inv, HeldIsPromised, Gated, Close, Reserve, Reserves, Release, Commit;
    match e
    case Ask(today) => GatedKeeps(w, today, open0, trades0);
    case Signal(symbol, free, today) => SignalKeeps(w, symbol, free, today, open0, trades0);
    case End(symbol, ending) => EndKeeps(w, symbol, ending, open0, trades0);
    case Closed(symbol, exit) => CloseKeeps(w, symbol, exit, open0, trades0);
    case Halt(reason) => RiskKeeps(w, w.book.risk.(halt := reason, autotrade := false), open0, trades0);
    case Protection(reason) => RiskKeeps(w, w.book.risk.(protection := reason), open0, trades0);
    case Autotrade(on) => RiskKeeps(w, SetAutotrade(w.book.risk, on), open0, trades0);
    case TradeSize(usdt) => SettingsKeep(w, SetSize(w.book.settings, usdt), w.peak, open0, trades0);
    case Slots(n) =>
      var s := SetMax(w.book.settings, n);
      SettingsKeep(w, s, Max(w.peak, s.maxPositions), open0, trades0);
  }

  lemma SizeIsPositive(w: World, open0: int, trades0: int)
    requires Inv(w, open0, trades0)
    ensures w.book.settings.size > 0.0 && w.book.settings.maxPositions <= w.peak
  {
  }

  lemma {:induction false} RunKeeps(w: World, events: seq<Event>, open0: int, trades0: int)
    requires Inv(w, open0, trades0) && RunOk(w, events)
    ensures Inv(Run(w, events), open0, trades0)
    decreases |events|
  {
    hide Inv, Step, EventOk;
    if events != [] {
      StepKeeps(w, events[0], open0, trades0);
      RunKeeps(Step(w, events[0]), events[1..], open0, trades0);
    }
  }

  /** Whatever signals, endings, closings and settings interleave after a load: the held slots and
      money are those of the entries in flight, no symbol is both open and being opened, and the slot
      limit and the day's trade limit hold up to the entries in flight. */
  lemma ReservationsAreExact(l: Ledger, events: seq<Event>)
    requires Loaded(l) && RunOk(Start(l), events)
    ensures var w := Run(Start(l), events);
            && HeldIsPromised(w.book.held, w.promises) && w.book.held.symbols !! w.book.positions.Keys
            && |w.book.positions| + w.book.held.pending <= Max(|l.positions|, w.peak)
            && w.book.risk.trades + w.book.held.pending
               <= Max(Max(l.risk.trades, 0), MAX_TRADES_PER_DAY - 1 + Max(w.peak, 0))
            && (w.promises == map[] ==> w.book.held == Held(0, 0.0, {}))
  {
    StartHolds(l);
    RunKeeps(Start(l), events, |l.positions|, l.risk.trades);
    hide Run, RunOk;
    InvBounds(Run(Start(l), events), |l.positions|, l.risk.trades);
  }

  lemma StartHolds(l: Ledger)
    requires Loaded(l)
    ensures Inv(Start(l), |l.positions|, l.risk.trades)
  {
  }

  lemma InvBounds(w: World, open0: int, trades0: int)
    requires Inv(w, open0, trades0)
    ensures HeldIsPromised(w.book.held, w.promises) && w.book.held.symbols !! w.book.positions.Keys
    ensures |w.book.positions| + w.book.held.pending <= Max(open0, w.peak) && w.book.held.pending >= 0
    ensures w.book.risk.trades + w.book.held.pending
            <= Max(Max(trades0, 0), MAX_TRADES_PER_DAY - 1 + Max(w.peak, 0))
    ensures w.promises == map[] ==> w.book.held == Held(0, 0.0, {})
  {
  }

  /** What closing books is the return on the entry price, net of the round-trip fee. */
  lemma CloseBooksTheNetReturn(l: Ledger, symbol: Symbol, exit: real)
    requires symbol in l.positions && l.positions[symbol].entry > 0.0 && l.positions[symbol].filled > 0.0
    ensures var booked := Close(l, symbol, exit).risk.pnl - l.risk.pnl;
            l.positions[symbol].entry * (1.0 + booked + ROUND_TRIP_FEE) == exit
  {
    var entry := l.positions[symbol].entry;
    var r := (exit - entry) / entry;
    assert entry * r == exit - entry;
    assert Close(l, symbol, exit).risk.pnl - l.risk.pnl == r - ROUND_TRIP_FEE;
    Distribute(entry, r);
  }

  lemma Distribute(x: real, r: real)
    ensures x * (1.0 + r) == x + x * r
  {
  }

  // ---- the day ----

  /** The clock tells of a day other than the one the counters belong to. */
  predicate NewDay(r: Risk, today: Option<int>) {
    today.Some? && r.day != today
  }

  /** A new day starts both counters over, lifts a daily-loss halt and no other, and is remembered; on the
      same day, or when the clock cannot be read, nothing changes. */
  lemma DayRolls(r: Risk, today: Option<int>)
    ensures var after := Roll(r, today);
            if NewDay(r, today) then
              && after.day == today && after.trades == 0 && after.pnl == 0.0
              && after.halt == (if r.halt == "daily loss limit" then "" else r.halt)
              && after.autotrade == r.autotrade && after.protection == r.protection
            else after == r
    ensures Roll(Roll(r, today), today) == Roll(r, today)
  {
  }

  /** An entry may be opened: on, not halted, not latched, and with trades, slots and loss to spare, where
      a new day forgets the day's trades, loss and loss halt. */
  ghost predicate MayOpen(l: Ledger, today: Option<int>) {
    var fresh_ := NewDay(l.risk, today);
    && l.risk.autotrade && l.risk.protection == ""
    && (l.risk.halt == "" || (fresh_ && l.risk.halt == "daily loss limit"))
    && (fresh_ || (l.risk.trades < 12 && l.risk.pnl > -0.02))
    && |l.positions| + l.held.pending < l.settings.maxPositions
  }

  /** The gates, in terms of the fields before the call and the new day. */
  lemma OpensExactlyWhen(l: Ledger, today: Option<int>)
    ensures CanOpen(l, today) <==> MayOpen(l, today)
  {
    DayRolls(l.risk, today);
    hide Roll;
  }

  /** A signal is taken exactly when the gates are open, its symbol is neither open nor being opened, and
      the balance less what is promised covers the trade size. */
  lemma ReservesExactlyWhen(l: Ledger, symbol: Symbol, free: real, today: Option<int>)
    ensures Reserves(l, symbol, free, today) <==>
            && MayOpen(l, today) && symbol !in l.positions && symbol !in l.held.symbols
            && l.held.usdt + l.settings.size <= free
  {
    OpensExactlyWhen(l, today);
    hide CanOpen, MayOpen;
  }

  /** What a signal leaves besides: the new day, and a loss halt when the loss alone was in the way. */
  lemma SignalLeaves(l: Ledger, symbol: Symbol, free: real, today: Option<int>)
    ensures var after := Reserve(l, symbol, free, today);
            && after.positions == l.positions && after.settings == l.settings
            && (Reserves(l, symbol, free, today) ==>
                  && after.held.pending == l.held.pending + 1 && after.held.usdt == l.held.usdt + l.settings.size
                  && after.held.symbols == l.held.symbols + {symbol} && after.risk == Roll(l.risk, today))
            && (!Reserves(l, symbol, free, today) ==> after.held == l.held)
            && (!NewDay(l.risk, today) ==>
                  var lost := l.risk.pnl <= -0.02 && MayOpen(l.(risk := l.risk.(pnl := 0.0)), today);
                  after.risk == l.risk.(halt := if lost then "daily loss limit" else l.risk.halt))
            && (NewDay(l.risk, today) ==> after.risk == Roll(l.risk, today))
  {
    DayRolls(l.risk, today);
    hide Roll;
  }

  /** What the day's counter is about: the day of the counters, and the entries placed on it. */
  datatype Tally = Tally(day: Option<int>, placed: int)

  function Counted(t: Tally, e: Event): Tally {
    match e
    case Ask(today) => if today.Some? && t.day != today then Tally(today, 0) else t
    case Signal(_, _, today) => if today.Some? && t.day != today then Tally(today, 0) else t
    case End(_, Placed(_)) => t.(placed := t.placed + 1)
    case _ => t
  }

  /** The entries placed since the last change of day, read off the events. */
  function PlacedToday(t: Tally, events: seq<Event>): Tally
    decreases |events|
  {
    if events == [] then t else PlacedToday(Counted(t, events[0]), events[1..])
  }

  lemma StepCounts(w: World, e: Event)
    requires EventOk(w, e)
    ensures var risk := Step(w, e).book.risk;
            Tally(risk.day, risk.trades) == Counted(Tally(w.book.risk.day, w.book.risk.trades), e)
  {
    match e
    case Ask(today) => DayRolls(w.book.risk, today);
    case Signal(symbol, free, today) => DayRolls(w.book.risk, today);
    case _ =>
  }

  /** Over every run the day's counter is the number of entries placed since the last change of day. */
  lemma {:induction false} TradesArePlacedToday(w: World, events: seq<Event>)
    requires RunOk(w, events)
    ensures var risk := Run(w, events).book.risk;
            Tally(risk.day, risk.trades) == PlacedToday(Tally(w.book.risk.day, w.book.risk.trades), events)
    decreases |events|
  {
    if events != [] {
      StepCounts(w, events[0]);
      hide Step, EventOk, Counted;
      TradesArePlacedToday(Step(w, events[0]), events[1..]);
    }
  }

  // ---- what an escaped exception costs ----

  lemma StepKeepsLosses(w: World, e: Event, symbol: Symbol, open0: int, trades0: int)
    requires Inv(w, open0, trades0) && EventOk(w, e) && symbol in w.lost
    ensures symbol in Step(w, e).lost && symbol in Step(w, e).promises
  {
  }

  /** A reservation whose `execute` let an exception escape is never given back: for the rest of the
      run its symbol is refused and its slot and money stay held. */
  lemma {:induction false} LossIsPermanent(w: World, events: seq<Event>, symbol: Symbol, open0: int, trades0: int)
    requires Inv(w, open0, trades0) && RunOk(w, events) && symbol in w.lost
    ensures var after := Run(w, events);
            && symbol in after.lost && symbol in after.book.held.symbols
            && after.book.held.pending >= 1 && after.book.held.usdt > 0.0
            && forall free: real, today :: !Reserves(after.book, symbol, free, today)
    decreases |events|
  {
    hide Step, EventOk;
    if events == [] {
      UnholdIsExact(w.book.held, w.promises, symbol);
    } else {
      StepKeeps(w, events[0], open0, trades0);
      StepKeepsLosses(w, events[0], symbol, open0, trades0);
      LossIsPermanent(Step(w, events[0]), events[1..], symbol, open0, trades0);
    }
  }

  // ---- the daily limit ----

  /** A ledger on which two signals pass at eleven trades. */
  function TwoSlotsAtEleven(): Ledger {
    Ledger(map[], Risk(0.0, 11, Some(1), true, "", ""), Settings(100.0, 2), Held(0, 0.0, {}))
  }

  function TwoAtOnce(a: Symbol, b: Symbol, p: Position): seq<Event> {
    [Signal(a, 500.0, Some(1)), Signal(b, 500.0, Some(1)), End(a, Placed(p)), End(b, Placed(p))]
  }

  /** The day's limit counts placed entries only, so entries in flight together overshoot it. */
  lemma DailyLimitCanBeOvershot(a: Symbol, b: Symbol, p: Position)
    requires a != b
    ensures var w := Start(TwoSlotsAtEleven());
            && RunOk(w, TwoAtOnce(a, b, p)) && Run(w, TwoAtOnce(a, b, p)).book.risk.trades == MAX_TRADES_PER_DAY + 1
            && Run(w, TwoAtOnce(a, b, p)).peak == 2
  {
    var w0 := Start(TwoSlotsAtEleven());
    var w1 := Step(w0, Signal(a, 500.0, Some(1)));
    assert w1.promises == map[a := 100.0] && w1.book.held == Held(1, 100.0, {a}) && w1.peak == 2;
    var w2 := Step(w1, Signal(b, 500.0, Some(1)));
    assert a in w2.promises && b in w2.promises && w2.lost == {} && w2.book.risk.trades == 11 && w2.peak == 2;
    hide Reserve, Reserves, Gated, CanOpen;
    var w3 := Step(w2, End(a, Placed(p)));
    var w4 := Step(w3, End(b, Placed(p)));
    assert w4.book.risk.trades == 13 && w4.peak == 2;
    FourSteps(w0, Signal(a, 500.0, Some(1)), Signal(b, 500.0, Some(1)), End(a, Placed(p)), End(b, Placed(p)));
  }

  /** The limit holds over every run that never has more than `p` slots exactly when `p` is at most one. */
  lemma DailyLimitHoldsIffOneSlot(p: int, a: Symbol, b: Symbol)
    requires a != b
    ensures (forall l, events {:trigger RunOk(Start(l), events)} ::
               Loaded(l) && l.risk.trades <= MAX_TRADES_PER_DAY && RunOk(Start(l), events)
               && Run(Start(l), events).peak <= p ==>
                 Run(Start(l), events).book.risk.trades <= MAX_TRADES_PER_DAY)
            <==> p <= 1
  {
    hide Run, RunOk, Start, Loaded;
    if p <= 1 {
      forall l, events {:trigger RunOk(Start(l), events)} |
        Loaded(l) && l.risk.trades <= MAX_TRADES_PER_DAY && RunOk(Start(l), events) && Run(Start(l), events).peak <= p
        ensures Run(Start(l), events).book.risk.trades <= MAX_TRADES_PER_DAY
      {
        OneSlotKeepsTheDailyLimit(l, events);
      }
    } else {
      var q := Position(0.0, 0.0);
      DailyLimitCanBeOvershot(a, b, q);
      EleventhIsLoaded();
      assert RunOk(Start(TwoSlotsAtEleven()), TwoAtOnce(a, b, q));
    }
  }

  lemma EleventhIsLoaded()
    ensures Loaded(TwoSlotsAtEleven()) && TwoSlotsAtEleven().risk.trades <= MAX_TRADES_PER_DAY
  {
  }

  lemma OneSlotKeepsTheDailyLimit(l: Ledger, events: seq<Event>)
    requires Loaded(l) && l.risk.trades <= MAX_TRADES_PER_DAY && RunOk(Start(l), events)
    requires Run(Start(l), events).peak <= 1
    ensures Run(Start(l), events).book.risk.trades <= MAX_TRADES_PER_DAY
  {
    StartHolds(l);
    RunKeeps(Start(l), events, |l.positions|, l.risk.trades);
    hide Run, RunOk, HeldIsPromised;
    InvBounds(Run(Start(l), events), |l.positions|, l.risk.trades);
  }

  // ---- one entry inside a run ----

  /** No event of the run ends the entry of this symbol. */
  ghost predicate LeavesOpen(events: seq<Event>, symbol: Symbol) {
    forall i :: 0 <= i < |events| ==> !(events[i].End? && events[i].symbol == symbol)
  }

  lemma StepKeepsPromise(w: World, e: Event, symbol: Symbol, open0: int, trades0: int)
    requires Inv(w, open0, trades0) && EventOk(w, e) && symbol in w.promises && !(e.End? && e.symbol == symbol)
    ensures symbol in Step(w, e).promises && Step(w, e).promises[symbol] == w.promises[symbol]
    ensures symbol in Step(w, e).lost <==> symbol in w.lost
  {
  }

  /** Whatever happens between the two lock sections of an entry, changes of the trade size included,
      what it was promised stays its own. */
  lemma {:induction false} PromiseSurvives(w: World, events: seq<Event>, symbol: Symbol, open0: int, trades0: int)
    requires Inv(w, open0, trades0) && RunOk(w, events) && LeavesOpen(events, symbol) && symbol in w.promises
    ensures var after := Run(w, events);
            && symbol in after.promises && after.promises[symbol] == w.promises[symbol]
            && (symbol in after.lost <==> symbol in w.lost)
    decreases |events|
  {
    if events != [] {
      StepKeepsPromise(w, events[0], symbol, open0, trades0);
      StepKeeps(w, events[0], open0, trades0);
      hide Inv, Step, EventOk;
      PromiseSurvives(Step(w, events[0]), events[1..], symbol, open0, trades0);
    }
  }

  /** An entry interleaved with any other activity: the signal reserves the trade size of that moment,
      and its explicit ending hands back exactly that, one slot and the symbol, whatever ran between. */
  lemma InterleavedEntrySettlesExactly(
      w: World, symbol: Symbol, free: real, today: Option<int>, events: seq<Event>, ending: Ending, open0: int,
      trades0: int)
    requires Inv(w, open0, trades0) && Reserves(w.book, symbol, free, today)
    requires RunOk(SignalOf(w, symbol, free, today), events) && LeavesOpen(events, symbol) && ending != Escaped
    ensures var before := Run(SignalOf(w, symbol, free, today), events);
            && symbol in before.promises && symbol !in before.lost && symbol !in before.book.positions
            && before.promises[symbol] == w.book.settings.size
            && var after := EndOf(before, symbol, ending);
               && after.book.held.pending == before.book.held.pending - 1
               && after.book.held.usdt == before.book.held.usdt - w.book.settings.size
               && after.book.held.symbols == before.book.held.symbols - {symbol}
               && after.promises == before.promises - {symbol}
               && (symbol in after.book.positions <==> ending.Placed?)
               && Inv(after, open0, trades0)
  {
    SignalKeeps(w, symbol, free, today, open0, trades0);
    var start := SignalOf(w, symbol, free, today);
    assert symbol in start.promises && start.promises[symbol] == w.book.settings.size && symbol !in start.lost;
    PromiseSurvives(start, events, symbol, open0, trades0);
    RunKeeps(start, events, open0, trades0);
    hide Run, RunOk, SignalOf;
    EndGivesBack(Run(start, events), symbol, ending, open0, trades0);
  }

  lemma EndGivesBack(w: World, symbol: Symbol, ending: Ending, open0: int, trades0: int)
    requires Inv(w, open0, trades0) && symbol in w.promises && symbol !in w.lost && ending != Escaped
    ensures symbol !in w.book.positions
    ensures var after := EndOf(w, symbol, ending);
            && after.book.held.pending == w.book.held.pending - 1
            && after.book.held.usdt == w.book.held.usdt - w.promises[symbol]
            && after.book.held.symbols == w.book.held.symbols - {symbol}
            && after.promises == w.promises - {symbol}
            && (symbol in after.book.positions <==> ending.Placed?)
            && Inv(after, open0, trades0)
  {
    UnholdIsExact(w.book.held, w.promises, symbol);
    EndKeeps(w, symbol, ending, open0, trades0);
  }

  // ---- running four events ----

  lemma FourSteps(w: World, e1: Event, e2: Event, e3: Event, e4: Event)
    requires EventOk(w, e1) && EventOk(Step(w, e1), e2) && EventOk(Step(Step(w, e1), e2), e3)
    requires EventOk(Step(Step(Step(w, e1), e2), e3), e4)
    ensures RunOk(w, [e1, e2, e3, e4])
    ensures Run(w, [e1, e2, e3, e4]) == Step(Step(Step(Step(w, e1), e2), e3), e4)
  {
    hide Step, EventOk;
    var w1 := Step(w, e1);
    var w2 := Step(w1, e2);
    var w3 := Step(w2, e3);
    var w4 := Step(w3, e4);
    assert [e1, e2, e3, e4][1..] == [e2, e3, e4] && [e2, e3, e4][1..] == [e3, e4] && [e3, e4][1..] == [e4];
    assert RunOk(w4, []) && Run(w4, []) == w4;
    assert [e4][1..] == [] && RunOk(w3, [e4]) && Run(w3, [e4]) == w4;
    assert RunOk(w2, [e3, e4]) && Run(w2, [e3, e4]) == w4;
    assert RunOk(w1, [e2, e3, e4]) && Run(w1, [e2, e3, e4]) == w4;
  }
}

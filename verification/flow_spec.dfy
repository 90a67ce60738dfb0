/** Windowed trade flow of one symbol: one-second buckets against the full trade history. */
module FlowSpec {
  import opened Prelude

  datatype Bucket = Bucket(second: int, totals: Totals)

  datatype Totals = Totals(buy: real, sell: real, count: nat)

  const NOTHING := Totals(0.0, 0.0, 0)

  function Add(x: Totals, y: Totals): Totals {
    Totals(x.buy + y.buy, x.sell + y.sell, x.count + y.count)
  }

  /** An accepted aggregate trade. `maker` means the aggressive side sold. */
  datatype Trade = Trade(id: nat, eventMs: nat, maker: bool, quote: real, mono: Instant, wall: real)

  function TotalsOf(t: Trade): Totals {
    if t.maker then Totals(0.0, t.quote, 1) else Totals(t.quote, 0.0, 1)
  }

  function Signed(t: Trade): real {
    if t.maker then -t.quote else t.quote
  }

  datatype Flow = Flow(
    buckets: seq<Bucket>, lastId: Option<nat>, lastEventMs: Option<nat>,
    lastMono: Option<real>, cvd: real, startedWall: Option<real>)

  const NEW_FLOW := Flow([], None, None, None, 0.0, None)

  /** A trade message as it arrives; `Unreadable` stands for missing or mistyped fields. */
  datatype RawTrade = Unreadable | RawTrade(id: int, eventMs: int, maker: bool, price: real, quantity: real)

  datatype Verdict = Malformed | Duplicate | OutOfOrder | Accepted

  function Parse(raw: RawTrade, mono: Instant, wall: real, maxLagMs: int): Option<Trade> {
    if !raw.RawTrade? || raw.id < 0 || raw.eventMs < 1 || raw.price <= 0.0 || raw.quantity <= 0.0 then None
    else
      var ageMs := wall * 1000.0 - raw.eventMs as real;
      if ageMs < -5000.0 || ageMs > maxLagMs as real then None
      else Some(Trade(raw.id, raw.eventMs, raw.maker, raw.price * raw.quantity, mono, wall))
  }

  function Judge(f: Flow, t: Trade): Verdict {
    if f.lastId.Some? && t.id <= f.lastId.value then
      if t.id == f.lastId.value then Duplicate else OutOfOrder
    else if f.lastEventMs.Some? && t.eventMs < f.lastEventMs.value then OutOfOrder
    else Accepted
  }

  /** Drops the buckets of more than 65 whole seconds ago from the front. */
  function Purge(buckets: seq<Bucket>, now: Instant): seq<Bucket> {
    if buckets != [] && buckets[0].second < now.Floor - 65 then Purge(buckets[1..], now) else buckets
  }

  /** The trade goes into the bucket of its receive second. */
  function Deposit(buckets: seq<Bucket>, t: Trade): seq<Bucket> {
    var second := t.mono.Floor;
    if buckets == [] || buckets[|buckets| - 1].second != second then buckets + [Bucket(second, TotalsOf(t))]
    else buckets[..|buckets| - 1] + [Bucket(second, Add(buckets[|buckets| - 1].totals, TotalsOf(t)))]
  }

  predicate Gap(f: Flow, t: Trade) {
    f.lastId.Some? && t.id != f.lastId.value + 1
  }

  function Accept(f: Flow, t: Trade): Flow {
    var base := if Gap(f, t) then f.(buckets := [], cvd := 0.0, startedWall := None) else f;
    Flow(Deposit(Purge(base.buckets, t.mono), t), Some(t.id), Some(t.eventMs), Some(t.mono),
         base.cvd + Signed(t), if base.startedWall.None? then Some(t.wall) else base.startedWall)
  }

  /** Sum over the buckets whose second is kept. */
  function Window(buckets: seq<Bucket>, keep: int -> bool): Totals {
    if buckets == [] then NOTHING else
      var last := buckets[|buckets| - 1];
      Add(Window(buckets[..|buckets| - 1], keep), if keep(last.second) then last.totals else NOTHING)
  }

  /** The reference: sum over every single trade whose receive second is kept. */
  function Naive(trades: seq<Trade>, keep: int -> bool): Totals {
    if trades == [] then NOTHING else
      var last := trades[|trades| - 1];
      Add(Naive(trades[..|trades| - 1], keep), if keep(last.mono.Floor) then TotalsOf(last) else NOTHING)
  }

  function SignedSum(trades: seq<Trade>): real {
    if trades == [] then 0.0 else SignedSum(trades[..|trades| - 1]) + Signed(trades[|trades| - 1])
  }

  /** `_window`: seconds not older than `seconds`. */
  function Since(now: Instant, seconds: nat): int -> bool {
    second => second as real >= now - seconds as real
  }

  /** `_range_count`: seconds whose age is at least `newer` and below `older`. */
  function Between(now: Instant, newer: nat, older: nat): int -> bool {
    second => newer as real <= now - second as real < older as real
  }

  /** `round` of the standard library: to the nearest integer, ties to even. */
  function Round(x: real): int {
    var low := x.Floor;
    if x - low as real < 0.5 || (x - low as real == 0.5 && low % 2 == 0) then low else low + 1
  }

  predicate FlowFresh(f: Flow, now: Instant, wall: real, maxAgeMs: int) {
    && f.lastMono.Some? && Max(0, Round((now - f.lastMono.value) * 1000.0)) <= maxAgeMs
    && f.startedWall.Some? && wall - f.startedWall.value >= 60.0
    && f.lastEventMs.Some? && -1000.0 <= wall * 1000.0 - f.lastEventMs.value as real <= maxAgeMs as real
  }

  // ---- the history the buckets stand for ----

  /** A flow state with every trade it ever accepted; the current gap-free run starts at `runAt`. */
  datatype Tracked = Tracked(flow: Flow, all: seq<Trade>, runAt: nat)

  const FIRST := Tracked(NEW_FLOW, [], 0)

  function CurrentRun(tr: Tracked): seq<Trade>
    requires tr.runAt <= |tr.all|
  {
    tr.all[tr.runAt..]
  }

  datatype Event =
    | TradeArrives(raw: RawTrade, mono: Instant, wall: real)
    | SnapshotTaken(now: Instant)
    | ConnectionReset

  function EventTime(e: Event): Option<Instant> {
    match e
    case TradeArrives(_, mono, _) => Some(mono)
    case SnapshotTaken(now) => Some(now)
    case ConnectionReset => None
  }

  function Step(tr: Tracked, e: Event, maxLagMs: int): Tracked {
    match e
    case TradeArrives(raw, mono, wall) =>
      var parsed := Parse(raw, mono, wall, maxLagMs);
      if parsed.Some? && Judge(tr.flow, parsed.value).Accepted? then
        Tracked(Accept(tr.flow, parsed.value), tr.all + [parsed.value],
                if Gap(tr.flow, parsed.value) then |tr.all| else tr.runAt)
      else tr
    case SnapshotTaken(now) => tr.(flow := tr.flow.(buckets := Purge(tr.flow.buckets, now)))
    case ConnectionReset => FIRST
  }

  function Run(events: seq<Event>, maxLagMs: int): Tracked {
    if events == [] then FIRST
    else Step(Run(events[..|events| - 1], maxLagMs), events[|events| - 1], maxLagMs)
  }

  /** Receive times and snapshot times never go back, and none of them is after `now`. */
  ghost predicate TimesOk(events: seq<Event>, now: Instant) {
    && (forall i :: 0 <= i < |events| && EventTime(events[i]).Some? ==> EventTime(events[i]).value <= now)
    && (forall i, j :: 0 <= i < j < |events| && EventTime(events[i]).Some? && EventTime(events[j]).Some? ==>
          EventTime(events[i]).value <= EventTime(events[j]).value)
  }

  /** Nothing older than the purge horizon of `now` is selected. */
  ghost predicate Recent(keep: int -> bool, now: Instant) {
    forall s :: s < now.Floor - 65 ==> !keep(s)
  }

  ghost predicate Consecutive(trades: seq<Trade>) {
    forall k :: 0 <= k < |trades| ==> trades[k].id == trades[0].id + k
  }

  ghost predicate BucketsOrdered(buckets: seq<Bucket>, now: Instant) {
    && (forall i, j :: 0 <= i < j < |buckets| ==> buckets[i].second < buckets[j].second)
    && (forall i :: 0 <= i < |buckets| ==> buckets[i].second <= now.Floor)
    && (buckets != [] ==> buckets[|buckets| - 1].second - buckets[0].second <= 65)
  }

  /** Any selection of recent seconds reads the same from the buckets as from the trades. */
  ghost predicate BucketsMatch(buckets: seq<Bucket>, run: seq<Trade>, now: Instant) {
    && BucketsOrdered(buckets, now)
    && forall keep {:trigger Window(buckets, keep)} :: Recent(keep, now) ==> Window(buckets, keep) == Naive(run, keep)
  }

  /** The session fields describe exactly the trades of the current run. */
  ghost predicate SessionMatches(flow: Flow, run: seq<Trade>) {
    && Consecutive(run)
    && flow.cvd == SignedSum(run)
    && flow.lastId == (if run == [] then None else Some(run[|run| - 1].id))
    && flow.lastMono == (if run == [] then None else Some(run[|run| - 1].mono))
    && flow.startedWall == (if run == [] then None else Some(run[0].wall))
  }

  ghost predicate TimesAscend(trades: seq<Trade>, now: Instant) {
    forall i, j :: 0 <= i <= j < |trades| ==> trades[i].mono <= trades[j].mono <= now
  }

  ghost predicate Inv(tr: Tracked, now: Instant) {
    && tr.runAt <= |tr.all|
    && (CurrentRun(tr) == [] <==> tr.all == [])
    && TimesAscend(tr.all, now)
    && SessionMatches(tr.flow, CurrentRun(tr))
    && BucketsMatch(tr.flow.buckets, CurrentRun(tr), now)
  }

  // ---- buckets ----

  lemma WindowOfAppend(front: seq<Bucket>, last: Bucket, keep: int -> bool)
    ensures Window(front + [last], keep) == Add(Window(front, keep), if keep(last.second) then last.totals else NOTHING)
  {
    assert (front + [last])[..|front|] == front;
  }

  lemma NoBuckets(keep: int -> bool)
    ensures Window([], keep) == NOTHING
  {
  }

  lemma {:induction false} DropFrontWindow(first: Bucket, rest: seq<Bucket>, keep: int -> bool)
    requires !keep(first.second)
    ensures Window([first] + rest, keep) == Window(rest, keep)
  {
    if rest == [] {
      WindowOfAppend(rest, first, keep);
      AppendNothing(first, rest);
    } else {
      var front, last := rest[..|rest| - 1], rest[|rest| - 1];
      DropFrontWindow(first, front, keep);
      ConsSnoc(first, rest);
      WindowOfAppend([first] + front, last, keep);
    }
  }

  lemma {:induction false} PurgeKeepsWindow(buckets: seq<Bucket>, now: Instant, keep: int -> bool)
    requires Recent(keep, now)
    ensures Window(Purge(buckets, now), keep) == Window(buckets, keep)
  {
    if buckets != [] && buckets[0].second < now.Floor - 65 {
      DropFrontWindow(buckets[0], buckets[1..], keep);
      ConsTail(buckets);
      PurgeKeepsWindow(buckets[1..], now, keep);
    }
  }

  lemma {:induction false} PurgeKeepsOrder(buckets: seq<Bucket>, now: Instant)
    requires BucketsOrdered(buckets, now)
    ensures BucketsOrdered(Purge(buckets, now), now)
    ensures Purge(buckets, now) != [] ==> Purge(buckets, now)[0].second >= now.Floor - 65
  {
    if buckets != [] && buckets[0].second < now.Floor - 65 {
      PurgeKeepsOrder(buckets[1..], now);
    }
  }

  lemma DepositAddsTrade(buckets: seq<Bucket>, t: Trade, keep: int -> bool)
    ensures Window(Deposit(buckets, t), keep) ==
            Add(Window(buckets, keep), if keep(t.mono.Floor) then TotalsOf(t) else NOTHING)
  {
    var after := Deposit(buckets, t);
    if buckets == [] || buckets[|buckets| - 1].second != t.mono.Floor {
      assert after[..|after| - 1] == buckets;
    } else {
      assert after[..|after| - 1] == buckets[..|buckets| - 1];
    }
  }

  lemma DepositKeepsOrder(buckets: seq<Bucket>, t: Trade)
    requires BucketsOrdered(buckets, t.mono) && (buckets != [] ==> buckets[0].second >= t.mono.Floor - 65)
    ensures BucketsOrdered(Deposit(buckets, t), t.mono)
  {
  }

  /** Strictly increasing seconds within 65 of each other: never more than 66 buckets. */
  lemma {:induction false} OrderedIsBounded(buckets: seq<Bucket>, now: Instant)
    requires BucketsOrdered(buckets, now)
    ensures |buckets| <= 66
  {
    if buckets != [] {
      SecondsSpread(buckets, now, |buckets| - 1);
    }
  }

  lemma {:induction false} SecondsSpread(buckets: seq<Bucket>, now: Instant, k: nat)
    requires BucketsOrdered(buckets, now) && k < |buckets|
    ensures buckets[k].second >= buckets[0].second + k
  {
    if k > 0 {
      SecondsSpread(buckets, now, k - 1);
    }
  }

  // ---- every event keeps the correspondence ----

  lemma AcceptTotals(buckets: seq<Bucket>, run: seq<Trade>, t: Trade, now: Instant, keep: int -> bool)
    requires now <= t.mono && Recent(keep, t.mono)
    requires Window(buckets, keep) == Naive(run, keep)
    ensures Window(Deposit(Purge(buckets, t.mono), t), keep) == Naive(run + [t], keep)
  {
    PurgeKeepsWindow(buckets, t.mono, keep);
    DepositAddsTrade(Purge(buckets, t.mono), t, keep);
    assert (run + [t])[..|run|] == run;
  }

  lemma OrderLater(buckets: seq<Bucket>, now: Instant, later: Instant)
    requires BucketsOrdered(buckets, now) && now <= later
    ensures BucketsOrdered(buckets, later)
  {
    assert now.Floor <= later.Floor;
  }

  lemma RecentLater(keep: int -> bool, now: Instant, later: Instant)
    requires Recent(keep, later) && now <= later
    ensures Recent(keep, now)
  {
    assert now.Floor <= later.Floor;
  }

  lemma MatchLater(buckets: seq<Bucket>, run: seq<Trade>, now: Instant, later: Instant)
    requires BucketsMatch(buckets, run, now) && now <= later
    ensures BucketsMatch(buckets, run, later)
  {
    OrderLater(buckets, now, later);
    forall keep {:trigger Window(buckets, keep)} | Recent(keep, later)
      ensures Window(buckets, keep) == Naive(run, keep)
    {
      RecentLater(keep, now, later);
    }
  }

  lemma InvLater(tr: Tracked, now: Instant, later: Instant)
    requires Inv(tr, now) && now <= later
    ensures Inv(tr, later)
  {
    MatchLater(tr.flow.buckets, CurrentRun(tr), now, later);
  }

  lemma AcceptKeepsBuckets(buckets: seq<Bucket>, run: seq<Trade>, t: Trade, now: Instant)
    requires BucketsMatch(buckets, run, now) && now <= t.mono
    ensures BucketsMatch(Deposit(Purge(buckets, t.mono), t), run + [t], t.mono)
  {
    OrderLater(buckets, now, t.mono);
    PurgeKeepsOrder(buckets, t.mono);
    DepositKeepsOrder(Purge(buckets, t.mono), t);
    var after := Deposit(Purge(buckets, t.mono), t);
    forall keep {:trigger Window(after, keep)} | Recent(keep, t.mono)
      ensures Window(after, keep) == Naive(run + [t], keep)
    {
      RecentLater(keep, now, t.mono);
      AcceptTotals(buckets, run, t, now, keep);
    }
  }

  lemma AcceptKeepsSession(f: Flow, run: seq<Trade>, t: Trade)
    requires SessionMatches(f, run) && Judge(f, t).Accepted?
    ensures SessionMatches(Accept(f, t), (if Gap(f, t) then [] else run) + [t])
  {
    var kept := if Gap(f, t) then [] else run;
    var run' := kept + [t];
    assert run'[..|kept|] == kept;
    forall k | 0 <= k < |run'| ensures run'[k].id == run'[0].id + k {
      if k < |kept| {
        assert kept[k].id == kept[0].id + k;
      } else if kept != [] {
        assert kept[|kept| - 1].id == kept[0].id + (|kept| - 1);
      }
    }
  }

  lemma AscendAppend(trades: seq<Trade>, t: Trade, now: Instant)
    requires TimesAscend(trades, now) && now <= t.mono
    ensures TimesAscend(trades + [t], t.mono)
  {
  }

  /** The buckets and the run that survive the gap check. */
  lemma GapKeepsBuckets(tr: Tracked, t: Trade, now: Instant)
    requires Inv(tr, now)
    ensures BucketsMatch(if Gap(tr.flow, t) then [] else tr.flow.buckets,
                         if Gap(tr.flow, t) then [] else CurrentRun(tr), now)
  {
  }

  lemma AcceptKeeps(tr: Tracked, t: Trade, now: Instant)
    requires Inv(tr, now) && now <= t.mono && Judge(tr.flow, t).Accepted?
    ensures Inv(Tracked(Accept(tr.flow, t), tr.all + [t], if Gap(tr.flow, t) then |tr.all| else tr.runAt), t.mono)
  {
    var gap := Gap(tr.flow, t);
    var all := tr.all + [t];
    var run, buckets := if gap then [] else CurrentRun(tr), if gap then [] else tr.flow.buckets;
    AscendAppend(tr.all, t, now);
    AcceptKeepsSession(tr.flow, CurrentRun(tr), t);
    GapKeepsBuckets(tr, t, now);
    AcceptKeepsBuckets(buckets, run, t, now);
    Assemble(Accept(tr.flow, t), all, if gap then |tr.all| else tr.runAt, run + [t], t.mono);
  }

  lemma Assemble(flow: Flow, all: seq<Trade>, runAt: nat, run: seq<Trade>, now: Instant)
    requires runAt <= |all| && run == all[runAt..] && run != []
    requires TimesAscend(all, now) && SessionMatches(flow, run) && BucketsMatch(flow.buckets, run, now)
    ensures Inv(Tracked(flow, all, runAt), now)
  {
  }

  lemma PurgeKeepsMatch(buckets: seq<Bucket>, run: seq<Trade>, now: Instant)
    requires BucketsMatch(buckets, run, now)
    ensures BucketsMatch(Purge(buckets, now), run, now)
  {
    hide Purge, Naive, Window, BucketsOrdered;
    PurgeKeepsOrder(buckets, now);
    var after := Purge(buckets, now);
    forall keep {:trigger Window(after, keep)} | Recent(keep, now) ensures Window(after, keep) == Naive(run, keep) {
      PurgeKeepsWindow(buckets, now, keep);
    }
  }

  lemma SessionIgnoresBuckets(flow: Flow, buckets: seq<Bucket>, run: seq<Trade>)
    requires SessionMatches(flow, run)
    ensures SessionMatches(flow.(buckets := buckets), run)
  {
    hide Consecutive, SignedSum;
  }

  lemma PurgeKeeps(tr: Tracked, now: Instant)
    requires Inv(tr, now)
    ensures Inv(tr.(flow := tr.flow.(buckets := Purge(tr.flow.buckets, now))), now)
  {
    hide Purge, BucketsMatch, TimesAscend, SessionMatches;
    PurgeKeepsMatch(tr.flow.buckets, CurrentRun(tr), now);
    SessionIgnoresBuckets(tr.flow, Purge(tr.flow.buckets, now), CurrentRun(tr));
  }

  lemma StepKeeps(tr: Tracked, e: Event, maxLagMs: int, now: Instant)
    requires Inv(tr, now) && (EventTime(e).Some? ==> now <= EventTime(e).value)
    ensures Inv(Step(tr, e, maxLagMs), if EventTime(e).Some? then EventTime(e).value else now)
  {
    match e
    case TradeArrives(raw, mono, wall) =>
      var parsed := Parse(raw, mono, wall, maxLagMs);
      InvLater(tr, now, mono);
      if parsed.Some? && Judge(tr.flow, parsed.value).Accepted? {
        AcceptKeeps(tr, parsed.value, now);
      }
    case SnapshotTaken(at) =>
      InvLater(tr, now, at);
      PurgeKeeps(tr, at);
    case ConnectionReset =>
  }

  /** The correspondence holds after every run whose clock never goes back. */
  lemma {:induction false} RunKeeps(events: seq<Event>, maxLagMs: int, now: Instant)
    requires TimesOk(events, now)
    ensures Inv(Run(events, maxLagMs), now)
  {
    if events != [] {
      var front, e := events[..|events| - 1], events[|events| - 1];
      if EventTime(e).Some? {
        RunKeeps(front, maxLagMs, EventTime(e).value);
        StepKeeps(Run(front, maxLagMs), e, maxLagMs, EventTime(e).value);
        InvLater(Run(events, maxLagMs), EventTime(e).value, now);
      } else {
        RunKeeps(front, maxLagMs, now);
        StepKeeps(Run(front, maxLagMs), e, maxLagMs, now);
      }
    }
  }

  // ---- what a reader of the flow may conclude ----

  /** Every published window, up to the 60 seconds in use, equals the sum over the full history of
      the current gap-free run; reading it purges the buckets without changing the answer. */
  lemma WindowIsTheNaiveSum(events: seq<Event>, maxLagMs: int, now: Instant, seconds: nat)
    requires TimesOk(events, now) && seconds <= 65
    ensures var tr := Run(events, maxLagMs);
            && tr.runAt <= |tr.all|
            && Window(Purge(tr.flow.buckets, now), Since(now, seconds)) == Naive(CurrentRun(tr), Since(now, seconds))
  {
    RunKeeps(events, maxLagMs, now);
    var tr := Run(events, maxLagMs);
    assert Recent(Since(now, seconds), now);
    PurgeKeepsWindow(tr.flow.buckets, now, Since(now, seconds));
  }

  /** The same for the two disjoint age ranges of the acceleration figures. */
  lemma RangeIsTheNaiveSum(events: seq<Event>, maxLagMs: int, now: Instant, newer: nat, older: nat)
    requires TimesOk(events, now) && older <= 65
    ensures var tr := Run(events, maxLagMs);
            && tr.runAt <= |tr.all|
            && Window(Purge(tr.flow.buckets, now), Between(now, newer, older))
               == Naive(CurrentRun(tr), Between(now, newer, older))
  {
    RunKeeps(events, maxLagMs, now);
    var tr := Run(events, maxLagMs);
    assert Recent(Between(now, newer, older), now);
    PurgeKeepsWindow(tr.flow.buckets, now, Between(now, newer, older));
  }

  /** Purging at any moment changes no present or later window. */
  lemma PurgeChangesNoLaterAnswer(buckets: seq<Bucket>, at: Instant, now: Instant, seconds: nat)
    requires at <= now && seconds <= 65
    ensures Window(Purge(buckets, at), Since(now, seconds)) == Window(buckets, Since(now, seconds))
  {
    assert Recent(Since(now, seconds), now);
    RecentLater(Since(now, seconds), at, now);
    PurgeKeepsWindow(buckets, at, Since(now, seconds));
  }

  /** A trade at most `seconds - 1` old is counted in the window, one older than `seconds` is not. */
  lemma WindowAges(t: Trade, now: Instant, seconds: nat)
    requires t.mono <= now
    ensures now - t.mono <= seconds as real - 1.0 ==> Since(now, seconds)(t.mono.Floor)
    ensures Since(now, seconds)(t.mono.Floor) ==> now - t.mono <= seconds as real
  {
  }

  lemma BucketsBounded(events: seq<Event>, maxLagMs: int, now: Instant)
    requires TimesOk(events, now)
    ensures |Run(events, maxLagMs).flow.buckets| <= 66
  {
    RunKeeps(events, maxLagMs, now);
    OrderedIsBounded(Run(events, maxLagMs).flow.buckets, now);
  }

  /** The session counts trades with consecutive ids up to `lastId`, and its cumulative delta is
      the signed sum of exactly those trades, however much has been purged. */
  lemma SessionIsOneGapFreeRun(events: seq<Event>, maxLagMs: int, now: Instant)
    requires TimesOk(events, now)
    ensures var tr := Run(events, maxLagMs);
            && tr.runAt <= |tr.all|
            && var run := CurrentRun(tr);
               && Consecutive(run) && tr.flow.cvd == SignedSum(run)
               && (run != [] ==> tr.flow.lastId == Some(run[|run| - 1].id))
               && (0 < tr.runAt < |tr.all| ==> run[0].id > tr.all[tr.runAt - 1].id + 1)
  {
    RunKeeps(events, maxLagMs, now);
    RunStartsAfterAGap(events, maxLagMs, now);
  }

  /** The run is as long as it can be: the trade accepted before it left a hole in the ids. */
  lemma {:induction false} RunStartsAfterAGap(events: seq<Event>, maxLagMs: int, now: Instant)
    requires TimesOk(events, now)
    ensures var tr := Run(events, maxLagMs);
            0 < tr.runAt < |tr.all| ==> tr.all[tr.runAt].id > tr.all[tr.runAt - 1].id + 1
  {
    if events != [] {
      var front, e := events[..|events| - 1], events[|events| - 1];
      RunStartsAfterAGap(front, maxLagMs, now);
      RunKeeps(front, maxLagMs, now);
      hide Inv, Step;
      StepStartsAfterAGap(Run(front, maxLagMs), e, maxLagMs, now);
    }
  }

  lemma StepStartsAfterAGap(was: Tracked, e: Event, maxLagMs: int, now: Instant)
    requires Inv(was, now) && (0 < was.runAt < |was.all| ==> was.all[was.runAt].id > was.all[was.runAt - 1].id + 1)
    ensures var tr := Step(was, e, maxLagMs);
            0 < tr.runAt < |tr.all| ==> tr.all[tr.runAt].id > tr.all[tr.runAt - 1].id + 1
  {
    hide Accept, Purge, BucketsMatch, TimesAscend, Consecutive, SignedSum, Parse;
    var run := CurrentRun(was);
    assert run != [] ==> run[|run| - 1] == was.all[|was.all| - 1];
  }

  /** When both clocks advance together, a fresh flow status means that the last 60 seconds lie
      inside one gap-free run: every accepted trade younger than that belongs to it. */
  lemma FreshFlowCoversTheMinute(events: seq<Event>, maxLagMs: int, now: Instant, wall: real, maxAgeMs: int)
    requires TimesOk(events, now)
    requires forall i :: 0 <= i < |events| && events[i].TradeArrives? ==> events[i].wall - events[i].mono == wall - now
    requires FlowFresh(Run(events, maxLagMs).flow, now, wall, maxAgeMs)
    ensures var tr := Run(events, maxLagMs);
            && tr.runAt < |tr.all|
            && tr.all[tr.runAt].mono <= now - 60.0
            && forall k :: 0 <= k < |tr.all| && tr.all[k].mono > now - 60.0 ==> k >= tr.runAt
  {
    RunKeeps(events, maxLagMs, now);
    OffsetsKept(events, maxLagMs, wall - now);
    var tr := Run(events, maxLagMs);
    assert CurrentRun(tr)[0] == tr.all[tr.runAt];
  }

  lemma {:induction false} OffsetsKept(events: seq<Event>, maxLagMs: int, offset: real)
    requires forall i :: 0 <= i < |events| && events[i].TradeArrives? ==> events[i].wall - events[i].mono == offset
    ensures forall k :: 0 <= k < |Run(events, maxLagMs).all| ==>
              Run(events, maxLagMs).all[k].wall - Run(events, maxLagMs).all[k].mono == offset
  {
    if events != [] {
      OffsetsKept(events[..|events| - 1], maxLagMs, offset);
      var e := events[|events| - 1];
      if e.TradeArrives? {
        var parsed := Parse(e.raw, e.mono, e.wall, maxLagMs);
        assert parsed.Some? ==> parsed.value.wall - parsed.value.mono == offset;
      }
    }
  }
}

/** What the published flow figures say about the messages themselves. The reference here is built
    from the raw messages only: which are taken, which belong to the current run, and their sums. */
module FlowMeaning {
  import opened Prelude
  import opened FlowSpec

  datatype Message = Message(raw: RawTrade, mono: Instant, wall: real)

  /** All fields are there and positive, and the trade is neither stale nor from the future. */
  ghost predicate WellFormed(raw: RawTrade, wall: real, maxLagMs: int) {
    && raw.RawTrade? && 0 <= raw.id && 1 <= raw.eventMs && raw.price > 0.0 && raw.quantity > 0.0
    && -5000.0 <= wall * 1000.0 - raw.eventMs as real <= maxLagMs as real
  }

  /** Newer than the last message taken, and not older in event time. */
  ghost predicate Newer(taken: seq<Message>, raw: RawTrade)
    requires raw.RawTrade? && forall i :: 0 <= i < |taken| ==> taken[i].raw.RawTrade?
  {
    taken == [] || (raw.id > taken[|taken| - 1].raw.id && raw.eventMs >= taken[|taken| - 1].raw.eventMs)
  }

  /** The messages taken since the connection was last reset. */
  ghost function Taken(events: seq<Event>, maxLagMs: int): (taken: seq<Message>)
    ensures forall i :: 0 <= i < |taken| ==> taken[i].raw.RawTrade?
  {
    if events == [] then []
    else
      var before := Taken(events[..|events| - 1], maxLagMs);
      match events[|events| - 1]
      case ConnectionReset => []
      case SnapshotTaken(_) => before
      case TradeArrives(raw, mono, wall) =>
        if WellFormed(raw, wall, maxLagMs) && Newer(before, raw) then before + [Message(raw, mono, wall)] else before
  }

  /** `m` carries the id after that of the last message taken. */
  ghost predicate Follows(taken: seq<Message>, m: Message) {
    && taken != [] && taken[|taken| - 1].raw.RawTrade? && m.raw.RawTrade?
    && m.raw.id == taken[|taken| - 1].raw.id + 1
  }

  /** The last messages without a hole in their ids. */
  ghost function LastRun(taken: seq<Message>): seq<Message> {
    if taken == [] then []
    else
      var front, last := taken[..|taken| - 1], taken[|taken| - 1];
      (if Follows(front, last) then LastRun(front) else []) + [last]
  }

  ghost function Bought(run: seq<Message>, keep: int -> bool): real {
    if run == [] then 0.0
    else
      var m := run[|run| - 1];
      Bought(run[..|run| - 1], keep)
      + (if m.raw.RawTrade? && keep(m.mono.Floor) && !m.raw.maker then m.raw.price * m.raw.quantity else 0.0)
  }

  ghost function Sold(run: seq<Message>, keep: int -> bool): real {
    if run == [] then 0.0
    else
      var m := run[|run| - 1];
      Sold(run[..|run| - 1], keep)
      + (if m.raw.RawTrade? && keep(m.mono.Floor) && m.raw.maker then m.raw.price * m.raw.quantity else 0.0)
  }

  ghost function Number(run: seq<Message>, keep: int -> bool): nat {
    if run == [] then 0
    else Number(run[..|run| - 1], keep) + (if keep(run[|run| - 1].mono.Floor) then 1 else 0)
  }

  // ---- the tracked trades are the taken messages ----

  /** The trade is what the message says. */
  ghost predicate Says(m: Message, t: Trade) {
    m.raw.RawTrade? && t.id == m.raw.id && t.eventMs == m.raw.eventMs && t.maker == m.raw.maker
    && t.quote == m.raw.price * m.raw.quantity && t.mono == m.mono && t.wall == m.wall
  }

  ghost predicate AllSay(taken: seq<Message>, trades: seq<Trade>) {
    |taken| == |trades| && forall i :: 0 <= i < |taken| ==> Says(taken[i], trades[i])
  }

  ghost predicate LastFields(f: Flow, all: seq<Trade>) {
    && f.lastId == (if all == [] then None else Some(all[|all| - 1].id))
    && f.lastEventMs == (if all == [] then None else Some(all[|all| - 1].eventMs))
  }

  /** The state stands for these messages: the same trades, and the same current run. */
  ghost predicate StandsFor(tr: Tracked, taken: seq<Message>) {
    && tr.runAt <= |tr.all| && AllSay(taken, tr.all) && LastFields(tr.flow, tr.all)
    && (tr.all == [] ==> tr.runAt == 0) && (tr.all != [] ==> tr.runAt < |tr.all|)
    && LastRun(taken) == taken[tr.runAt..]
  }

  lemma ParseSays(raw: RawTrade, mono: Instant, wall: real, maxLagMs: int)
    ensures Parse(raw, mono, wall, maxLagMs).Some? <==> WellFormed(raw, wall, maxLagMs)
    ensures Parse(raw, mono, wall, maxLagMs).Some? ==>
              Says(Message(raw, mono, wall), Parse(raw, mono, wall, maxLagMs).value)
  {
  }

  lemma AcceptedIsNewer(tr: Tracked, taken: seq<Message>, m: Message, t: Trade)
    requires StandsFor(tr, taken) && Says(m, t)
    ensures Judge(tr.flow, t).Accepted? <==> Newer(taken, m.raw)
    ensures Judge(tr.flow, t).Duplicate? <==> taken != [] && m.raw.id == taken[|taken| - 1].raw.id
    ensures Gap(tr.flow, t) <==> taken != [] && m.raw.id != taken[|taken| - 1].raw.id + 1
  {
    hide LastRun;
    if taken != [] {
      assert Says(taken[|taken| - 1], tr.all[|tr.all| - 1]);
    }
  }

  lemma LastRunSnoc(taken: seq<Message>, m: Message)
    ensures LastRun(taken + [m]) == (if Follows(taken, m) then LastRun(taken) else []) + [m]
  {
    hide Follows;
    assert (taken + [m])[..|taken|] == taken;
  }

  lemma LastRunGrows(taken: seq<Message>, m: Message, at: nat)
    requires at <= |taken| && LastRun(taken) == taken[at..]
    ensures LastRun(taken + [m]) == if Follows(taken, m) then (taken + [m])[at..] else [m]
  {
    LastRunSnoc(taken, m);
    hide LastRun, Follows;
    assert (taken + [m])[at..] == taken[at..] + [m];
  }

  lemma AllSayGrows(taken: seq<Message>, trades: seq<Trade>, m: Message, t: Trade)
    requires AllSay(taken, trades) && Says(m, t)
    ensures AllSay(taken + [m], trades + [t])
  {
    hide Says;
  }

  lemma AcceptSetsTheLast(f: Flow, all: seq<Trade>, t: Trade)
    ensures LastFields(Accept(f, t), all + [t])
  {
    hide Purge, Deposit, Gap;
  }

  lemma AcceptStandsFor(tr: Tracked, taken: seq<Message>, m: Message, t: Trade)
    requires StandsFor(tr, taken) && Says(m, t) && Newer(taken, m.raw)
    ensures StandsFor(Tracked(Accept(tr.flow, t), tr.all + [t], if Gap(tr.flow, t) then |tr.all| else tr.runAt),
                      taken + [m])
  {
    AcceptedIsNewer(tr, taken, m, t);
    LastRunGrows(taken, m, tr.runAt);
    AllSayGrows(taken, tr.all, m, t);
    AcceptSetsTheLast(tr.flow, tr.all, t);
    assert taken != [] ==> taken[|taken| - 1].raw.RawTrade?;
    assert taken != [] ==> (Gap(tr.flow, t) <==> !Follows(taken, m));
    hide LastRun, Accept, Gap, Says, Newer, Follows, AllSay, LastFields;
    assert (taken + [m])[|taken|..] == [m];
  }

  lemma StepStandsFor(tr: Tracked, taken: seq<Message>, e: Event, maxLagMs: int)
    requires StandsFor(tr, taken)
    ensures StandsFor(Step(tr, e, maxLagMs),
                      match e
                      case ConnectionReset => []
                      case SnapshotTaken(_) => taken
                      case TradeArrives(raw, mono, wall) =>
                        if WellFormed(raw, wall, maxLagMs) && Newer(taken, raw) then taken + [Message(raw, mono, wall)]
                        else taken)
  {
    match e
    case ConnectionReset =>
    case SnapshotTaken(now) =>
    case TradeArrives(raw, mono, wall) =>
      ParseSays(raw, mono, wall, maxLagMs);
      if WellFormed(raw, wall, maxLagMs) {
        var t := Parse(raw, mono, wall, maxLagMs).value;
        hide Parse, WellFormed, LastRun;
        AcceptedIsNewer(tr, taken, Message(raw, mono, wall), t);
        if Newer(taken, raw) {
          AcceptStandsFor(tr, taken, Message(raw, mono, wall), t);
        }
      }
  }

  /** After every run the state stands for exactly the messages taken. */
  lemma {:induction false} RunStandsFor(events: seq<Event>, maxLagMs: int)
    ensures StandsFor(Run(events, maxLagMs), Taken(events, maxLagMs))
  {
    if events != [] {
      var front, e := events[..|events| - 1], events[|events| - 1];
      RunStandsFor(front, maxLagMs);
      hide StandsFor, Step, Newer, WellFormed;
      StepStandsFor(Run(front, maxLagMs), Taken(front, maxLagMs), e, maxLagMs);
    }
  }

  // ---- the figures ----

  /** The run that the figures are about, from the messages alone. */
  ghost function CurrentMessages(events: seq<Event>, maxLagMs: int): seq<Message> {
    LastRun(Taken(events, maxLagMs))
  }

  ghost function Amount(m: Message): real {
    if m.raw.RawTrade? then m.raw.price * m.raw.quantity else 0.0
  }

  lemma LastSplit<T>(s: seq<T>)
    requires s != []
    ensures s == s[..|s| - 1] + [s[|s| - 1]]
  {
  }

  lemma BoughtSnoc(front: seq<Message>, m: Message, keep: int -> bool)
    ensures Bought(front + [m], keep)
            == Bought(front, keep) + (if m.raw.RawTrade? && keep(m.mono.Floor) && !m.raw.maker then Amount(m) else 0.0)
  {
    assert (front + [m])[..|front|] == front;
  }

  lemma SoldSnoc(front: seq<Message>, m: Message, keep: int -> bool)
    ensures Sold(front + [m], keep)
            == Sold(front, keep) + (if m.raw.RawTrade? && keep(m.mono.Floor) && m.raw.maker then Amount(m) else 0.0)
  {
    assert (front + [m])[..|front|] == front;
  }

  lemma NumberSnoc(front: seq<Message>, m: Message, keep: int -> bool)
    ensures Number(front + [m], keep) == Number(front, keep) + (if keep(m.mono.Floor) then 1 else 0)
  {
    assert (front + [m])[..|front|] == front;
  }

  lemma NaiveSnoc(front: seq<Trade>, t: Trade, select: int -> bool)
    ensures Naive(front + [t], select)
            == Add(Naive(front, select), if select(t.mono.Floor) then TotalsOf(t) else NOTHING)
  {
    assert (front + [t])[..|front|] == front;
  }

  /** The bucket total is what the messages bought and sold. */
  ghost predicate SumsAgree(run: seq<Message>, trades: seq<Trade>, keep: int -> bool, select: int -> bool) {
    Naive(trades, select) == Totals(Bought(run, keep), Sold(run, keep), Number(run, keep))
  }

  lemma SumsAgreeSnoc(
      run: seq<Message>, trades: seq<Trade>, m: Message, t: Trade, keep: int -> bool, select: int -> bool)
    requires SumsAgree(run, trades, keep, select) && Says(m, t) && (keep(m.mono.Floor) <==> select(m.mono.Floor))
    ensures SumsAgree(run + [m], trades + [t], keep, select)
  {
    hide Naive, Bought, Sold, Number;
    BoughtSnoc(run, m, keep);
    SoldSnoc(run, m, keep);
    NumberSnoc(run, m, keep);
    NaiveSnoc(trades, t, select);
  }

  lemma FrontSays(run: seq<Message>, trades: seq<Trade>)
    requires AllSay(run, trades) && run != []
    ensures var n := |run| - 1; AllSay(run[..n], trades[..n]) && Says(run[n], trades[n])
  {
    hide Says;
  }

  lemma {:induction false} NaiveSums(run: seq<Message>, trades: seq<Trade>, keep: int -> bool, select: int -> bool)
    requires AllSay(run, trades) && forall s :: keep(s) <==> select(s)
    ensures SumsAgree(run, trades, keep, select)
    decreases |run|
  {
    if run != [] {
      FrontSays(run, trades);
      LastSplit(run);
      LastSplit(trades);
      hide SumsAgree, AllSay, Says;
      var n := |run| - 1;
      NaiveSums(run[..n], trades[..n], keep, select);
      SumsAgreeSnoc(run[..n], trades[..n], run[n], trades[n], keep, select);
    }
  }

  lemma SignedSnoc(front: seq<Trade>, t: Trade)
    ensures SignedSum(front + [t]) == SignedSum(front) + Signed(t)
  {
    assert (front + [t])[..|front|] == front;
  }

  ghost predicate SignedAgree(run: seq<Message>, trades: seq<Trade>, all: int -> bool) {
    SignedSum(trades) == Bought(run, all) - Sold(run, all)
  }

  lemma SignedAgreeSnoc(run: seq<Message>, trades: seq<Trade>, m: Message, t: Trade, all: int -> bool)
    requires SignedAgree(run, trades, all) && Says(m, t) && all(m.mono.Floor)
    ensures SignedAgree(run + [m], trades + [t], all)
  {
    hide SignedSum, Bought, Sold;
    BoughtSnoc(run, m, all);
    SoldSnoc(run, m, all);
    SignedSnoc(trades, t);
  }

  lemma {:induction false} SignedSums(run: seq<Message>, trades: seq<Trade>, all: int -> bool)
    requires AllSay(run, trades) && forall s :: all(s)
    ensures SignedAgree(run, trades, all)
    decreases |run|
  {
    if run != [] {
      FrontSays(run, trades);
      LastSplit(run);
      LastSplit(trades);
      hide SignedAgree, AllSay, Says;
      var n := |run| - 1;
      SignedSums(run[..n], trades[..n], all);
      SignedAgreeSnoc(run[..n], trades[..n], run[n], trades[n], all);
    }
  }

  lemma RunSays(tr: Tracked, taken: seq<Message>)
    requires StandsFor(tr, taken)
    ensures AllSay(LastRun(taken), CurrentRun(tr))
  {
    hide LastRun;
    forall i | 0 <= i < |LastRun(taken)| ensures Says(LastRun(taken)[i], CurrentRun(tr)[i]) {
      assert Says(taken[tr.runAt + i], tr.all[tr.runAt + i]);
    }
  }

  /** Every window: bought is what the messages of the run in the window bought, price times quantity of
      those whose buyer was not the maker; sold is the same for the others; and the count is their number. */
  lemma WindowMeans(events: seq<Event>, maxLagMs: int, now: Instant, seconds: nat, inWindow: int -> bool)
    requires TimesOk(events, now) && seconds <= 65
    requires forall s :: inWindow(s) <==> s as real >= now - seconds as real
    ensures var run := CurrentMessages(events, maxLagMs);
            Window(Purge(Run(events, maxLagMs).flow.buckets, now), Since(now, seconds))
            == Totals(Bought(run, inWindow), Sold(run, inWindow), Number(run, inWindow))
  {
    RunStandsFor(events, maxLagMs);
    WindowIsTheNaiveSum(events, maxLagMs, now, seconds);
    var tr := Run(events, maxLagMs);
    RunSays(tr, Taken(events, maxLagMs));
    assert forall s :: Since(now, seconds)(s) <==> s as real >= now - seconds as real;
    hide Run, Taken, StandsFor, LastRun, Since, AllSay;
    NaiveSums(CurrentMessages(events, maxLagMs), CurrentRun(tr), inWindow, Since(now, seconds));
  }

  /** The same for the age ranges. */
  lemma RangeMeans(events: seq<Event>, maxLagMs: int, now: Instant, newer: nat, older: nat, inRange: int -> bool)
    requires TimesOk(events, now) && older <= 65
    requires forall s :: inRange(s) <==> newer as real <= now - s as real < older as real
    ensures Window(Purge(Run(events, maxLagMs).flow.buckets, now), Between(now, newer, older)).count
            == Number(CurrentMessages(events, maxLagMs), inRange)
  {
    RunStandsFor(events, maxLagMs);
    RangeIsTheNaiveSum(events, maxLagMs, now, newer, older);
    var tr := Run(events, maxLagMs);
    RunSays(tr, Taken(events, maxLagMs));
    assert forall s :: Between(now, newer, older)(s) <==> newer as real <= now - s as real < older as real;
    hide Run, Taken, StandsFor, LastRun, Between, AllSay;
    NaiveSums(CurrentMessages(events, maxLagMs), CurrentRun(tr), inRange, Between(now, newer, older));
  }

  /** The session delta is what all messages of the run bought less what they sold. */
  lemma SessionMeans(events: seq<Event>, maxLagMs: int, now: Instant, all: int -> bool)
    requires TimesOk(events, now) && forall s :: all(s)
    ensures var run := CurrentMessages(events, maxLagMs);
            Run(events, maxLagMs).flow.cvd == Bought(run, all) - Sold(run, all)
  {
    RunStandsFor(events, maxLagMs);
    SessionIsOneGapFreeRun(events, maxLagMs, now);
    var tr := Run(events, maxLagMs);
    RunSays(tr, Taken(events, maxLagMs));
    hide Run, Taken, StandsFor, LastRun, AllSay;
    SignedSums(CurrentMessages(events, maxLagMs), CurrentRun(tr), all);
  }

  /** The verdict on a readable trade: it is accepted when newer than the last one taken and not older in
      event time, a duplicate when it has the same id, and out of order otherwise. */
  lemma VerdictMeans(events: seq<Event>, maxLagMs: int, raw: RawTrade, mono: Instant, wall: real)
    requires WellFormed(raw, wall, maxLagMs)
    ensures Parse(raw, mono, wall, maxLagMs).Some?
    ensures var taken := Taken(events, maxLagMs);
            Judge(Run(events, maxLagMs).flow, Parse(raw, mono, wall, maxLagMs).value) ==
            if taken == [] then Accepted
            else
              var last := taken[|taken| - 1].raw;
              if raw.id == last.id then Duplicate
              else if raw.id > last.id && raw.eventMs >= last.eventMs then Accepted
              else OutOfOrder
  {
    RunStandsFor(events, maxLagMs);
    ParseSays(raw, mono, wall, maxLagMs);
    AcceptedIsNewer(Run(events, maxLagMs), Taken(events, maxLagMs), Message(raw, mono, wall),
                    Parse(raw, mono, wall, maxLagMs).value);
    VerdictIsOne(Run(events, maxLagMs).flow, Parse(raw, mono, wall, maxLagMs).value);
    hide Run, StandsFor, Parse, Judge;
  }

  lemma VerdictIsOne(f: Flow, t: Trade)
    ensures Judge(f, t).Accepted? || Judge(f, t).Duplicate? || Judge(f, t).OutOfOrder?
  {
  }

  lemma RoundIsNearest(x: real)
    ensures -0.5 <= x - Round(x) as real <= 0.5
    ensures x - Round(x) as real == 0.5 || x - Round(x) as real == -0.5 ==> Round(x) % 2 == 0
  {
  }

  /** There is a run, its last message came recently on both clocks, and its first one at least a
      minute ago. */
  ghost predicate CoversAFreshMinute(run: seq<Message>, now: Instant, wall: real, maxAgeMs: int) {
    && run != [] && run[|run| - 1].raw.RawTrade?
    && Max(0, Round((now - run[|run| - 1].mono) * 1000.0)) <= maxAgeMs
    && wall - run[0].wall >= 60.0
    && -1000.0 <= wall * 1000.0 - run[|run| - 1].raw.eventMs as real <= maxAgeMs as real
  }

  /** The status is fresh exactly when the messages of the run cover a fresh minute. */
  lemma FreshExactlyWhen(events: seq<Event>, maxLagMs: int, now: Instant, wall: real, maxAgeMs: int)
    requires TimesOk(events, now)
    ensures FlowFresh(Run(events, maxLagMs).flow, now, wall, maxAgeMs) <==>
            CoversAFreshMinute(CurrentMessages(events, maxLagMs), now, wall, maxAgeMs)
  {
    RunStandsFor(events, maxLagMs);
    RunKeeps(events, maxLagMs, now);
    hide Run, Taken, LastRun, FlowFresh, CoversAFreshMinute, Inv, StandsFor, TimesOk;
    FreshOf(Run(events, maxLagMs), Taken(events, maxLagMs), now, wall, maxAgeMs);
  }

  lemma FreshOf(tr: Tracked, taken: seq<Message>, now: Instant, wall: real, maxAgeMs: int)
    requires StandsFor(tr, taken) && Inv(tr, now)
    ensures FlowFresh(tr.flow, now, wall, maxAgeMs) <==> CoversAFreshMinute(LastRun(taken), now, wall, maxAgeMs)
  {
    RunSays(tr, taken);
    hide LastRun, FlowFresh, CoversAFreshMinute, BucketsMatch, TimesAscend, SessionMatches, AllSay;
    FreshFields(tr, LastRun(taken), now, wall, maxAgeMs);
  }

  lemma FreshFields(tr: Tracked, run: seq<Message>, now: Instant, wall: real, maxAgeMs: int)
    requires tr.runAt <= |tr.all| && (CurrentRun(tr) == [] <==> tr.all == [])
    requires AllSay(run, CurrentRun(tr)) && SessionMatches(tr.flow, CurrentRun(tr)) && LastFields(tr.flow, tr.all)
    ensures FlowFresh(tr.flow, now, wall, maxAgeMs) <==> CoversAFreshMinute(run, now, wall, maxAgeMs)
  {
    hide Round, Consecutive, SignedSum;
    var trades := CurrentRun(tr);
    if run != [] {
      assert Says(run[0], trades[0]) && Says(run[|run| - 1], trades[|run| - 1]);
      assert trades[|trades| - 1] == tr.all[|tr.all| - 1];
    }
  }
}

/** The rolling budget of one API provider: a minute window, a day cap and a month cap. */
module Budgets {
  import opened Prelude
  import opened SlidingWindow

  datatype Caps = Caps(minute: int, day: int, month: int)

  /** Days and months are numbered; the clock's keys never go back. */
  datatype Reading = Reading(now: real, day: int, month: int)

  datatype Budget = Budget(calls: seq<real>, day: int, month: int, dayCount: int, monthCount: int)

  /** Every grant ever made, with the keys in force when it was counted. */
  datatype History = History(times: seq<real>, days: seq<int>, months: seq<int>)

  function Roll(b: Budget, r: Reading): Budget {
    Budget(Recent(b.calls, r.now), r.day, r.month,
           if r.day != b.day then 0 else b.dayCount, if r.month != b.month then 0 else b.monthCount)
  }

  predicate Clear(b: Budget, caps: Caps) {
    |b.calls| < caps.minute && b.dayCount < caps.day && b.monthCount < caps.month
  }

  function Record(b: Budget, at: real): Budget {
    b.(calls := b.calls + [at], dayCount := b.dayCount + 1, monthCount := b.monthCount + 1)
  }

  /** One turn of `acquire` under the lock; `at` is the second reading of the clock. */
  function Turn(b: Budget, caps: Caps, r: Reading, at: real): Budget {
    var rolled := Roll(b, r);
    if Clear(rolled, caps) then Record(rolled, at) else rolled
  }

  class RollingBudget {
    const caps: Caps
    var b: Budget

    constructor (caps: Caps, r: Reading)
      ensures this.caps == caps && b == Budget([], r.day, r.month, 0, 0)
    {
      this.caps := caps;
      b := Budget([], r.day, r.month, 0, 0);
    }

    method RollNow(r: Reading)
      modifies this
      ensures b == Roll(old(b), r)
    {
      hide Recent;
      var kept: seq<real> := [];
      assert b.calls[0..] == b.calls;
      for i := 0 to |b.calls|
        invariant b == old(b)
        invariant kept + Recent(b.calls[i..], r.now) == Recent(b.calls, r.now)
      {
        RecentFrom(b.calls, i, r.now, kept);
        if r.now - b.calls[i] < SPAN {
          kept := kept + [b.calls[i]];
        }
      }
      assert b.calls[|b.calls|..] == [];
      NothingRecent(r.now, kept);
      b := b.(calls := kept);
      if r.day != b.day {
        b := b.(day := r.day, dayCount := 0);
      }
      if r.month != b.month {
        b := b.(month := r.month, monthCount := 0);
      }
    }

    /** One turn under the lock; `full` when the day or the month was used up. */
    method AcquireOnce(r: Reading, at: real) returns (granted: bool, full: bool)
      modifies this
      ensures b == Turn(old(b), caps, r, at)
      ensures granted <==> b.calls == Recent(old(b).calls, r.now) + [at]
      ensures granted == Clear(Roll(old(b), r), caps)
      ensures full <==> !granted && (b.dayCount >= caps.day || b.monthCount >= caps.month)
    {
      RollNow(r);
      var dayFull := b.dayCount >= caps.day;
      var monthFull := b.monthCount >= caps.month;
      var minuteFull := |b.calls| >= caps.minute;
      if !(dayFull || monthFull || minuteFull) {
        b := b.(calls := b.calls + [at]);
        b := b.(dayCount := b.dayCount + 1);
        b := b.(monthCount := b.monthCount + 1);
        return true, false;
      }
      return false, dayFull || monthFull;
    }

    /** Turns until one is granted, a cap is full, waiting is off, or the deadline has passed; it
        always comes back, and grants at most once. */
    method Acquire(block: bool, timeout: real, start: real, clock: nat -> Tick) returns (ok: bool, ghost turns: nat)
      requires Advances(clock)
      modifies this
      ensures turns >= 1 && b == After(old(b), caps, clock, turns)
      ensures turns > 1 ==> block
      ensures forall k: nat :: k < turns - 1 ==> Waits(old(b), caps, clock, k, start, timeout)
      ensures ok == Clear(Roll(After(old(b), caps, clock, turns - 1), clock(turns - 1).r), caps)
      ensures ok || !block || start + timeout <= clock(turns - 1).check
              || b.dayCount >= caps.day || b.monthCount >= caps.month
    {
      hide Waits, Turn;
      var deadline := start + timeout;
      turns := 0;
      var k := 0;
      while true
        invariant k == turns && b == After(old(b), caps, clock, turns)
        invariant turns > 0 ==> block
        invariant forall i: nat :: i < turns ==> Waits(old(b), caps, clock, i, start, timeout)
        decreases (4.0 * (deadline - clock(k).r.now)).Floor
      {
        var granted, full := AcquireOnce(clock(k).r, clock(k).at);
        turns := turns + 1;
        if granted {
          return true, turns;
        }
        if full {
          return false, turns;
        }
        if !block || clock(k).check >= deadline {
          return false, turns;
        }
        StillWaits(old(b), caps, clock, k, start, timeout);
        k := k + 1;
      }
    }
  }

  // ---- every run ----

  /** The readings of one turn: the purge, the grant, and the deadline check. */
  datatype Tick = Tick(r: Reading, at: real, check: real)

  /** A clock that never goes back, and a sleep of at least a quarter second between turns. */
  ghost predicate Advances(clock: nat -> Tick) {
    forall k: nat :: clock(k).r.now <= clock(k).at && clock(k).r.now <= clock(k).check
                && clock(k).check + 0.25 <= clock(k + 1).r.now
  }

  function After(b: Budget, caps: Caps, clock: nat -> Tick, n: nat): Budget {
    if n == 0 then b else Turn(After(b, caps, clock, n - 1), caps, clock(n - 1).r, clock(n - 1).at)
  }

  /** Turn `k` is refused, with neither the day nor the month used up and the deadline still ahead. */
  ghost predicate Waits(b: Budget, caps: Caps, clock: nat -> Tick, k: nat, start: real, timeout: real)
  {
    && !Clear(Roll(After(b, caps, clock, k), clock(k).r), caps) && clock(k).check < start + timeout
    && After(b, caps, clock, k + 1).dayCount < caps.day && After(b, caps, clock, k + 1).monthCount < caps.month
  }

  lemma StillWaits(b: Budget, caps: Caps, clock: nat -> Tick, k: nat, start: real, timeout: real)
    requires !Clear(Roll(After(b, caps, clock, k), clock(k).r), caps) && clock(k).check < start + timeout
    requires var after := Turn(After(b, caps, clock, k), caps, clock(k).r, clock(k).at);
             after.dayCount < caps.day && after.monthCount < caps.month
    ensures Waits(b, caps, clock, k, start, timeout)
  {
    hide Turn, Roll, Clear;
    assert After(b, caps, clock, k + 1) == Turn(After(b, caps, clock, k), caps, clock(k).r, clock(k).at);
  }

  /** Turns of any number of threads in lock order, and reads of the statistics, which only purge. */
  datatype Event = Try(r: Reading, at: real) | Stats(r: Reading)

  datatype World = World(b: Budget, h: History, clock: real)

  predicate EventOk(w: World, e: Event) {
    w.clock <= e.r.now && w.b.day <= e.r.day && w.b.month <= e.r.month && (e.Try? ==> e.r.now <= e.at)
  }

  function Logged(h: History, r: Reading, at: real): History {
    History(h.times + [at], h.days + [r.day], h.months + [r.month])
  }

  function Next(w: World, caps: Caps, e: Event): World {
    match e
    case Stats(r) => World(Roll(w.b, r), w.h, r.now)
    case Try(r, at) =>
      World(Turn(w.b, caps, r, at), if Clear(Roll(w.b, r), caps) then Logged(w.h, r, at) else w.h, at)
  }

  ghost predicate RunOk(w: World, caps: Caps, events: seq<Event>)
    decreases |events|
  {
    events == [] || (EventOk(w, events[0]) && RunOk(Next(w, caps, events[0]), caps, events[1..]))
  }

  function Run(w: World, caps: Caps, events: seq<Event>): World
    decreases |events|
  {
    if events == [] then w else Run(Next(w, caps, events[0]), caps, events[1..])
  }

  function Fresh(r: Reading): World {
    World(Budget([], r.day, r.month, 0, 0), History([], [], []), r.now)
  }

  /** How many grants carry the key `k`. */
  ghost function CountOf(keys: seq<int>, k: int): nat {
    multiset(keys)[k]
  }

  /** The counter is the number of grants of the current key, no later key was granted, and no key
      ever exceeds the cap. */
  ghost predicate Counted(keys: seq<int>, key: int, count: int, cap: int) {
    count == CountOf(keys, key) && (forall k :: k in keys ==> k <= key)
    && (forall k: int :: CountOf(keys, k) <= Max(0, cap))
  }

  ghost predicate Inv(w: World, caps: Caps) {
    && Tracks(w.b.calls, w.h.times, w.clock) && Spaced(w.h.times, Max(0, caps.minute))
    && (caps.minute <= 0 ==> w.h.times == [])
    && Counted(w.h.days, w.b.day, w.b.dayCount, caps.day)
    && Counted(w.h.months, w.b.month, w.b.monthCount, caps.month)
  }

  lemma RollCounts(keys: seq<int>, key: int, count: int, cap: int, key': int)
    requires Counted(keys, key, count, cap) && key <= key'
    ensures Counted(keys, key', if key' != key then 0 else count, cap)
  {
    if key' != key {
      assert key' !in keys;
    }
  }

  lemma GrantCounts(keys: seq<int>, key: int, count: int, cap: int)
    requires Counted(keys, key, count, cap) && count < cap
    ensures Counted(keys + [key], key, count + 1, cap)
  {
    forall k: int ensures CountOf(keys + [key], k) == CountOf(keys, k) + (if k == key then 1 else 0) {
    }
  }

  lemma RollKeeps(w: World, caps: Caps, r: Reading)
    requires Inv(w, caps) && w.clock <= r.now && w.b.day <= r.day && w.b.month <= r.month
    ensures Inv(World(Roll(w.b, r), w.h, r.now), caps)
    ensures Roll(w.b, r).day == r.day && Roll(w.b, r).month == r.month
  {
    hide Tracks, Spaced, Counted, Recent, DropOld;
    PurgeTracks(w.b.calls, w.h.times, w.clock, r.now);
    RollCounts(w.h.days, w.b.day, w.b.dayCount, caps.day, r.day);
    RollCounts(w.h.months, w.b.month, w.b.monthCount, caps.month, r.month);
  }

  lemma RecordKeeps(w: World, caps: Caps, r: Reading, at: real)
    requires Inv(w, caps) && w.clock <= at && Clear(w.b, caps) && w.b.day == r.day && w.b.month == r.month
    ensures Inv(World(Record(w.b, at), Logged(w.h, r, at), at), caps)
  {
    hide Tracks, Spaced, Counted;
    GrantKeeps(w.b.calls, w.h.times, w.clock, Max(0, caps.minute), at);
    GrantCounts(w.h.days, r.day, w.b.dayCount, caps.day);
    GrantCounts(w.h.months, r.month, w.b.monthCount, caps.month);
  }

  lemma WaitKeeps(w: World, caps: Caps, later: real)
    requires Inv(w, caps) && w.clock <= later
    ensures Inv(w.(clock := later), caps)
  {
    hide Tracks, Spaced, Counted;
    LaterTracks(w.b.calls, w.h.times, w.clock, later);
  }

  lemma NextKeeps(w: World, caps: Caps, e: Event)
    requires Inv(w, caps) && EventOk(w, e)
    ensures Inv(Next(w, caps, e), caps)
  {
    hide Inv, Turn, Roll, Record;
    var r := e.r;
    RollKeeps(w, caps, r);
    if e.Try? {
      if Clear(Roll(w.b, r), caps) {
        RecordKeeps(World(Roll(w.b, r), w.h, r.now), caps, r, e.at);
        TurnIs(w.b, caps, r, e.at);
      } else {
        WaitKeeps(World(Roll(w.b, r), w.h, r.now), caps, e.at);
        TurnIs(w.b, caps, r, e.at);
      }
    }
  }

  lemma TurnIs(b: Budget, caps: Caps, r: Reading, at: real)
    ensures Turn(b, caps, r, at) == if Clear(Roll(b, r), caps) then Record(Roll(b, r), at) else Roll(b, r)
    ensures Roll(b, r).day == r.day && Roll(b, r).month == r.month
  {
    hide Clear, Record, Recent;
  }

  lemma {:induction false} RunKeeps(w: World, caps: Caps, events: seq<Event>)
    requires Inv(w, caps) && RunOk(w, caps, events)
    ensures Inv(Run(w, caps, events), caps)
    decreases |events|
  {
    hide Inv, Next, EventOk;
    if events != [] {
      NextKeeps(w, caps, events[0]);
      RunKeeps(Next(w, caps, events[0]), caps, events[1..]);
    }
  }

  /** Over every run of every thread: any 60-second span holds at most `caps.minute` grants, the
      counters are the grants of the current day and month, and no day or month exceeds its cap. */
  lemma BudgetHolds(r: Reading, caps: Caps, events: seq<Event>, s: real, k: int)
    requires RunOk(Fresh(r), caps, events)
    ensures var w := Run(Fresh(r), caps, events);
            && Within(w.h.times, s) <= Max(0, caps.minute)
            && w.b.dayCount == CountOf(w.h.days, w.b.day) && CountOf(w.h.days, k) <= Max(0, caps.day)
            && w.b.monthCount == CountOf(w.h.months, w.b.month) && CountOf(w.h.months, k) <= Max(0, caps.month)
  {
    FreshHolds(r, caps);
    RunKeeps(Fresh(r), caps, events);
    hide Run, RunOk;
    InvBounds(Run(Fresh(r), caps, events), caps, s, k);
  }

  lemma FreshHolds(r: Reading, caps: Caps)
    ensures Inv(Fresh(r), caps)
  {
  }

  lemma InvBounds(w: World, caps: Caps, s: real, k: int)
    requires Inv(w, caps)
    ensures Within(w.h.times, s) <= Max(0, caps.minute)
    ensures w.b.dayCount == CountOf(w.h.days, w.b.day) && CountOf(w.h.days, k) <= Max(0, caps.day)
    ensures w.b.monthCount == CountOf(w.h.months, w.b.month) && CountOf(w.h.months, k) <= Max(0, caps.month)
  {
    hide Within, Spaced, CountOf;
    AnySpanHoldsAtMost(w.h.times, Max(0, caps.minute), s);
  }

  /** A turn is granted exactly when, counted over everything ever granted, fewer than the caps were
      granted in the last 60 seconds, on this day and in this month. */
  lemma GrantedExactlyWhenUnderTheCaps(w: World, caps: Caps, r: Reading, at: real)
    requires Inv(w, caps) && EventOk(w, Try(r, at))
    ensures Clear(Roll(w.b, r), caps) <==>
            && |Recent(w.h.times, r.now)| < caps.minute
            && CountOf(w.h.days, r.day) < caps.day && CountOf(w.h.months, r.month) < caps.month
  {
    hide Tracks, Spaced, Recent;
    PurgingChangesNoAnswer(w.b.calls, w.h.times, w.clock, r.now);
    RollCounts(w.h.days, w.b.day, w.b.dayCount, caps.day, r.day);
    RollCounts(w.h.months, w.b.month, w.b.monthCount, caps.month, r.month);
  }
}

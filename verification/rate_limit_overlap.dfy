/** The limiter when requests of one client overlap: nothing locks the append to the check before it.
    Reading the clock, purging and checking are one step here, the append is a later one. */
module OverlappingRequests {
  import opened Prelude
  import opened SlidingWindow

  /** `times` of every admission, in the order of the checks; `window` and `flight` hold the numbers of
      those already appended and of those still on their way. */
  datatype Gate = Gate(times: seq<real>, window: seq<nat>, flight: set<nat>, clock: real)

  datatype Event = Check(now: real) | Append(id: nat)

  const OPEN := Gate([], [], {}, 0.0)

  ghost predicate Numbered(g: Gate) {
    (forall i :: 0 <= i < |g.window| ==> g.window[i] < |g.times|) && (forall i :: i in g.flight ==> i < |g.times|)
  }

  /** The numbers left when the front no longer holds an old one. */
  function Purged(times: seq<real>, window: seq<nat>, now: real): seq<nat>
    requires forall i :: 0 <= i < |window| ==> window[i] < |times|
  {
    if window != [] && now - times[window[0]] >= SPAN then Purged(times, window[1..], now) else window
  }

  ghost predicate StepOk(g: Gate, e: Event) {
    && Numbered(g)
    && match e
       case Check(now) => g.clock <= now
       case Append(id) => id in g.flight
  }

  ghost function Step(g: Gate, limit: int, e: Event): Gate
    requires StepOk(g, e)
  {
    match e
    case Append(id) => g.(window := g.window + [id], flight := g.flight - {id})
    case Check(now) =>
      var kept := Purged(g.times, g.window, now);
      if |kept| < limit then Gate(g.times + [now], kept, g.flight + {|g.times|}, now)
      else g.(window := kept, clock := now)
  }

  ghost predicate StepAt(g: Gate, next: Gate, limit: int, m: nat, e: Event) {
    StepOk(g, e) && next == Step(g, limit, e) && |next.flight| <= m
  }

  /** A run with at most `m` requests of the client between check and append at any moment. */
  ghost predicate IsRun(gates: seq<Gate>, events: seq<Event>, limit: int, m: nat) {
    && |gates| == |events| + 1 && gates[0] == OPEN
    && forall i :: 0 <= i < |events| ==> var next := i + 1; StepAt(gates[i], gates[next], limit, m, events[i])
  }

  // ---- how far the limit is overshot ----

  /** Every admission of the last minute is in the window or on its way. */
  ghost predicate Held(times: seq<real>, window: seq<nat>, flight: set<nat>, now: real) {
    forall i: nat :: i < |times| && now - times[i] < SPAN ==> i in window || i in flight
  }

  ghost predicate Inv(g: Gate, cap: nat) {
    && Numbered(g) && Sorted(g.times) && (g.times != [] ==> g.times[|g.times| - 1] <= g.clock)
    && Held(g.times, g.window, g.flight, g.clock)
    && Spaced(g.times, cap)
  }

  lemma {:induction false} PurgedKeepsRecent(times: seq<real>, window: seq<nat>, now: real, i: nat)
    requires forall j :: 0 <= j < |window| ==> window[j] < |times|
    ensures forall j :: 0 <= j < |Purged(times, window, now)| ==> Purged(times, window, now)[j] < |times|
    ensures i < |times| && now - times[i] < SPAN && i in window ==> i in Purged(times, window, now)
  {
    if window != [] && now - times[window[0]] >= SPAN {
      PurgedKeepsRecent(times, window[1..], now, i);
      if i in window {
        HeadOrTail(window, i);
      }
    }
  }

  lemma HeadOrTail(s: seq<nat>, i: nat)
    requires i in s
    ensures i == s[0] || i in s[1..]
  {
    var k :| 0 <= k < |s| && s[k] == i;
    assert k > 0 ==> s[1..][k - 1] == i;
  }

  lemma PurgeKeepsHeld(g: Gate, now: real)
    requires Numbered(g) && Held(g.times, g.window, g.flight, g.clock) && g.clock <= now
    ensures Held(g.times, Purged(g.times, g.window, now), g.flight, now)
    ensures var kept := Purged(g.times, g.window, now);
            forall i :: 0 <= i < |kept| ==> kept[i] < |g.times|
  {
    forall i: nat
      ensures i < |g.times| && now - g.times[i] < SPAN && i in g.window ==> i in Purged(g.times, g.window, now)
    {
      PurgedKeepsRecent(g.times, g.window, now, i);
    }
    PurgedKeepsRecent(g.times, g.window, now, 0);
    hide Purged;
  }

  lemma {:induction false} AtMostLength(s: seq<nat>)
    ensures |Elements(s)| <= |s|
  {
    if s == [] {
      assert Elements(s) == {};
    } else {
      AtMostLength(s[1..]);
      assert Elements(s) == {s[0]} + Elements(s[1..]);
    }
  }

  function Range(low: nat, high: nat): set<nat> {
    if high <= low then {} else Range(low, high - 1) + {high - 1}
  }

  lemma {:induction false} RangeIs(low: nat, high: nat)
    requires low <= high
    ensures |Range(low, high)| == high - low && forall i: nat :: i in Range(low, high) <==> low <= i < high
    decreases high
  {
    if low < high {
      RangeIs(low, high - 1);
    }
  }

  lemma SubsetSize(a: set<nat>, b: set<nat>)
    requires a <= b
    ensures |a| <= |b|
  {
    assert b == a + (b - a);
  }

  /** Admissions that are all recent are in the window or on their way. */
  lemma RecentAreHeld(times: seq<real>, kept: seq<nat>, flight: set<nat>, now: real, low: nat)
    requires Sorted(times) && low < |times| && now - times[low] < SPAN
    requires Held(times, kept, flight, now)
    ensures |times| - low <= |kept| + |flight|
  {
    RangeIs(low, |times|);
    var recent := Range(low, |times|);
    forall i | i in recent ensures i in Elements(kept) + flight {
      assert times[low] <= times[i];
    }
    hide Range;
    AtMostLength(kept);
    SubsetSize(recent, Elements(kept) + flight);
  }

  /** So a minute cannot hold more admissions than the window and the flights together. */
  lemma RecentFit(times: seq<real>, kept: seq<nat>, flight: set<nat>, now: real, cap: nat)
    requires Sorted(times) && 0 < cap <= |times| && |kept| + |flight| < cap
    requires Held(times, kept, flight, now)
    ensures now - times[|times| - cap] >= SPAN
  {
    if now - times[|times| - cap] < SPAN {
      RecentAreHeld(times, kept, flight, now, |times| - cap);
    }
  }

  lemma SpacedMore(times: seq<real>, cap: nat, now: real)
    requires Spaced(times, cap) && cap > 0 && (cap <= |times| ==> now - times[|times| - cap] >= SPAN)
    ensures Spaced(times + [now], cap)
  {
    var more := times + [now];
    forall i {:trigger more[i]} | 0 <= i < |more| - cap ensures more[i + cap] - more[i] >= SPAN {
      if i + cap < |times| {
        assert times[i + cap] - times[i] >= SPAN;
      }
    }
  }

  lemma SortedMore(times: seq<real>, now: real)
    requires Sorted(times) && (times != [] ==> times[|times| - 1] <= now)
    ensures Sorted(times + [now])
  {
  }

  lemma HeldMore(times: seq<real>, kept: seq<nat>, flight: set<nat>, now: real)
    requires Held(times, kept, flight, now)
    ensures Held(times + [now], kept, flight + {|times|}, now)
  {
  }

  lemma AdmitKeeps(g: Gate, kept: seq<nat>, limit: int, m: nat, now: real)
    requires 1 <= limit && 1 <= m && Inv(g, limit + m - 1) && g.clock <= now && |g.flight| < m && |kept| < limit
    requires Held(g.times, kept, g.flight, now) && Numbered(g.(window := kept))
    ensures Inv(Gate(g.times + [now], kept, g.flight + {|g.times|}, now), limit + m - 1)
  {
    hide Spaced, Sorted, Held;
    var cap := limit + m - 1;
    HeldMore(g.times, kept, g.flight, now);
    if cap <= |g.times| {
      RecentFit(g.times, kept, g.flight, now, cap);
    }
    SpacedMore(g.times, cap, now);
    SortedMore(g.times, now);
  }

  lemma DenyKeeps(g: Gate, kept: seq<nat>, cap: nat, now: real)
    requires Inv(g, cap) && g.clock <= now
    requires Held(g.times, kept, g.flight, now) && Numbered(g.(window := kept))
    ensures Inv(g.(window := kept, clock := now), cap)
  {
    hide Spaced, Sorted, Held;
  }

  lemma AppendKeeps(g: Gate, cap: nat, id: nat)
    requires Inv(g, cap) && id in g.flight
    ensures Inv(g.(window := g.window + [id], flight := g.flight - {id}), cap)
  {
    hide Spaced, Sorted;
  }

  lemma StepKeeps(g: Gate, next: Gate, limit: int, m: nat, e: Event)
    requires 1 <= limit && 1 <= m && Inv(g, limit + m - 1) && StepAt(g, next, limit, m, e) && |g.flight| <= m
    ensures Inv(next, limit + m - 1) && |next.flight| <= m
  {
    match e
    case Append(id) => AppendKeeps(g, limit + m - 1, id);
    case Check(now) =>
      PurgeKeepsHeld(g, now);
      hide Purged, Held, Spaced, Sorted;
      var kept := Purged(g.times, g.window, now);
      if |kept| < limit {
        assert |g.flight + {|g.times|}| == |g.flight| + 1;
        AdmitKeeps(g, kept, limit, m, now);
      } else {
        DenyKeeps(g, kept, limit + m - 1, now);
      }
  }

  lemma {:induction false} RunKeeps(gates: seq<Gate>, events: seq<Event>, limit: int, m: nat, i: nat)
    requires 1 <= limit && 1 <= m && IsRun(gates, events, limit, m) && i < |gates|
    ensures Inv(gates[i], limit + m - 1) && |gates[i].flight| <= m
  {
    hide StepAt;
    if i > 0 {
      RunKeeps(gates, events, limit, m, i - 1);
      hide Inv;
      StepKeeps(gates[i - 1], gates[i], limit, m, events[i - 1]);
    }
  }

  /** With at most `m` requests of one client overlapping, no 60 seconds hold more than `m - 1`
      admissions above the limit. */
  lemma OverlapOvershootsByAtMost(gates: seq<Gate>, events: seq<Event>, limit: int, m: nat, s: real)
    requires 1 <= limit && 1 <= m && IsRun(gates, events, limit, m)
    ensures Within(gates[|events|].times, s) <= limit + m - 1
  {
    RunKeeps(gates, events, limit, m, |events|);
    hide StepAt;
    AnySpanHoldsAtMost(gates[|events|].times, limit + m - 1, s);
  }

  // ---- it is overshot ----

  function Zeros(n: nat): seq<real> {
    if n == 0 then [] else Zeros(n - 1) + [0.0]
  }

  function Upto(n: nat): seq<nat> {
    if n == 0 then [] else Upto(n - 1) + [n - 1]
  }

  lemma {:induction false} ZerosAre(n: nat)
    ensures |Zeros(n)| == n && |Upto(n)| == n
    ensures forall i :: 0 <= i < n ==> Zeros(n)[i] == 0.0 && Upto(n)[i] < n
    ensures Within(Zeros(n), 0.0) == n
  {
    if n > 0 {
      ZerosAre(n - 1);
      WithinSnoc(Zeros(n - 1), 0.0, 0.0);
    }
  }

  ghost predicate EndsAt(gates: seq<Gate>, events: seq<Event>, limit: int, m: nat, g: Gate) {
    IsRun(gates, events, limit, m) && |gates| == |events| + 1 && gates[|events|] == g
  }

  lemma Extend(gates: seq<Gate>, events: seq<Event>, limit: int, m: nat, g: Gate, e: Event, next: Gate)
    returns (gates': seq<Gate>, events': seq<Event>)
    requires EndsAt(gates, events, limit, m, g) && StepAt(g, next, limit, m, e)
    ensures EndsAt(gates', events', limit, m, next)
  {
    hide StepAt;
    gates', events' := gates + [next], events + [e];
  }

  lemma ZerosGrow(n: nat)
    ensures Zeros(n + 1) == Zeros(n) + [0.0] && Upto(n + 1) == Upto(n) + [n]
  {
  }

  /** The `k`-th request is admitted with `n` in the window, and the others on their way. */
  lemma AdmitsAtZero(n: nat, k: nat, flight: set<nat>, limit: int, m: nat)
    requires n < limit && n <= k && (forall i :: i in flight ==> i < k) && |flight| < m
    ensures StepAt(Gate(Zeros(k), Upto(n), flight, 0.0), Gate(Zeros(k + 1), Upto(n), flight + {k}, 0.0), limit, m,
                   Check(0.0))
  {
    ZerosAre(n);
    ZerosAre(k);
    ZerosGrow(k);
    hide Zeros, Upto;
    assert |flight + {k}| == |flight| + 1;
  }

  lemma AppendsAtZero(n: nat, limit: int, m: nat)
    ensures StepAt(Gate(Zeros(n + 1), Upto(n), {} + {n}, 0.0), Gate(Zeros(n + 1), Upto(n + 1), {}, 0.0), limit, m,
                   Append(n))
  {
    ZerosAre(n);
    ZerosAre(n + 1);
    ZerosGrow(n);
    hide Zeros, Upto;
    assert {} + {n} - {n} == {};
  }

  /** `n` requests one after the other at the same instant. */
  lemma {:induction false} SerialRun(n: nat, limit: int, m: nat) returns (gates: seq<Gate>, events: seq<Event>)
    requires n <= limit && 1 <= m
    ensures EndsAt(gates, events, limit, m, Gate(Zeros(n), Upto(n), {}, 0.0))
  {
    if n == 0 {
      gates, events := [OPEN], [];
    } else {
      gates, events := SerialRun(n - 1, limit, m);
      AdmitsAtZero(n - 1, n - 1, {}, limit, m);
      AppendsAtZero(n - 1, limit, m);
      hide Zeros, Upto, StepAt, EndsAt;
      var g0, g1 := Gate(Zeros(n - 1), Upto(n - 1), {}, 0.0), Gate(Zeros(n), Upto(n - 1), {} + {n - 1}, 0.0);
      gates, events := Extend(gates, events, limit, m, g0, Check(0.0), g1);
      gates, events := Extend(gates, events, limit, m, g1, Append(n - 1), Gate(Zeros(n), Upto(n), {}, 0.0));
    }
  }

  /** All but one of the limit's requests in turn, then two at once. */
  lemma TwoAtOnce(limit: nat, m: nat) returns (gates: seq<Gate>, events: seq<Event>)
    requires 1 <= limit && 2 <= m
    ensures EndsAt(gates, events, limit, m, Gate(Zeros(limit + 1), Upto(limit - 1), {} + {limit - 1} + {limit}, 0.0))
  {
    var n := limit - 1;
    gates, events := SerialRun(n, limit, m);
    AdmitsAtZero(n, n, {}, limit, m);
    AdmitsAtZero(n, limit, {} + {n}, limit, m);
    hide Zeros, Upto, StepAt, EndsAt;
    var g0, g1 := Gate(Zeros(n), Upto(n), {}, 0.0), Gate(Zeros(limit), Upto(n), {} + {n}, 0.0);
    gates, events := Extend(gates, events, limit, m, g0, Check(0.0), g1);
    gates, events := Extend(gates, events, limit, m, g1, Check(0.0),
                            Gate(Zeros(limit + 1), Upto(n), {} + {n} + {limit}, 0.0));
  }

  lemma TwoAtOnceOvershoot(limit: nat, m: nat) returns (gates: seq<Gate>, events: seq<Event>)
    requires 1 <= limit && 2 <= m
    ensures IsRun(gates, events, limit, m) && |gates| == |events| + 1
    ensures Within(gates[|events|].times, 0.0) == limit + 1
  {
    hide Zeros, Upto, Within, IsRun;
    gates, events := TwoAtOnce(limit, m);
    WithinZeros(limit + 1);
  }

  lemma WithinZeros(n: nat)
    ensures Within(Zeros(n), 0.0) == n
  {
    ZerosAre(n);
  }

  /** No 60 seconds hold more than `limit` admissions. */
  ghost predicate WithinLimit(times: seq<real>, limit: int) {
    forall s: real :: Within(times, s) <= limit
  }

  /** The limit holds in every run with at most `m` overlapping requests exactly when `m` is one. */
  lemma LimitHoldsIffNoOverlap(limit: nat, m: nat)
    requires 1 <= limit && 1 <= m
    ensures (forall gates: seq<Gate>, events: seq<Event> {:trigger IsRun(gates, events, limit, m)} ::
               IsRun(gates, events, limit, m) ==> WithinLimit(gates[|events|].times, limit))
            <==> m == 1
  {
    hide StepAt, Within;
    if m == 1 {
      forall gates: seq<Gate>, events: seq<Event> {:trigger IsRun(gates, events, limit, m)} |
        IsRun(gates, events, limit, m)
        ensures WithinLimit(gates[|events|].times, limit)
      {
        forall s: real ensures Within(gates[|events|].times, s) <= limit {
          OverlapOvershootsByAtMost(gates, events, limit, m, s);
        }
      }
    } else {
      var gates, events := TwoAtOnceOvershoot(limit, m);
      assert !WithinLimit(gates[|events|].times, limit);
    }
  }
}

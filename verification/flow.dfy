/** The analytics object: one flow state per active symbol and the message statistics. */
module FlowAnalytics {
  import opened Prelude
  import opened FlowSpec

  const MAX_SYMBOLS := 200

  datatype Stats = Stats(accepted: nat, malformed: nat, duplicate: nat, outOfOrder: nat, inactive: nat)

  function Counted(s: Stats, v: Verdict): Stats {
    match v
    case Malformed => s.(malformed := s.malformed + 1)
    case Duplicate => s.(duplicate := s.duplicate + 1)
    case OutOfOrder => s.(outOfOrder := s.outOfOrder + 1)
    case Accepted => s.(accepted := s.accepted + 1)
  }

  class SpotAnalytics {
    const maxLagMs: int
    var active: set<Symbol>
    var states: map<Symbol, Flow>
    var stats: Stats
    /** Trade messages handled so far. */
    ghost var handled: nat

    ghost predicate Valid()
      reads this
    {
      && states.Keys == active && |active| <= MAX_SYMBOLS
      && handled == stats.accepted + stats.malformed + stats.duplicate + stats.outOfOrder
      && stats.inactive <= stats.malformed
    }

    constructor (maxLagMs: int)
      ensures Valid() && active == {} && handled == 0 && this.maxLagMs == maxLagMs
    {
      this.maxLagMs := maxLagMs;
      active, states := {}, map[];
      stats, handled := Stats(0, 0, 0, 0, 0), 0;
    }

    /** Keeps the states of the symbols that stay, starts the others afresh. */
    method SetSymbols(symbols: set<Symbol>) returns (ok: bool)
      requires Valid()
      modifies `active, `states
      ensures Valid() && (ok <==> |symbols| <= MAX_SYMBOLS)
      ensures !ok ==> active == old(active) && states == old(states)
      ensures ok ==> states == map s | s in symbols :: if s in old(states) then old(states)[s] else NEW_FLOW
    {
      if |symbols| > MAX_SYMBOLS {
        return false;
      }
      active := symbols;
      var missing := symbols - states.Keys;
      var gone := states.Keys - symbols;
      states := states + (map s | s in missing :: NEW_FLOW);
      states := states - gone;
      return true;
    }

    method ResetConnection()
      requires Valid()
      modifies `states
      ensures Valid() && states == map s | s in active :: NEW_FLOW
    {
      states := map s | s in active :: NEW_FLOW;
    }

    /** One trade message: exactly one statistic counts it, and only an accepted one changes the
        flow of its symbol, and of no other. */
    method IngestAggTrade(symbol: Option<Symbol>, raw: RawTrade, mono: Instant, wall: real) returns (v: Verdict)
      requires Valid()
      modifies `states, `stats, `handled
      ensures Valid() && handled == old(handled) + 1
      ensures v == if symbol.Some? && symbol.value in active && Parse(raw, mono, wall, maxLagMs).Some?
                   then Judge(old(states)[symbol.value], Parse(raw, mono, wall, maxLagMs).value)
                   else Malformed
      ensures active == old(active)
      ensures !v.Accepted? ==> states == old(states)
      ensures v.Accepted? ==>
                states == old(states)[symbol.value :=
                            Accept(old(states)[symbol.value], Parse(raw, mono, wall, maxLagMs).value)]
      ensures stats.accepted == old(stats.accepted) + (if v.Accepted? then 1 else 0)
      ensures stats.malformed == old(stats.malformed) + (if v.Malformed? then 1 else 0)
      ensures stats.duplicate == old(stats.duplicate) + (if v.Duplicate? then 1 else 0)
      ensures stats.outOfOrder == old(stats.outOfOrder) + (if v.OutOfOrder? then 1 else 0)
      ensures stats.inactive == old(stats.inactive)
                                + (if symbol.Some? && Parse(raw, mono, wall, maxLagMs).Some? && symbol.value !in active
                                   then 1 else 0)
    {
      handled := handled + 1;
      var parsed := if symbol.Some? then Parse(raw, mono, wall, maxLagMs) else None;
      if parsed.None? {
        stats := Counted(stats, Malformed);
        return Malformed;
      }
      if symbol.value !in active {
        stats := Counted(stats, Malformed).(inactive := stats.inactive + 1);
        return Malformed;
      }
      var f := states[symbol.value];
      v := Judge(f, parsed.value);
      stats := Counted(stats, v);
      if v.Accepted? {
        var t := parsed.value;
        if Gap(f, t) {
          f := f.(buckets := [], cvd := 0.0, startedWall := None);
        }
        var buckets := PurgeFront(f.buckets, mono);
        buckets := Deposit(buckets, t);
        f := Flow(buckets, Some(t.id), Some(t.eventMs), Some(mono), f.cvd + Signed(t),
                  if f.startedWall.None? then Some(wall) else f.startedWall);
        states := states[symbol.value := f];
      }
    }

    /** Pops old buckets from the left. */
    method PurgeFront(buckets: seq<Bucket>, now: Instant) returns (rest: seq<Bucket>)
      ensures rest == Purge(buckets, now)
    {
      rest := buckets;
      while rest != [] && rest[0].second < now.Floor - 65
        invariant Purge(rest, now) == Purge(buckets, now)
        decreases |rest|
      {
        rest := rest[1..];
      }
    }

    /** The figures of one window of one symbol; reading them purges that symbol's buckets. */
    method ReadWindow(symbol: Symbol, now: Instant, seconds: nat) returns (sum: Totals)
      requires Valid() && symbol in active && seconds <= 65
      modifies `states
      ensures Valid()
      ensures states == old(states)[symbol := old(states)[symbol].(buckets := Purge(old(states)[symbol].buckets, now))]
      ensures sum == Window(old(states)[symbol].buckets, Since(now, seconds))
    {
      var rest := PurgeFront(states[symbol].buckets, now);
      assert Recent(Since(now, seconds), now);
      PurgeKeepsWindow(states[symbol].buckets, now, Since(now, seconds));
      states := states[symbol := states[symbol].(buckets := rest)];
      sum := SumSelected(rest, now, seconds);
    }

    method SumSelected(buckets: seq<Bucket>, now: Instant, seconds: nat) returns (sum: Totals)
      ensures sum == Window(buckets, Since(now, seconds))
    {
      hide Window;
      sum := NOTHING;
      NoBuckets(Since(now, seconds));
      for i := 0 to |buckets|
        invariant sum == Window(buckets[..i], Since(now, seconds))
      {
        PrefixSnoc(buckets, i);
        WindowOfAppend(buckets[..i], buckets[i], Since(now, seconds));
        if buckets[i].second as real >= now - seconds as real {
          sum := Add(sum, buckets[i].totals);
        }
      }
      assert buckets[..|buckets|] == buckets;
    }
  }
}

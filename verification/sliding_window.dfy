/** A list of recent grant times, purged on use, as a limiter over the whole history of grants. */
module SlidingWindow {
  const SPAN := 60.0

  ghost predicate Sorted(h: seq<real>) {
    forall i, j :: 0 <= i <= j < |h| ==> h[i] <= h[j]
  }

  /** The times less than a span old. */
  function Recent(calls: seq<real>, now: real): seq<real> {
    if calls == [] then []
    else (if now - calls[0] < SPAN then [calls[0]] else []) + Recent(calls[1..], now)
  }

  /** It keeps each time exactly as often as it was there if that is less than a minute ago. */
  lemma {:induction false} RecentIsTheLastMinute(calls: seq<real>, now: real, t: real)
    ensures multiset(Recent(calls, now))[t] == if now - t < 60.0 then multiset(calls)[t] else 0
  {
    if calls != [] {
      RecentIsTheLastMinute(calls[1..], now, t);
      assert calls == [calls[0]] + calls[1..];
      assert multiset(calls)[t] == (if calls[0] == t then 1 else 0) + multiset(calls[1..])[t];
    }
  }

  lemma RecentFrom(calls: seq<real>, i: nat, now: real, kept: seq<real>)
    requires i < |calls|
    ensures kept + Recent(calls[i..], now)
            == (if now - calls[i] < SPAN then kept + [calls[i]] else kept) + Recent(calls[i + 1..], now)
  {
    assert calls[i..][1..] == calls[i + 1..];
    var rest := Recent(calls[i + 1..], now);
    assert Recent(calls[i..], now) == (if now - calls[i] < SPAN then [calls[i]] else []) + rest;
    hide Recent;
    assert kept + ([calls[i]] + rest) == (kept + [calls[i]]) + rest;
  }

  lemma NothingRecent(now: real, kept: seq<real>)
    ensures kept + Recent([], now) == kept
  {
  }

  /** The same by dropping old times from the front only. */
  function DropOld(calls: seq<real>, now: real): seq<real> {
    if calls != [] && now - calls[0] >= SPAN then DropOld(calls[1..], now) else calls
  }

  /** How many times of `h` fall in the half-open minute that starts at `s`. */
  function Within(h: seq<real>, s: real): nat {
    if h == [] then 0
    else Within(h[..|h| - 1], s) + (if s <= h[|h| - 1] < s + 60.0 then 1 else 0)
  }

  /** Any grant is a full span after the grant `cap` places before it. */
  ghost predicate Spaced(h: seq<real>, cap: nat) {
    forall i {:trigger h[i]} :: 0 <= i < |h| - cap ==> h[i + cap] - h[i] >= SPAN
  }

  /** `calls` is what is left of the history `h` at time `c`: a suffix, and all before it is old. */
  ghost predicate Tracks(calls: seq<real>, h: seq<real>, c: real) {
    && Sorted(h) && (h != [] ==> h[|h| - 1] <= c)
    && |calls| <= |h| && calls == h[|h| - |calls|..]
    && forall i :: 0 <= i < |h| - |calls| ==> c - h[i] >= SPAN
  }

  lemma {:induction false} WithinAtMost(h: seq<real>, s: real, gone: nat)
    requires gone <= |h| && forall i :: 0 <= i < gone ==> h[i] < s
    ensures Within(h, s) <= |h| - gone
  {
    if h != [] {
      var last := |h| - 1;
      if gone == |h| {
        WithinAtMost(h[..last], s, last);
      } else {
        WithinAtMost(h[..last], s, gone);
      }
    }
  }

  /** Spacing by index means: every span of 60 seconds, wherever it starts, holds at most `cap`. */
  lemma {:induction false} AnySpanHoldsAtMost(h: seq<real>, cap: nat, s: real)
    requires Sorted(h) && Spaced(h, cap) && (cap == 0 ==> h == [])
    ensures Within(h, s) <= cap
  {
    if |h| <= cap {
      WithinAtMost(h, s, 0);
    } else {
      var last := |h| - 1;
      var front := h[..last];
      assert Sorted(front);
      assert Spaced(front, cap) by {
        forall i {:trigger front[i]} | 0 <= i < |front| - cap ensures front[i + cap] - front[i] >= SPAN {
          assert h[i + cap] - h[i] >= SPAN;
        }
      }
      if s <= h[last] < s + SPAN {
        var gone := |h| - cap;
        assert h[gone - 1] < s by {
          assert h[gone - 1 + cap] - h[gone - 1] >= SPAN;
        }
        WithinAtMost(h, s, gone);
      } else {
        AnySpanHoldsAtMost(front, cap, s);
      }
    }
  }

  lemma {:induction false} RecentIsDropOld(calls: seq<real>, now: real)
    requires Sorted(calls)
    ensures Recent(calls, now) == DropOld(calls, now)
  {
    if calls != [] {
      RecentIsDropOld(calls[1..], now);
      if now - calls[0] < SPAN {
        AllRecent(calls[1..], now);
        assert [calls[0]] + calls[1..] == calls;
      }
    }
  }

  lemma {:induction false} AllRecent(calls: seq<real>, now: real)
    requires forall i :: 0 <= i < |calls| ==> now - calls[i] < SPAN
    ensures Recent(calls, now) == calls
  {
    if calls != [] {
      AllRecent(calls[1..], now);
      assert [calls[0]] + calls[1..] == calls;
    }
  }

  lemma TracksSorted(calls: seq<real>, h: seq<real>, c: real)
    requires Tracks(calls, h, c)
    ensures Sorted(calls)
  {
    var k := |h| - |calls|;
    assert forall i :: 0 <= i < |calls| ==> calls[i] == h[k + i];
  }

  lemma LaterTracks(calls: seq<real>, h: seq<real>, c: real, later: real)
    requires Tracks(calls, h, c) && c <= later
    ensures Tracks(calls, h, later)
  {
  }

  lemma TracksPop(calls: seq<real>, h: seq<real>, c: real, now: real)
    requires Tracks(calls, h, c) && c <= now && calls != [] && now - calls[0] >= SPAN
    ensures Tracks(calls[1..], h, now)
  {
    var rest := calls[1..];
    assert rest == h[|h| - |rest|..];
  }

  /** Purging loses nothing that a later limit check would count. */
  lemma {:induction false} PurgeTracks(calls: seq<real>, h: seq<real>, c: real, now: real)
    requires Tracks(calls, h, c) && c <= now
    ensures Tracks(DropOld(calls, now), h, now)
    ensures Recent(calls, now) == DropOld(calls, now)
    decreases |calls|
  {
    hide Recent;
    TracksSorted(calls, h, c);
    RecentIsDropOld(calls, now);
    if calls != [] && now - calls[0] >= SPAN {
      TracksPop(calls, h, c, now);
      PurgeTracks(calls[1..], h, now, now);
    } else {
      LaterTracks(calls, h, c, now);
    }
  }

  /** A grant allowed by a purged list shorter than the cap keeps the spacing. */
  lemma GrantKeeps(calls: seq<real>, h: seq<real>, c: real, cap: nat, at: real)
    requires Tracks(calls, h, c) && Spaced(h, cap) && |calls| < cap && c <= at
    ensures Tracks(calls + [at], h + [at], at) && Spaced(h + [at], cap)
  {
    var h' := h + [at];
    assert calls + [at] == h'[|h'| - |calls + [at]|..];
    forall i {:trigger h'[i]} | 0 <= i < |h'| - cap ensures h'[i + cap] - h'[i] >= SPAN {
      if i + cap < |h| {
        assert h[i + cap] - h[i] >= SPAN;
      } else {
        assert i < |h| - |calls|;
      }
    }
  }

  /** What the purged list answers is what the whole history answers. */
  lemma {:induction false} PurgingChangesNoAnswer(calls: seq<real>, h: seq<real>, c: real, now: real)
    requires Tracks(calls, h, c) && c <= now
    ensures Recent(calls, now) == Recent(h, now)
    decreases |h|
  {
    if |calls| < |h| {
      TracksTail(calls, h, c);
      PurgingChangesNoAnswer(calls, h[1..], c, now);
      assert now - h[0] >= SPAN;
      hide Tracks;
      OldHeadIsNotRecent(h, now);
    } else {
      assert calls == h;
    }
  }

  lemma TracksTail(calls: seq<real>, h: seq<real>, c: real)
    requires Tracks(calls, h, c) && |calls| < |h|
    ensures Tracks(calls, h[1..], c)
  {
    var rest := h[1..];
    assert rest[|rest| - |calls|..] == h[|h| - |calls|..];
  }

  lemma OldHeadIsNotRecent(h: seq<real>, now: real)
    requires h != [] && now - h[0] >= SPAN
    ensures Recent(h, now) == Recent(h[1..], now)
  {
  }

  lemma WithinSnoc(h: seq<real>, t: real, s: real)
    ensures Within(h + [t], s) == Within(h, s) + (if s <= t < s + SPAN then 1 else 0)
  {
    assert (h + [t])[..|h|] == h;
  }
}

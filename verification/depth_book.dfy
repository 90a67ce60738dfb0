/** The mutable depth book. Every method is proved to do exactly one step of `BookSpec`. */
module DepthBooks {
  import opened Prelude
  import opened Ranking
  import opened BookSpec
  import BookTruth

  datatype DepthView =
    | Unavailable
    | FreshView(bidQuote: real, askQuote: real, imbalance: real, bestBid: real, bestAsk: real)

  class DepthBook {
    const limits: Limits
    /** Distinguishes book objects; object identity in the program. */
    ghost const id: nat
    var epoch: nat
    var resets: nat
    var levels: Levels
    var sequence: Option<nat>
    var buffer: seq<Update>
    var status: Status
    var pending: bool
    var retryAt: real

    ghost function State(): Book
      reads this
    {
      Book(limits, epoch, resets, levels, sequence, buffer, status, pending, retryAt)
    }

    constructor (limits: Limits, ghost id: nat)
      ensures State() == BookSpec.Fresh(limits) && this.id == id
    {
      this.limits, this.id := limits, id;
      epoch, resets, pending, retryAt := 0, 0, false, 0.0;
      levels := Levels(map[], map[], 0.0, 0.0);
      sequence, buffer, status := None, [], Status(false, NotInitialised, None);
      new;
      Reset(NotInitialised);
    }

    method Reset(why: Reason)
      modifies this
      ensures State() == BookSpec.Reset(old(State()), why)
      ensures epoch == old(epoch) + 1 && resets == old(resets) + 1 && levels.bids == map[] && levels.asks == map[]
      ensures sequence == None && buffer == [] && status == Status(false, why, None) && !pending
      ensures retryAt == old(retryAt) && levels.bidFloor == old(levels).bidFloor
    {
      epoch := epoch + 1;
      resets := resets + 1;
      levels := levels.(bids := map[], asks := map[]);
      sequence := None;
      buffer := [];
      status := Status(false, why, None);
      pending := false;
    }

    method Delta(raw: RawDelta, now: real) returns (applied: bool)
      modifies this
      ensures State() == BookSpec.Delta(old(State()), raw, now)
      ensures applied <==> old(sequence).Some? && sequence.Some? && old(sequence).value < sequence.value
      ensures applied ==> status.ready && epoch == old(epoch)
    {
      var parsed := ParseDelta(raw, now);
      if parsed.None? {
        Reset(MalformedDepth);
        return false;
      }
      if sequence.None? {
        if |buffer| >= limits.maxBuffer {
          Reset(BufferOverflow);
        }
        buffer := buffer + [parsed.value];
        return false;
      }
      applied := Apply(parsed.value);
    }

    method Apply(u: Update) returns (applied: bool)
      requires sequence.Some?
      modifies this
      ensures State() == BookSpec.Apply(old(State()), u)
      ensures applied <==> sequence.Some? && old(sequence).value < sequence.value
      ensures applied ==> status.ready && epoch == old(epoch)
    {
      if u.last <= sequence.value {
        return false;
      }
      if !(u.first <= sequence.value + 1 <= u.last) {
        Reset(SequenceGap);
        buffer := buffer + [u];
        return false;
      }
      ghost var before := State();
      MergeRows(u);
      var verdict := Verdict(limits, levels);
      applied := Settle(u, verdict, before);
    }

    /** Writes the changed levels into the two sides, row by row. */
    method MergeRows(u: Update)
      modifies `levels
      ensures levels == Merge(old(levels), u)
    {
      var bids, asks := levels.bids, levels.asks;
      for i := 0 to |u.bids|
        invariant bids == PutAll(levels.bids, u.bids[..i])
      {
        assert u.bids[..i + 1][..i] == u.bids[..i];
        if u.bids[i].quantity != 0.0 {
          bids := bids[u.bids[i].price := u.bids[i].quantity];
        } else {
          bids := bids - {u.bids[i].price};
        }
      }
      assert u.bids[..|u.bids|] == u.bids;
      for i := 0 to |u.asks|
        invariant asks == PutAll(levels.asks, u.asks[..i])
      {
        assert u.asks[..i + 1][..i] == u.asks[..i];
        if u.asks[i].quantity != 0.0 {
          asks := asks[u.asks[i].price := u.asks[i].quantity];
        } else {
          asks := asks - {u.asks[i].price};
        }
      }
      assert u.asks[..|u.asks|] == u.asks;
      levels := levels.(bids := bids, asks := asks);
    }

    /** Keeps the merged levels, or empties the book when a check failed. */
    method Settle(u: Update, verdict: Option<Reason>, ghost before: Book) returns (accepted: bool)
      requires State() == before.(levels := Merge(before.levels, u))
      modifies this
      ensures State() == BookSpec.Settle(before, Merge(before.levels, u), u, verdict)
      ensures accepted <==> verdict.None?
    {
      if verdict.Some? {
        Reset(verdict.value);
        return false;
      }
      sequence := Some(u.last);
      status := Status(true, SequenceVerified, Some(u.received));
      return true;
    }

    method Snapshot(raw: RawSnapshot, requestEpoch: nat) returns (verified: bool)
      modifies this
      ensures State() == BookSpec.Snapshot(old(State()), raw, requestEpoch)
      ensures verified <==> requestEpoch == old(epoch) && status.ready
    {
      if requestEpoch != epoch {
        return false;
      }
      if !SnapshotOk(limits, raw) {
        Reset(InvalidSnapshot);
        return false;
      }
      var buffered := buffer;
      Install(raw.lastId, SnapshotLevels(raw));
      ReplayAll(buffered);
      return status.ready;
    }

    method Install(seqNo: nat, l: Levels)
      modifies this
      ensures State() == Installed(old(State()), seqNo, l)
    {
      levels, sequence := l, Some(seqNo);
      buffer := [];
      pending := false;
      status := status.(ready := false, reason := WaitingForBridge);
    }

    /** Applies the buffered updates until one of them resets the book. */
    method ReplayAll(buffered: seq<Update>)
      modifies this
      ensures State() == Replay(old(State()), buffered)
    {
      var i := 0;
      while i < |buffered| && sequence.Some?
        invariant 0 <= i <= |buffered|
        invariant Replay(old(State()), buffered) == Replay(State(), buffered[i..])
      {
        var _ := Apply(buffered[i]);
        assert buffered[i..][1..] == buffered[i + 1..];
        i := i + 1;
      }
    }

    /** The 20-level summary published to readers; only a verified and recent book yields one. */
    method View(now: real, maxAgeMs: real) returns (v: DepthView)
      requires BookTruth.WellFormed(State())
      ensures v.FreshView? <==> status.ready && MaxR(0.0, (now - status.received.value) * 1000.0) <= maxAgeMs
      ensures v.FreshView? ==>
                && v.bidQuote == Quote(levels.bids, Top20(levels.bids, true)) > 0.0
                && v.askQuote == Quote(levels.asks, Top20(levels.asks, false)) > 0.0
                && -1.0 < v.imbalance < 1.0
                && v.imbalance * (v.bidQuote + v.askQuote) == v.bidQuote - v.askQuote
                && v.bestBid == Best(levels.bids.Keys, true) && v.bestAsk == Best(levels.asks.Keys, false)
                && v.bestBid < v.bestAsk
    {
      if !status.ready || MaxR(0.0, (now - status.received.value) * 1000.0) > maxAgeMs {
        return Unavailable;
      }
      BookTruth.ImbalanceIsProper(State());
      assert |levels.bids.Keys| == |levels.bids| && |levels.asks.Keys| == |levels.asks|;
      var topBids, topAsks := Top20(levels.bids, true), Top20(levels.asks, false);
      var b, a := Quote(levels.bids, topBids), Quote(levels.asks, topAsks);
      v := FreshView(b, a, (b - a) / (b + a), topBids[0], topAsks[0]);
    }
  }
}

/** The exchange's own book as ghost history, and the refinement theorem: a verified local book
    holds the exchange's best levels although it only ever saw a prefix of the book and an
    arbitrarily lossy, repeated and reordered message stream. */
module BookTruth {
  import opened Prelude
  import opened Ranking
  import opened BookSpec

  datatype Depth = Depth(bids: Side, asks: Side)

  /** The exchange's book after each update id. */
  type History = nat -> Depth

  function SideOf(d: Depth, high: bool): Side {
    if high then d.bids else d.asks
  }

  function At(side: Side, p: real): real {
    if p in side then side[p] else 0.0
  }

  predicate Positive(side: Side) {
    forall p :: p in side ==> p > 0.0 && side[p] > 0.0
  }

  ghost predicate Genuine(h: History) {
    forall k: nat, high: bool :: Positive(SideOf(h(k), high))
  }

  ghost predicate Touched(h: History, high: bool, k: nat, p: real) {
    1 <= k && At(SideOf(h(k), high), p) != At(SideOf(h(k - 1), high), p)
  }

  predicate Listed(rows: seq<Level>, p: real) {
    exists i :: 0 <= i < |rows| && rows[i].price == p
  }

  ghost predicate RowsTrue(side: Side, rows: seq<Level>) {
    forall i :: 0 <= i < |rows| ==> rows[i].quantity == At(side, rows[i].price)
  }

  /** The rows give the quantity at `last` of every level touched in `first..last`. */
  ghost predicate Carries(h: History, high: bool, first: nat, last: nat, rows: seq<Level>) {
    && RowsTrue(SideOf(h(last), high), rows)
    && forall k: nat, p: real :: first <= k <= last && Touched(h, high, k, p) ==> Listed(rows, p)
  }

  ghost predicate HonestUpdate(h: History, u: Update) {
    && Carries(h, true, u.first, u.last, u.bids)
    && Carries(h, false, u.first, u.last, u.asks)
  }

  /** The rows are a best-N prefix of the side. */
  ghost predicate BestPrefix(side: Side, high: bool, rows: seq<Level>) {
    && RowsTrue(side, rows)
    && forall i, p :: 0 <= i < |rows| && p in side && !Beats(high, rows[i].price, p) ==> Listed(rows, p)
  }

  ghost predicate HonestSnapshot(h: History, raw: RawSnapshot) {
    raw.RawSnapshot? && raw.lastId >= 0 ==>
      && BestPrefix(h(raw.lastId).bids, true, raw.bids)
      && BestPrefix(h(raw.lastId).asks, false, raw.asks)
  }

  /** Whatever is lost, repeated or reordered, a message that does parse is one the exchange sent. */
  ghost predicate HonestEvent(h: History, e: Event) {
    match e
    case DeltaArrives(raw, now) =>
      var parsed := ParseDelta(raw, now);
      parsed.Some? ==> HonestUpdate(h, parsed.value)
    case SnapshotArrives(raw, _) => HonestSnapshot(h, raw)
    case ResetRequested(why) => why != SequenceVerified
  }

  /** Every stored level is the exchange's, and nothing at or beyond `edge` is missing. */
  ghost predicate Faithful(local: Side, truth: Side, high: bool, edge: real) {
    && Positive(local)
    && (forall p :: p in local ==> p in truth && local[p] == truth[p])
    && CompleteTo(local.Keys, truth.Keys, high, edge)
  }

  predicate UpdateOk(u: Update) {
    u.first <= u.last && LevelsOk(u.bids) && LevelsOk(u.asks)
  }

  /** What a book with a sequence number holds. */
  ghost predicate LevelsSound(limits: Limits, l: Levels) {
    && LevelCountOk(limits, l)
    && Positive(l.bids) && Positive(l.asks)
    && !Crossed(l)
    && BothCovered(limits, l)
  }

  /** Structural invariant of every reachable book. */
  ghost predicate WellFormed(b: Book) {
    && (forall i :: 0 <= i < |b.buffer| ==> UpdateOk(b.buffer[i]))
    && |b.buffer| <= Max(1, b.limits.maxBuffer)
    && (b.status.ready <==> b.status.reason == SequenceVerified)
    && (b.status.ready ==> b.sequence.Some? && b.status.received.Some?)
    && (b.sequence.None? ==> b.levels.bids == map[] && b.levels.asks == map[])
    && (b.sequence.Some? ==> b.buffer == [] && LevelsSound(b.limits, b.levels))
  }

  ghost predicate LevelsFaithful(truth: Depth, l: Levels) {
    && Faithful(l.bids, truth.bids, true, l.bidFloor)
    && Faithful(l.asks, truth.asks, false, l.askCeiling)
  }

  /** The local book refines the exchange's history. */
  ghost predicate Refines(h: History, b: Book) {
    && (forall i :: 0 <= i < |b.buffer| ==> HonestUpdate(h, b.buffer[i]))
    && (b.sequence.Some? ==> LevelsFaithful(h(b.sequence.value), b.levels))
  }

  // ---- one side under one message ----

  lemma {:induction false} UntouchedIsConstant(h: History, high: bool, lo: nat, hi: nat, p: real)
    requires lo <= hi
    requires forall k: nat :: lo < k <= hi ==> !Touched(h, high, k, p)
    ensures At(SideOf(h(lo), high), p) == At(SideOf(h(hi), high), p)
    decreases hi
  {
    if lo < hi {
      UntouchedIsConstant(h, high, lo, hi - 1, p);
      assert !Touched(h, high, hi, p);
    }
  }

  lemma {:induction false} PutAllPositive(side: Side, rows: seq<Level>)
    requires Positive(side) && LevelsOk(rows)
    ensures Positive(PutAll(side, rows))
  {
    if rows != [] {
      PutAllPositive(side, rows[..|rows| - 1]);
    }
  }

  lemma {:induction false} CollectPositive(rows: seq<Level>)
    requires LevelsOk(rows)
    ensures Positive(Collect(rows))
  {
    if rows != [] {
      CollectPositive(rows[..|rows| - 1]);
    }
  }

  lemma ListedSplit(rows: seq<Level>, p: real)
    requires rows != []
    ensures Listed(rows, p) <==> Listed(rows[..|rows| - 1], p) || rows[|rows| - 1].price == p
  {
    var front := rows[..|rows| - 1];
    if Listed(front, p) {
      var i :| 0 <= i < |front| && front[i].price == p;
      assert rows[i].price == p;
    }
  }

  lemma {:induction false} PutAllAt(side: Side, truth: Side, rows: seq<Level>, p: real)
    requires RowsTrue(truth, rows)
    ensures At(PutAll(side, rows), p) == if Listed(rows, p) then At(truth, p) else At(side, p)
  {
    if rows != [] {
      PutAllAt(side, truth, rows[..|rows| - 1], p);
      ListedSplit(rows, p);
      assert rows[|rows| - 1].quantity == At(truth, rows[|rows| - 1].price);
    }
  }

  lemma {:induction false} CollectAt(truth: Side, rows: seq<Level>, p: real)
    requires RowsTrue(truth, rows)
    ensures At(Collect(rows), p) == if Listed(rows, p) then At(truth, p) else 0.0
  {
    if rows != [] {
      CollectAt(truth, rows[..|rows| - 1], p);
      ListedSplit(rows, p);
      assert rows[|rows| - 1].quantity == At(truth, rows[|rows| - 1].price);
    }
  }

  /** A delta that overlaps or touches the next id moves a faithful side from `seqNo` to `last`. */
  lemma SideAdvances(
      h: History, high: bool, local: Side, edge: real, seqNo: nat, first: nat, last: nat, rows: seq<Level>)
    requires Genuine(h)
    requires Faithful(local, SideOf(h(seqNo), high), high, edge)
    requires first <= seqNo + 1 <= last && Carries(h, high, first, last, rows) && LevelsOk(rows)
    ensures Faithful(PutAll(local, rows), SideOf(h(last), high), high, edge)
  {
    var old_, new_ := SideOf(h(seqNo), high), SideOf(h(last), high);
    var merged := PutAll(local, rows);
    PutAllPositive(local, rows);
    forall p: real
      ensures p in merged ==> At(merged, p) == At(new_, p)
      ensures p in new_ && !Beats(high, edge, p) ==> p in merged
    {
      PutAllAt(local, new_, rows, p);
      if !Listed(rows, p) {
        UntouchedIsConstant(h, high, seqNo, last, p);
      }
    }
  }

  lemma SideInstalls(truth: Side, high: bool, rows: seq<Level>)
    requires Positive(truth) && BestPrefix(truth, high, rows) && LevelsOk(rows) && Collect(rows).Keys != {}
    ensures Faithful(Collect(rows), truth, high, Best(Collect(rows).Keys, !high))
  {
    var got := Collect(rows);
    var edge := Best(got.Keys, !high);
    CollectPositive(rows);
    CollectAt(truth, rows, edge);
    var i :| 0 <= i < |rows| && rows[i].price == edge;
    forall p: real
      ensures p in got ==> At(got, p) == At(truth, p)
      ensures p in truth && !Beats(high, edge, p) ==> p in got
    {
      CollectAt(truth, rows, p);
    }
  }

  // ---- every message keeps the structural invariant, whoever sent it ----

  lemma AcceptedIsSound(limits: Limits, l: Levels, u: Update)
    requires Positive(l.bids) && Positive(l.asks) && UpdateOk(u)
    requires Verdict(limits, Merge(l, u)).None?
    ensures LevelsSound(limits, Merge(l, u))
  {
    PutAllPositive(l.bids, u.bids);
    PutAllPositive(l.asks, u.asks);
  }

  lemma SettleWellFormed(b: Book, merged: Levels, u: Update, verdict: Option<Reason>)
    requires verdict.None? ==> LevelsSound(b.limits, merged)
    requires verdict != Some(SequenceVerified) && b.buffer == []
    ensures WellFormed(Settle(b, merged, u, verdict))
  {
  }

  lemma MergeWellFormed(b: Book, u: Update)
    requires Positive(b.levels.bids) && Positive(b.levels.asks) && b.buffer == [] && UpdateOk(u)
    ensures WellFormed(Settle(b, Merge(b.levels, u), u, Verdict(b.limits, Merge(b.levels, u))))
  {
    var verdict := Verdict(b.limits, Merge(b.levels, u));
    if verdict.None? {
      AcceptedIsSound(b.limits, b.levels, u);
    }
    SettleWellFormed(b, Merge(b.levels, u), u, verdict);
  }

  lemma ApplyWellFormed(b: Book, u: Update)
    requires WellFormed(b) && b.sequence.Some? && UpdateOk(u)
    ensures WellFormed(Apply(b, u))
  {
    if u.first <= b.sequence.value + 1 <= u.last {
      MergeWellFormed(b, u);
    }
  }

  lemma {:induction false} ReplayWellFormed(b: Book, updates: seq<Update>)
    requires WellFormed(b) && forall i :: 0 <= i < |updates| ==> UpdateOk(updates[i])
    ensures WellFormed(Replay(b, updates))
    decreases |updates|
  {
    if updates != [] && b.sequence.Some? {
      ApplyWellFormed(b, updates[0]);
      ReplayWellFormed(Apply(b, updates[0]), updates[1..]);
    }
  }

  lemma FreshSideCovered(side: Side, high: bool, n: nat)
    requires 1 <= n <= |side|
    ensures side.Keys != {}
    ensures Covered(side, high, Best(side.Keys, !high), n)
  {
    assert |side.Keys| == |side|;
    RankedIsSorted(side.Keys, high);
    var p := Ranked(side.Keys, high)[n - 1];
    assert p in Ranked(side.Keys, high);
  }

  lemma SnapshotLevelsSound(limits: Limits, raw: RawSnapshot)
    requires SnapshotOk(limits, raw)
    ensures Collect(raw.bids).Keys != {} && Collect(raw.asks).Keys != {}
    ensures LevelsSound(limits, SnapshotLevels(raw))
  {
    CollectPositive(raw.bids);
    CollectPositive(raw.asks);
    FreshSideCovered(Collect(raw.bids), true, limits.minLevels);
    FreshSideCovered(Collect(raw.asks), false, limits.minLevels);
  }

  lemma SnapshotWellFormed(b: Book, raw: RawSnapshot, epoch: nat)
    requires WellFormed(b)
    ensures WellFormed(Snapshot(b, raw, epoch))
  {
    if epoch == b.epoch && SnapshotOk(b.limits, raw) {
      SnapshotLevelsSound(b.limits, raw);
      ReplayWellFormed(Installed(b, raw.lastId, SnapshotLevels(raw)), b.buffer);
    }
  }

  lemma DeltaWellFormed(b: Book, raw: RawDelta, now: real)
    requires WellFormed(b)
    ensures WellFormed(Delta(b, raw, now))
  {
    hide Apply, LevelsSound, LevelsOk;
    var parsed := ParseDelta(raw, now);
    if parsed.Some? && b.sequence.Some? {
      ApplyWellFormed(b, parsed.value);
    }
  }

  lemma StepWellFormed(b: Book, e: Event)
    requires WellFormed(b) && (e.ResetRequested? ==> e.why != SequenceVerified)
    ensures WellFormed(Step(b, e))
  {
    hide Apply, Snapshot, LevelsSound, Delta;
    match e
    case DeltaArrives(raw, now) => DeltaWellFormed(b, raw, now);
    case SnapshotArrives(raw, epoch) => SnapshotWellFormed(b, raw, epoch);
    case ResetRequested(why) =>
  }

  /** For any messages whatever: the buffer is bounded, and a book with a sequence number has
      between `minLevels` and `maxLevels` positive, uncrossed levels on each side. */
  lemma {:induction false} RunWellFormed(limits: Limits, events: seq<Event>)
    requires forall i :: 0 <= i < |events| ==> events[i].ResetRequested? ==> events[i].why != SequenceVerified
    ensures WellFormed(Run(Fresh(limits), events))
  {
    if events != [] {
      RunWellFormed(limits, events[..|events| - 1]);
      StepWellFormed(Run(Fresh(limits), events[..|events| - 1]), events[|events| - 1]);
    }
  }

  /** No half-applied delta is ever visible: the levels are untouched, fully merged or emptied. */
  lemma ApplyIsAllOrNothing(b: Book, u: Update)
    requires b.sequence.Some?
    ensures var after := Apply(b, u);
            || after == b
            || (after.levels == Merge(b.levels, u) && after.sequence == Some(u.last)
                && u.first <= b.sequence.value + 1 <= u.last && after.status.ready && after.epoch == b.epoch)
            || (after.levels.bids == map[] && after.levels.asks == map[] && after.sequence == None
                && !after.status.ready && after.epoch == b.epoch + 1)
  {
    var verdict := Verdict(b.limits, Merge(b.levels, u));
    SettleShape(b, Merge(b.levels, u), u, verdict);
  }

  lemma SettleShape(b: Book, merged: Levels, u: Update, verdict: Option<Reason>)
    ensures var after := Settle(b, merged, u, verdict);
            if verdict.None? then
              after.levels == merged && after.sequence == Some(u.last) && after.status.ready && after.epoch == b.epoch
            else
              after.levels.bids == map[] && after.levels.asks == map[] && after.sequence == None
              && !after.status.ready && after.epoch == b.epoch + 1
  {
  }

  // ---- honest messages keep the refinement ----

  lemma MergeFaithful(h: History, l: Levels, seqNo: nat, u: Update)
    requires Genuine(h) && LevelsFaithful(h(seqNo), l)
    requires UpdateOk(u) && HonestUpdate(h, u) && u.first <= seqNo + 1 <= u.last
    ensures LevelsFaithful(h(u.last), Merge(l, u))
  {
    SideAdvances(h, true, l.bids, l.bidFloor, seqNo, u.first, u.last, u.bids);
    SideAdvances(h, false, l.asks, l.askCeiling, seqNo, u.first, u.last, u.asks);
  }

  lemma SettleRefines(h: History, b: Book, merged: Levels, u: Update, verdict: Option<Reason>)
    requires b.buffer == [] && LevelsFaithful(h(u.last), merged)
    ensures Refines(h, Settle(b, merged, u, verdict))
  {
  }

  lemma MergeRefines(h: History, b: Book, u: Update)
    requires Genuine(h) && b.sequence.Some? && LevelsFaithful(h(b.sequence.value), b.levels) && b.buffer == []
    requires UpdateOk(u) && HonestUpdate(h, u) && u.first <= b.sequence.value + 1 <= u.last
    ensures Refines(h, Settle(b, Merge(b.levels, u), u, Verdict(b.limits, Merge(b.levels, u))))
  {
    MergeFaithful(h, b.levels, b.sequence.value, u);
    SettleRefines(h, b, Merge(b.levels, u), u, Verdict(b.limits, Merge(b.levels, u)));
  }

  lemma ApplyRefines(h: History, b: Book, u: Update)
    requires Genuine(h) && WellFormed(b) && Refines(h, b) && b.sequence.Some?
    requires UpdateOk(u) && HonestUpdate(h, u)
    ensures Refines(h, Apply(b, u))
  {
    if u.first <= b.sequence.value + 1 <= u.last {
      MergeRefines(h, b, u);
    }
  }

  lemma {:induction false} ReplayRefines(h: History, b: Book, updates: seq<Update>)
    requires Genuine(h) && WellFormed(b) && Refines(h, b)
    requires forall i :: 0 <= i < |updates| ==> UpdateOk(updates[i]) && HonestUpdate(h, updates[i])
    ensures Refines(h, Replay(b, updates))
    decreases |updates|
  {
    if updates != [] && b.sequence.Some? {
      ApplyRefines(h, b, updates[0]);
      ApplyWellFormed(b, updates[0]);
      ReplayRefines(h, Apply(b, updates[0]), updates[1..]);
    }
  }

  lemma SnapshotRefines(h: History, b: Book, raw: RawSnapshot, epoch: nat)
    requires Genuine(h) && WellFormed(b) && Refines(h, b) && HonestSnapshot(h, raw)
    ensures Refines(h, Snapshot(b, raw, epoch))
  {
    if epoch == b.epoch && SnapshotOk(b.limits, raw) {
      assert Positive(SideOf(h(raw.lastId), true)) && Positive(SideOf(h(raw.lastId), false));
      SnapshotLevelsSound(b.limits, raw);
      SideInstalls(h(raw.lastId).bids, true, raw.bids);
      SideInstalls(h(raw.lastId).asks, false, raw.asks);
      ReplayRefines(h, Installed(b, raw.lastId, SnapshotLevels(raw)), b.buffer);
    }
  }

  lemma DeltaRefines(h: History, b: Book, raw: RawDelta, now: real)
    requires Genuine(h) && WellFormed(b) && Refines(h, b)
    requires ParseDelta(raw, now).Some? ==> HonestUpdate(h, ParseDelta(raw, now).value)
    ensures Refines(h, Delta(b, raw, now))
  {
    hide Apply, LevelsSound, LevelsOk, LevelsFaithful, Genuine, HonestUpdate;
    var parsed := ParseDelta(raw, now);
    if parsed.Some? && b.sequence.Some? {
      ApplyRefines(h, b, parsed.value);
    }
  }

  lemma StepRefines(h: History, b: Book, e: Event)
    requires Genuine(h) && WellFormed(b) && Refines(h, b) && HonestEvent(h, e)
    ensures WellFormed(Step(b, e)) && Refines(h, Step(b, e))
  {
    hide Apply, Snapshot, Delta, LevelsSound, LevelsFaithful, Genuine, HonestUpdate, HonestSnapshot;
    StepWellFormed(b, e);
    match e
    case DeltaArrives(raw, now) => DeltaRefines(h, b, raw, now);
    case SnapshotArrives(raw, epoch) => SnapshotRefines(h, b, raw, epoch);
    case ResetRequested(why) =>
  }

  /** Refinement over every run: messages may be lost, repeated and reordered at will. */
  lemma {:induction false} RunRefines(h: History, limits: Limits, events: seq<Event>)
    requires Genuine(h) && forall i :: 0 <= i < |events| ==> HonestEvent(h, events[i])
    ensures WellFormed(Run(Fresh(limits), events)) && Refines(h, Run(Fresh(limits), events))
  {
    if events != [] {
      RunRefines(h, limits, events[..|events| - 1]);
      StepRefines(h, Run(Fresh(limits), events[..|events| - 1]), events[|events| - 1]);
    }
  }

  lemma {:induction false} ReplayKeepsLimits(b: Book, updates: seq<Update>)
    ensures Replay(b, updates).limits == b.limits
    decreases |updates|
  {
    if updates != [] && b.sequence.Some? {
      ReplayKeepsLimits(Apply(b, updates[0]), updates[1..]);
    }
  }

  lemma StepKeepsLimits(b: Book, e: Event)
    ensures Step(b, e).limits == b.limits
  {
    if e.SnapshotArrives? && e.epoch == b.epoch && SnapshotOk(b.limits, e.snapshot) {
      ReplayKeepsLimits(Installed(b, e.snapshot.lastId, SnapshotLevels(e.snapshot)), b.buffer);
    }
  }

  lemma {:induction false} LimitsKept(limits: Limits, events: seq<Event>)
    ensures Run(Fresh(limits), events).limits == limits
  {
    if events != [] {
      LimitsKept(limits, events[..|events| - 1]);
      StepKeepsLimits(Run(Fresh(limits), events[..|events| - 1]), events[|events| - 1]);
    }
  }

  // ---- what a reader of the book may conclude ----

  /** The `n` best levels of the two sides are the same, in order and in quantity. */
  ghost predicate SameBestLevels(local: Side, truth: Side, high: bool, n: nat) {
    && n <= |local| && n <= |truth|
    && |Ranked(local.Keys, high)| == |local| && |Ranked(truth.Keys, high)| == |truth|
    && Ranked(local.Keys, high)[..n] == Ranked(truth.Keys, high)[..n]
    && forall i :: 0 <= i < n ==>
         var p := Ranked(local.Keys, high)[i];
         p in local && p in truth && local[p] == truth[p]
  }

  lemma PrefixOfPrefix(r: seq<real>, t: seq<real>, n: nat, m: nat)
    requires n <= m <= |r| && m <= |t| && r[..m] == t[..m]
    ensures r[..n] == t[..n]
  {
    assert r[..n] == r[..m][..n] && t[..n] == t[..m][..n];
  }

  lemma RankedQuantities(local: Side, truth: Side, high: bool, edge: real, n: nat)
    requires Faithful(local, truth, high, edge) && n <= |Ranked(local.Keys, high)|
    ensures forall i :: 0 <= i < n ==>
              var p := Ranked(local.Keys, high)[i];
              p in local && p in truth && local[p] == truth[p]
  {
    RankedIsSorted(local.Keys, high);
    hide Ranked;
    var r := Ranked(local.Keys, high);
    forall i | 0 <= i < n ensures r[i] in local && r[i] in truth && local[r[i]] == truth[r[i]] {
      assert r[i] in r;
    }
  }

  lemma SideTopIsTrue(local: Side, truth: Side, high: bool, edge: real, minLevels: nat, n: nat)
    requires Faithful(local, truth, high, edge)
    requires 1 <= minLevels <= |local| && n <= minLevels
    requires Covered(local, high, edge, minLevels)
    ensures SameBestLevels(local, truth, high, n)
  {
    hide Ranked, CompleteTo, Beats;
    assert |local.Keys| == |local| && |truth.Keys| == |truth|;
    SameTop(local.Keys, truth.Keys, high, edge, minLevels);
    PrefixOfPrefix(Ranked(local.Keys, high), Ranked(truth.Keys, high), n, minLevels);
    RankedQuantities(local, truth, high, edge, n);
  }

  /** Whenever the book says it is verified, its best levels are the exchange's own at that id,
      in order and in quantity, as deep as the configured minimum. */
  lemma VerifiedBookIsTheExchanges(h: History, limits: Limits, events: seq<Event>, n: nat)
    requires Genuine(h) && forall i :: 0 <= i < |events| ==> HonestEvent(h, events[i])
    requires Run(Fresh(limits), events).status.reason == SequenceVerified && n <= limits.minLevels
    ensures var b := Run(Fresh(limits), events);
            && b.sequence.Some?
            && SameBestLevels(b.levels.bids, h(b.sequence.value).bids, true, n)
            && SameBestLevels(b.levels.asks, h(b.sequence.value).asks, false, n)
  {
    RunRefines(h, limits, events);
    LimitsKept(limits, events);
    var b := Run(Fresh(limits), events);
    var truth := h(b.sequence.value);
    SideTopIsTrue(b.levels.bids, truth.bids, true, b.levels.bidFloor, limits.minLevels, n);
    SideTopIsTrue(b.levels.asks, truth.asks, false, b.levels.askCeiling, limits.minLevels, n);
  }

  lemma {:induction false} QuoteAgrees(a: Side, b: Side, prices: seq<real>)
    requires forall i :: 0 <= i < |prices| ==> prices[i] in a && prices[i] in b && a[prices[i]] == b[prices[i]]
    ensures Quote(a, prices) == Quote(b, prices)
  {
    if prices != [] {
      QuoteAgrees(a, b, prices[..|prices| - 1]);
    }
  }

  lemma {:induction false} QuotePositive(side: Side, prices: seq<real>)
    requires Positive(side) && forall i :: 0 <= i < |prices| ==> prices[i] in side
    ensures Quote(side, prices) >= 0.0
    ensures prices != [] ==> Quote(side, prices) > 0.0
  {
    if prices != [] {
      QuotePositive(side, prices[..|prices| - 1]);
      var p := prices[|prices| - 1];
      assert p > 0.0 && side[p] > 0.0;
      assert p * side[p] > 0.0;
    }
  }

  /** With at least 20 guaranteed levels, the 20-level depth sums are the exchange's. */
  lemma DepthSumsAreTheExchanges(h: History, limits: Limits, events: seq<Event>)
    requires Genuine(h) && forall i :: 0 <= i < |events| ==> HonestEvent(h, events[i])
    requires Run(Fresh(limits), events).status.ready && 20 <= limits.minLevels
    ensures var b := Run(Fresh(limits), events);
            b.sequence.Some? &&
            var truth := h(b.sequence.value);
            && |Top20(b.levels.bids, true)| == |Top20(b.levels.asks, false)| == 20
            && Top20(b.levels.bids, true) == Top20(truth.bids, true)
            && Top20(b.levels.asks, false) == Top20(truth.asks, false)
            && Quote(b.levels.bids, Top20(b.levels.bids, true)) == Quote(truth.bids, Top20(truth.bids, true))
            && Quote(b.levels.asks, Top20(b.levels.asks, false)) == Quote(truth.asks, Top20(truth.asks, false))
  {
    RunRefines(h, limits, events);
    LimitsKept(limits, events);
    var b := Run(Fresh(limits), events);
    var truth := h(b.sequence.value);
    SideTop20IsTrue(b.levels.bids, truth.bids, true, b.levels.bidFloor, limits.minLevels);
    SideTop20IsTrue(b.levels.asks, truth.asks, false, b.levels.askCeiling, limits.minLevels);
  }

  lemma SideTop20IsTrue(local: Side, truth: Side, high: bool, edge: real, minLevels: nat)
    requires Faithful(local, truth, high, edge)
    requires 20 <= minLevels <= |local| && Covered(local, high, edge, minLevels)
    ensures |Top20(local, high)| == 20 && Top20(local, high) == Top20(truth, high)
    ensures Quote(local, Top20(local, high)) == Quote(truth, Top20(truth, high))
  {
    SideTopIsTrue(local, truth, high, edge, minLevels, 20);
    var l, t := Ranked(local.Keys, high), Ranked(truth.Keys, high);
    assert |local.Keys| == |local| && |truth.Keys| == |truth|;
    assert Top20(local, high) == l[..20] by { if |l| == 20 { assert l[..20] == l; } }
    assert Top20(truth, high) == t[..20] by { if |t| == 20 { assert t[..20] == t; } }
    QuoteAgrees(local, truth, Top20(local, high));
  }

  /** A usable book never divides by zero, and its imbalance is strictly between -1 and 1. */
  lemma ImbalanceIsProper(b: Book)
    requires WellFormed(b) && b.sequence.Some?
    ensures var bid := Quote(b.levels.bids, Top20(b.levels.bids, true));
            var ask := Quote(b.levels.asks, Top20(b.levels.asks, false));
            bid > 0.0 && ask > 0.0 && -1.0 < (bid - ask) / (bid + ask) < 1.0
  {
    QuotePositive(b.levels.bids, Top20(b.levels.bids, true));
    QuotePositive(b.levels.asks, Top20(b.levels.asks, false));
    assert |b.levels.bids.Keys| == |b.levels.bids| && |b.levels.asks.Keys| == |b.levels.asks|;
    var bid, ask := Quote(b.levels.bids, Top20(b.levels.bids, true)), Quote(b.levels.asks, Top20(b.levels.asks, false));
    RatioInside(bid, ask);
  }

  lemma RatioInside(x: real, y: real)
    requires x > 0.0 && y > 0.0
    ensures -1.0 < (x - y) / (x + y) < 1.0
  {
    var q := (x - y) / (x + y);
    assert q * (x + y) == x - y;
    assert q >= 1.0 ==> q * (x + y) >= 1.0 * (x + y);
    assert q <= -1.0 ==> q * (x + y) <= -1.0 * (x + y);
  }
}

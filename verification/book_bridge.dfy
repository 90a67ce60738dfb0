/** When the depth book does get and keep its sequence: the answers of `delta` and `snapshot` for every
    message, in terms of the rows, the ids and the level counts. */
module BookBridge {
  import opened Prelude
  import opened Ranking
  import opened BookSpec

  // ---- rows put in order ----

  /** Row `i` is the last one for its price. */
  ghost predicate LastFor(rows: seq<Level>, i: int) {
    0 <= i < |rows| && forall j :: i < j < |rows| ==> rows[j].price != rows[i].price
  }

  ghost predicate Named(rows: seq<Level>, p: real) {
    exists i :: 0 <= i < |rows| && rows[i].price == p
  }

  /** A price holds what its last row says, nothing if that is zero; a price without a row is untouched. */
  ghost predicate Overwritten(before: Side, rows: seq<Level>, after: Side) {
    && (forall i :: LastFor(rows, i) ==>
          && (rows[i].price in after <==> rows[i].quantity != 0.0)
          && (rows[i].quantity != 0.0 ==> after[rows[i].price] == rows[i].quantity))
    && (forall p :: !Named(rows, p) ==> (p in after <==> p in before) && (p in before ==> after[p] == before[p]))
  }

  lemma {:induction false} PutAllOverwrites(side: Side, rows: seq<Level>)
    ensures Overwritten(side, rows, PutAll(side, rows))
  {
    if rows != [] {
      var front, last := rows[..|rows| - 1], rows[|rows| - 1];
      PutAllOverwrites(side, front);
      var mid, after := PutAll(side, front), PutAll(side, rows);
      assert after == Put(mid, last);
      hide PutAll;
      forall i | LastFor(rows, i)
        ensures (rows[i].price in after <==> rows[i].quantity != 0.0)
                && (rows[i].quantity != 0.0 ==> after[rows[i].price] == rows[i].quantity)
      {
        if i < |front| {
          assert LastFor(front, i);
          assert rows[|rows| - 1].price != rows[i].price;
        }
      }
      forall p | !Named(rows, p)
        ensures (p in after <==> p in side) && (p in side ==> after[p] == side[p])
      {
        assert rows[|rows| - 1].price != p;
        assert forall i :: 0 <= i < |front| ==> front[i] == rows[i];
        assert !Named(front, p);
      }
    }
  }

  lemma {:induction false} LastIndex(rows: seq<Level>, p: real) returns (i: int)
    requires Named(rows, p)
    ensures LastFor(rows, i) && rows[i].price == p
  {
    i := |rows| - 1;
    while rows[i].price != p
      invariant 0 <= i < |rows| && forall j :: i < j < |rows| ==> rows[j].price != p
      decreases i
    {
      i := i - 1;
    }
  }

  lemma OverwrittenOnce(before: Side, rows: seq<Level>, x: Side, y: Side)
    requires Overwritten(before, rows, x) && Overwritten(before, rows, y)
    ensures x == y
  {
    forall p: real ensures (p in x <==> p in y) && (p in x ==> x[p] == y[p]) {
      if Named(rows, p) {
        var i := LastIndex(rows, p);
      }
    }
  }

  // ---- the rows of a snapshot ----

  ghost predicate LastNonzero(rows: seq<Level>, i: int) {
    && 0 <= i < |rows| && rows[i].quantity != 0.0
    && forall j :: i < j < |rows| && rows[j].quantity != 0.0 ==> rows[j].price != rows[i].price
  }

  /** Each price with a row that is not zero holds the last such row, and there is no other price. */
  ghost predicate Collected(rows: seq<Level>, side: Side) {
    && (forall i :: 0 <= i < |rows| && LastNonzero(rows, i) ==>
          rows[i].price in side && side[rows[i].price] == rows[i].quantity)
    && (forall p :: p in side ==> exists i :: 0 <= i < |rows| && LastNonzero(rows, i) && rows[i].price == p)
  }

  lemma LastNonzeroOfFront(front: seq<Level>, last: Level, i: int)
    requires 0 <= i < |front|
    ensures LastNonzero(front + [last], i) <==>
            LastNonzero(front, i) && (last.quantity != 0.0 ==> last.price != front[i].price)
  {
    var rows := front + [last];
    assert forall j :: 0 <= j < |front| ==> rows[j] == front[j];
    assert rows[|front|] == last;
    if LastNonzero(front, i) && (last.quantity != 0.0 ==> last.price != front[i].price) {
      assert LastNonzero(rows, i);
    }
    if LastNonzero(rows, i) {
      forall j | i < j < |front| && front[j].quantity != 0.0 ensures front[j].price != front[i].price {
        assert rows[j].price != rows[i].price;
      }
    }
  }

  lemma CollectedSnoc(front: seq<Level>, last: Level, mid: Side)
    requires Collected(front, mid)
    ensures Collected(front + [last], if last.quantity != 0.0 then mid[last.price := last.quantity] else mid)
  {
    var rows, n := front + [last], |front|;
    var side := if last.quantity != 0.0 then mid[last.price := last.quantity] else mid;
    assert last.quantity != 0.0 ==> LastNonzero(rows, n);
    hide LastNonzero;
    forall i | LastNonzero(rows, i) && 0 <= i < |rows|
      ensures rows[i].price in side && side[rows[i].price] == rows[i].quantity
    {
      if i < n {
        LastNonzeroOfFront(front, last, i);
      } else {
        LastRowIsNonzero(rows, i);
      }
    }
    forall p | p in side ensures exists i :: 0 <= i < |rows| && LastNonzero(rows, i) && rows[i].price == p {
      if !(last.quantity != 0.0 && p == last.price) {
        var i :| 0 <= i < |front| && LastNonzero(front, i) && front[i].price == p;
        LastNonzeroOfFront(front, last, i);
        assert rows[i].price == p;
      } else {
        assert rows[n].price == p;
      }
    }
  }

  lemma LastRowIsNonzero(rows: seq<Level>, i: int)
    requires LastNonzero(rows, i)
    ensures 0 <= i < |rows| && rows[i].quantity != 0.0
  {
  }

  lemma {:induction false} CollectCollects(rows: seq<Level>)
    ensures Collected(rows, Collect(rows))
  {
    if rows != [] {
      var front, last := rows[..|rows| - 1], rows[|rows| - 1];
      CollectCollects(front);
      assert front + [last] == rows;
      hide Collected;
      CollectedSnoc(front, last, Collect(front));
    }
  }

  lemma CollectedOnce(rows: seq<Level>, x: Side, y: Side)
    requires Collected(rows, x) && Collected(rows, y)
    ensures x == y
  {
    forall p: real ensures (p in x <==> p in y) && (p in x ==> x[p] == y[p]) {
      if p in x || p in y {
        var i :| 0 <= i < |rows| && LastNonzero(rows, i) && rows[i].price == p;
      }
    }
  }

  // ---- counts, coverage and order ----

  ghost predicate Counts(limits: Limits, l: Levels) {
    limits.minLevels <= |l.bids| <= limits.maxLevels && limits.minLevels <= |l.asks| <= limits.maxLevels
  }

  /** The prices of a side that have not passed the edge of the snapshot. */
  function Inside(side: Side, high: bool, edge: real): set<real> {
    set p | p in side && !Beats(high, edge, p)
  }

  ghost predicate Reaches(limits: Limits, l: Levels) {
    && limits.minLevels <= |Inside(l.bids, true, l.bidFloor)|
    && limits.minLevels <= |Inside(l.asks, false, l.askCeiling)|
  }

  ghost predicate Ordered(l: Levels) {
    forall b, a :: b in l.bids && a in l.asks ==> b < a
  }

  ghost predicate Sound(limits: Limits, l: Levels) {
    Counts(limits, l) && Reaches(limits, l) && Ordered(l)
  }

  lemma {:induction false} DistinctSize(s: seq<real>)
    requires forall i, j :: 0 <= i < j < |s| ==> s[i] != s[j]
    ensures |Elements(s)| == |s|
  {
    if s == [] {
      assert Elements(s) == {};
    } else {
      var n := |s| - 1;
      DistinctSize(s[..n]);
      assert Elements(s) == Elements(s[..n]) + {s[n]};
      assert s[n] !in s[..n];
    }
  }

  lemma SubsetSize(a: set<real>, b: set<real>)
    requires a <= b
    ensures |a| <= |b|
  {
    assert b == a + (b - a);
  }

  /** `r` lists the prices of the side, best first. */
  ghost predicate Lists(side: Side, high: bool, r: seq<real>) {
    && (forall x :: x in r <==> x in side)
    && forall i, j :: 0 <= i < j < |r| ==> Beats(high, r[i], r[j])
  }

  lemma TopIsInside(side: Side, high: bool, edge: real, r: seq<real>, n: nat)
    requires Lists(side, high, r) && 1 <= n <= |r| && !Beats(high, edge, r[n - 1])
    ensures n <= |Inside(side, high, edge)|
  {
    var top := r[..n];
    DistinctSize(top);
    forall p | p in Elements(top) ensures p in Inside(side, high, edge) {
      var i :| 0 <= i < n && r[i] == p;
      assert i < n - 1 ==> Beats(high, r[i], r[n - 1]);
      assert p in r;
    }
    SubsetSize(Elements(top), Inside(side, high, edge));
  }

  lemma InsideIsBeforeTheEdge(side: Side, high: bool, edge: real, r: seq<real>, n: nat)
    requires Lists(side, high, r) && 1 <= n <= |r| && Beats(high, edge, r[n - 1])
    ensures |Inside(side, high, edge)| < n
  {
    var top := r[..n - 1];
    DistinctSize(top);
    forall p | p in Inside(side, high, edge) ensures p in Elements(top) {
      assert p in r;
      var i :| 0 <= i < |r| && r[i] == p;
      assert i > n - 1 ==> Beats(high, r[n - 1], r[i]);
      assert i < n - 1 ==> top[i] == p;
    }
    SubsetSize(Inside(side, high, edge), Elements(top));
  }

  /** The `n` best prices reach no further than the edge exactly when `n` prices lie inside it. */
  lemma CoveredMeansInside(side: Side, high: bool, edge: real, n: nat)
    requires 1 <= n <= |side|
    ensures Covered(side, high, edge, n) <==> n <= |Inside(side, high, edge)|
  {
    assert |side.Keys| == |side|;
    RankedIsSorted(side.Keys, high);
    var r := Ranked(side.Keys, high);
    hide Ranked, Inside, Beats;
    assert Lists(side, high, r);
    if !Beats(high, edge, r[n - 1]) {
      TopIsInside(side, high, edge, r, n);
    } else {
      InsideIsBeforeTheEdge(side, high, edge, r, n);
    }
  }

  lemma CrossedMeansOverlap(l: Levels)
    requires l.bids.Keys != {} && l.asks.Keys != {}
    ensures Crossed(l) <==> !Ordered(l)
  {
    var b, a := Best(l.bids.Keys, true), Best(l.asks.Keys, false);
    assert b in l.bids && a in l.asks;
  }

  /** The verdict on merged levels: none exactly when counts, coverage and order are right, otherwise
      the first that is wrong. */
  lemma VerdictMeans(limits: Limits, l: Levels)
    ensures Verdict(limits, l) ==
            if !Counts(limits, l) then Some(DepthCoverageReset)
            else if !Reaches(limits, l) then Some(SnapshotCoverageExhausted)
            else if !Ordered(l) then Some(CrossedBook)
            else None
  {
    if Counts(limits, l) {
      assert |l.bids.Keys| == |l.bids| && |l.asks.Keys| == |l.asks|;
      CoveredMeansInside(l.bids, true, l.bidFloor, limits.minLevels);
      CoveredMeansInside(l.asks, false, l.askCeiling, limits.minLevels);
      hide Covered, Inside, Crossed, Ordered;
      CrossedMeansOverlap(l);
    }
  }

  // ---- one update ----

  /** A sequenced state: the id reached, the levels there, and when the last update applied came. */
  datatype Point = Point(id: nat, levels: Levels, received: Option<real>)

  /** The two sides with every row put in order, and sound. */
  ghost predicate Advances(limits: Limits, before: Levels, u: Update, after: Levels) {
    && Overwritten(before.bids, u.bids, after.bids) && Overwritten(before.asks, u.asks, after.asks)
    && after.bidFloor == before.bidFloor && after.askCeiling == before.askCeiling
  }

  /** An update is old and changes nothing, or it overlaps or touches the next id and leads to sound levels. */
  ghost predicate Link(limits: Limits, a: Point, u: Update, z: Point) {
    if u.last <= a.id then z == a
    else
      && u.first <= a.id + 1 && z.id == u.last && z.received == Some(u.received)
      && Advances(limits, a.levels, u, z.levels) && Sound(limits, z.levels)
  }

  ghost predicate Bridge(limits: Limits, points: seq<Point>, updates: seq<Update>) {
    |points| == |updates| + 1
    && forall i :: 0 <= i < |updates| ==> var next := i + 1; Link(limits, points[i], updates[i], points[next])
  }

  /** The book `base` at a point: ready once an update was applied. */
  function BookAt(base: Book, p: Point): Book {
    base.(sequence := Some(p.id), levels := p.levels,
          status := if p.received.Some? then Status(true, SequenceVerified, p.received) else base.status)
  }

  /** Everything is emptied in a new epoch, except that the buffer may keep what opened it. */
  ghost predicate Emptied(before: Book, after: Book, why: Reason, buffer: seq<Update>) {
    && after.epoch == before.epoch + 1 && after.resets == before.resets + 1
    && after.levels.bids == map[] && after.levels.asks == map[] && after.sequence == None && after.buffer == buffer
    && after.status == Status(false, why, None) && !after.pending
    && after.retryAt == before.retryAt && after.limits == before.limits
  }

  lemma MergeAdvances(limits: Limits, before: Levels, u: Update, after: Levels)
    requires Advances(limits, before, u, after)
    ensures Merge(before, u) == after
  {
    PutAllOverwrites(before.bids, u.bids);
    PutAllOverwrites(before.asks, u.asks);
    hide PutAll, Overwritten;
    OverwrittenOnce(before.bids, u.bids, PutAll(before.bids, u.bids), after.bids);
    OverwrittenOnce(before.asks, u.asks, PutAll(before.asks, u.asks), after.asks);
  }

  lemma AdvancesToMerge(limits: Limits, before: Levels, u: Update)
    ensures Advances(limits, before, u, Merge(before, u))
  {
    PutAllOverwrites(before.bids, u.bids);
    PutAllOverwrites(before.asks, u.asks);
    hide PutAll, Overwritten;
  }

  lemma LinkIsApply(base: Book, a: Point, u: Update, z: Point)
    requires Link(base.limits, a, u, z)
    ensures Apply(BookAt(base, a), u) == BookAt(base, z)
  {
    if u.last > a.id {
      MergeAdvances(base.limits, a.levels, u, z.levels);
      VerdictMeans(base.limits, z.levels);
      hide Merge, Verdict, Advances, Counts, Reaches, Ordered;
    }
  }

  lemma {:induction false} BridgeIsReplay(base: Book, points: seq<Point>, updates: seq<Update>)
    requires Bridge(base.limits, points, updates)
    ensures Replay(BookAt(base, points[0]), updates) == BookAt(base, points[|updates|])
    decreases |updates|
  {
    if updates != [] {
      LinkIsApply(base, points[0], updates[0], points[1]);
      BridgeTail(base.limits, points, updates);
      hide Apply, Link;
      BridgeIsReplay(base, points[1..], updates[1..]);
    }
  }

  lemma BridgeTail(limits: Limits, points: seq<Point>, updates: seq<Update>)
    requires Bridge(limits, points, updates) && updates != []
    ensures Bridge(limits, points[1..], updates[1..]) && Link(limits, points[0], updates[0], points[1])
  {
    hide Link;
    forall i | 0 <= i < |updates[1..]|
      ensures var next := i + 1; Link(limits, points[1..][i], updates[1..][i], points[1..][next])
    {
      var k := i + 1;
      var next := k + 1;
      assert Link(limits, points[k], updates[k], points[next]);
    }
  }

  /** One update on a sequenced book either links to a next point or empties the book. */
  lemma ApplyLinks(base: Book, a: Point, u: Update) returns (z: Point)
    requires Apply(BookAt(base, a), u).sequence.Some?
    ensures Link(base.limits, a, u, z)
  {
    if u.last <= a.id {
      z := a;
    } else {
      AdvancesToMerge(base.limits, a.levels, u);
      VerdictMeans(base.limits, Merge(a.levels, u));
      hide Merge, Advances, Counts, Reaches, Ordered;
      z := Point(u.last, Merge(a.levels, u), Some(u.received));
    }
  }

  lemma {:induction false} ReplayIsBridge(base: Book, a: Point, updates: seq<Update>) returns (points: seq<Point>)
    requires Replay(BookAt(base, a), updates).sequence.Some?
    ensures Bridge(base.limits, points, updates) && points[0] == a
    decreases |updates|
  {
    if updates == [] {
      points := [a];
    } else {
      EmptiedStaysEmpty(Apply(BookAt(base, a), updates[0]), updates[1..]);
      var z := ApplyLinks(base, a, updates[0]);
      LinkIsApply(base, a, updates[0], z);
      hide Apply, Link;
      var rest := ReplayIsBridge(base, z, updates[1..]);
      points := [a] + rest;
      BridgeCons(base.limits, a, rest, updates);
    }
  }

  lemma EmptiedStaysEmpty(b: Book, updates: seq<Update>)
    ensures b.sequence.None? ==> Replay(b, updates) == b
  {
  }

  lemma BridgeCons(limits: Limits, a: Point, rest: seq<Point>, updates: seq<Update>)
    requires updates != [] && Bridge(limits, rest, updates[1..]) && Link(limits, a, updates[0], rest[0])
    ensures Bridge(limits, [a] + rest, updates)
  {
    hide Link;
    var points := [a] + rest;
    forall i | 0 <= i < |updates| ensures var next := i + 1; Link(limits, points[i], updates[i], points[next]) {
      if i > 0 {
        var k := i - 1;
        var next := k + 1;
        assert Link(limits, rest[k], updates[1..][k], rest[next]);
      }
    }
  }

  // ---- a depth message ----

  ghost predicate Readable(rows: seq<Level>) {
    forall i :: 0 <= i < |rows| ==> rows[i].price > 0.0 && rows[i].quantity >= 0.0
  }

  /** What one readable update does to a book that has a sequence number; `merged` are the sides with
      the rows put in order. */
  ghost predicate Answers(b: Book, u: Update, merged: Levels, after: Book)
    requires b.sequence.Some?
  {
    var id := b.sequence.value;
    if u.last <= id then after == b
    else if u.first > id + 1 then Emptied(b, after, SequenceGap, [u])
    else if Sound(b.limits, merged) then after == BookAt(b, Point(u.last, merged, Some(u.received)))
    else
      var why := if !Counts(b.limits, merged) then DepthCoverageReset
                 else if !Reaches(b.limits, merged) then SnapshotCoverageExhausted
                 else CrossedBook;
      Emptied(b, after, why, [])
  }

  lemma ApplyAnswers(b: Book, u: Update, merged: Levels)
    requires b.sequence.Some? && Advances(b.limits, b.levels, u, merged)
    ensures Answers(b, u, merged, Apply(b, u))
  {
    MergeAdvances(b.limits, b.levels, u, merged);
    VerdictMeans(b.limits, merged);
    hide Merge, Verdict, Advances, Counts, Reaches, Ordered;
  }

  /** What one depth message does to any book. */
  lemma DeltaDoes(b: Book, raw: RawDelta, now: real, u: Update, merged: Levels)
    requires raw.RawDelta? && raw.first >= 0 && raw.last >= 0 ==>
               u == Update(raw.first, raw.last, raw.bids, raw.asks, now) && Advances(b.limits, b.levels, u, merged)
    ensures var after := Delta(b, raw, now);
            if !(raw.RawDelta? && 0 <= raw.first <= raw.last && Readable(raw.bids) && Readable(raw.asks))
            then Emptied(b, after, MalformedDepth, [])
            else if b.sequence.Some? then Answers(b, u, merged, after)
            else if |b.buffer| < b.limits.maxBuffer then after == b.(buffer := b.buffer + [u])
            else Emptied(b, after, BufferOverflow, [u])
  {
    hide Advances, Apply, Answers;
    if ParseDelta(raw, now).Some? && b.sequence.Some? {
      ApplyAnswers(b, u, merged);
    }
  }

  // ---- a snapshot ----

  /** The reply is well formed, and `l` are its levels: every price with its last row that is not zero,
      enough of them and not crossed, each side covered down to its own worst price. */
  ghost predicate Usable(limits: Limits, raw: RawSnapshot, l: Levels) {
    && raw.RawSnapshot? && raw.lastId >= 0 && Readable(raw.bids) && Readable(raw.asks)
    && Collected(raw.bids, l.bids) && Collected(raw.asks, l.asks) && Counts(limits, l) && Ordered(l)
    && l.bidFloor in l.bids && (forall p :: p in l.bids ==> l.bidFloor <= p)
    && l.askCeiling in l.asks && (forall p :: p in l.asks ==> p <= l.askCeiling)
  }

  lemma CountedSidesAreNotEmpty(limits: Limits, l: Levels)
    requires Counts(limits, l)
    ensures l.bids.Keys != {} && l.asks.Keys != {}
  {
    assert |l.bids.Keys| == |l.bids| && |l.asks.Keys| == |l.asks|;
  }

  lemma UsableIsInstalled(limits: Limits, raw: RawSnapshot, l: Levels)
    requires Usable(limits, raw, l)
    ensures SnapshotOk(limits, raw) && l.bids.Keys != {} && l.asks.Keys != {}
    ensures l == Levels(Collect(raw.bids), Collect(raw.asks), Best(l.bids.Keys, false), Best(l.asks.Keys, true))
  {
    CollectCollects(raw.bids);
    CollectCollects(raw.asks);
    CollectedOnce(raw.bids, Collect(raw.bids), l.bids);
    CollectedOnce(raw.asks, Collect(raw.asks), l.asks);
    CountedSidesAreNotEmpty(limits, l);
    hide Collect, Collected, Ordered;
    var bare := l.(bidFloor := 0.0, askCeiling := 0.0);
    SameOrder(l, bare);
    CrossedMeansOverlap(bare);
  }

  lemma SameOrder(l: Levels, m: Levels)
    requires l.bids == m.bids && l.asks == m.asks
    ensures Ordered(l) <==> Ordered(m)
  {
  }

  lemma InstalledIsUsable(limits: Limits, raw: RawSnapshot)
    requires SnapshotOk(limits, raw)
    ensures Collect(raw.bids).Keys != {} && Collect(raw.asks).Keys != {}
    ensures Usable(limits, raw, SnapshotLevels(raw))
  {
    CollectCollects(raw.bids);
    CollectCollects(raw.asks);
    hide Collect, Collected, Ordered;
    var bare := Levels(Collect(raw.bids), Collect(raw.asks), 0.0, 0.0);
    CountedSidesAreNotEmpty(limits, bare);
    CrossedMeansOverlap(bare);
    SameOrder(SnapshotLevels(raw), bare);
  }

  /** A reply for another epoch changes nothing; one that is not usable empties the book. */
  lemma SnapshotRefused(b: Book, raw: RawSnapshot, epoch: nat)
    ensures epoch != b.epoch ==> Snapshot(b, raw, epoch) == b
    ensures epoch == b.epoch && (forall l :: !Usable(b.limits, raw, l)) ==>
              Emptied(b, Snapshot(b, raw, epoch), InvalidSnapshot, [])
  {
    hide Usable, Replay;
    if SnapshotOk(b.limits, raw) {
      InstalledIsUsable(b.limits, raw);
    }
  }

  /** The book that a bridged snapshot leaves: at the last point, in the same epoch, with nothing
      buffered and no request pending. */
  function Bridged(b: Book, last: Point): Book {
    BookAt(b.(buffer := [], pending := false, status := b.status.(ready := false, reason := WaitingForBridge)), last)
  }

  /** A usable snapshot whose buffered updates are each old or link on: the book stands at the last
      point, and is verified exactly when one of the updates was not older than the snapshot. */
  lemma SnapshotBridges(b: Book, raw: RawSnapshot, l: Levels, points: seq<Point>)
    requires Usable(b.limits, raw, l) && Bridge(b.limits, points, b.buffer) && points[0] == Point(raw.lastId, l, None)
    ensures var after, last := Snapshot(b, raw, b.epoch), points[|b.buffer|];
            && after == Bridged(b, last) && after.sequence == Some(last.id) && after.levels == last.levels
            && (after.status.ready <==> exists i :: 0 <= i < |b.buffer| && b.buffer[i].last > raw.lastId)
            && (after.status.ready ==>
                after.status.reason == SequenceVerified && after.status.received == last.received)
  {
    UsableIsInstalled(b.limits, raw, l);
    ReceivedMeansNewer(b.limits, points, b.buffer, raw.lastId, |b.buffer|);
    hide Usable, Bridge, SnapshotOk, Collect;
    BridgeIsReplay(Bridged(b, points[0]), points, b.buffer);
    hide Replay;
    assert BookAt(Bridged(b, points[0]), points[0]) == Installed(b, raw.lastId, l);
  }

  lemma {:induction false} ReceivedMeansNewer(
      limits: Limits, points: seq<Point>, updates: seq<Update>, first: int, n: nat)
    requires Bridge(limits, points, updates) && points[0].id == first && points[0].received == None && n <= |updates|
    ensures first <= points[n].id
    ensures points[n].received.Some? <==> exists i :: 0 <= i < n && updates[i].last > first
    ensures points[n].received.None? ==> points[n].id == first
  {
    hide Advances, Sound;
    if n > 0 {
      var k := n - 1;
      ReceivedMeansNewer(limits, points, updates, first, k);
      var next := k + 1;
      assert Link(limits, points[k], updates[k], points[next]);
    }
  }

  /** And the other way round: a snapshot that leaves the book with a sequence number was usable, and
      the buffered updates bridge it. */
  lemma SequencedOnlyIfBridged(b: Book, raw: RawSnapshot) returns (l: Levels, points: seq<Point>)
    requires Snapshot(b, raw, b.epoch).sequence.Some?
    ensures Usable(b.limits, raw, l) && Bridge(b.limits, points, b.buffer) && points[0] == Point(raw.lastId, l, None)
  {
    InstalledIsUsable(b.limits, raw);
    l := SnapshotLevels(raw);
    var start := Point(raw.lastId, l, None);
    hide Usable, Bridge, SnapshotOk, Collect, Replay;
    assert BookAt(Bridged(b, start), start) == Installed(b, raw.lastId, l);
    points := ReplayIsBridge(Bridged(b, start), start, b.buffer);
  }

  // ---- a replay that breaks off ----

  lemma {:induction false} ReplayStops(base: Book, points: seq<Point>, updates: seq<Update>, k: nat)
    requires k < |updates| && Bridge(base.limits, points, updates[..k])
    requires Apply(BookAt(base, points[k]), updates[k]).sequence.None?
    ensures Replay(BookAt(base, points[0]), updates) == Apply(BookAt(base, points[k]), updates[k])
    decreases k
  {
    hide Link;
    if k == 0 {
      EmptiedStaysEmpty(Apply(BookAt(base, points[0]), updates[0]), updates[1..]);
    } else {
      BridgeTail(base.limits, points, updates[..k]);
      assert updates[..k][1..] == updates[1..][..k - 1] && updates[..k][0] == updates[0];
      LinkIsApply(base, points[0], updates[0], points[1]);
      hide Apply, BookAt, Bridge;
      ReplayStops(base, points[1..], updates[1..], k - 1);
    }
  }

  /** A usable snapshot whose buffered updates link on only up to number `k`: that update empties the
      book, a gap keeps it for the next snapshot, and nothing after it is looked at. */
  lemma SnapshotStopsAtABreak(
      b: Book, raw: RawSnapshot, l: Levels, points: seq<Point>, k: nat, merged: Levels)
    requires k < |b.buffer| && Usable(b.limits, raw, l) && Bridge(b.limits, points, b.buffer[..k])
    requires points[0] == Point(raw.lastId, l, None) && Advances(b.limits, points[k].levels, b.buffer[k], merged)
    requires points[k].id < b.buffer[k].last
    requires b.buffer[k].first > points[k].id + 1 || !Sound(b.limits, merged)
    ensures var after, u := Snapshot(b, raw, b.epoch), b.buffer[k];
            if u.first > points[k].id + 1 then Emptied(b, after, SequenceGap, [u])
            else if !Counts(b.limits, merged) then Emptied(b, after, DepthCoverageReset, [])
            else if !Reaches(b.limits, merged) then Emptied(b, after, SnapshotCoverageExhausted, [])
            else Emptied(b, after, CrossedBook, [])
  {
    UsableIsInstalled(b.limits, raw, l);
    hide Usable, Bridge, SnapshotOk, Collect, Replay, Counts, Reaches, Ordered, Apply, Advances;
    var base := Bridged(b, points[0]);
    assert BookAt(base, points[0]) == Installed(b, raw.lastId, l);
    ApplyAnswers(BookAt(base, points[k]), b.buffer[k], merged);
    ReplayStops(base, points, b.buffer, k);
  }

  // ---- the published summary ----

  /** Twenty prices, or all there are: best first, and no other price of the side is better than any. */
  lemma Top20IsTheBest(side: Side, high: bool)
    ensures var r := Top20(side, high);
            && |r| == Min(20, |side|) && (forall i :: 0 <= i < |r| ==> r[i] in side)
            && (forall i, j :: 0 <= i < j < |r| ==> if high then r[i] > r[j] else r[i] < r[j])
            && (forall p, i :: p in side && p !in r && 0 <= i < |r| ==> if high then r[i] > p else r[i] < p)
  {
    var all, r := Ranked(side.Keys, high), Top20(side, high);
    RankedIsSorted(side.Keys, high);
    assert |side.Keys| == |side|;
    assert forall q :: 0 <= q < |r| ==> all[q] == r[q] && all[q] in r;
    forall p, i | p in side && p !in r && 0 <= i < |r| ensures if high then r[i] > p else r[i] < p {
      var k :| 0 <= k < |all| && all[k] == p;
      assert |r| <= k;
    }
  }

  /** Each price adds its own quantity times itself. */
  lemma QuoteAddsPriceTimesQuantity(side: Side, prices: seq<real>, p: real)
    requires p in side && forall i :: 0 <= i < |prices| ==> prices[i] in side
    ensures Quote(side, []) == 0.0 && Quote(side, prices + [p]) == Quote(side, prices) + p * side[p]
  {
    assert (prices + [p])[..|prices|] == prices;
  }
}

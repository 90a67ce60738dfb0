/** What every step of the collector does to the books, in terms of their fields, and what that means
    for the snapshot worker: which book it asks for, when, and what a reply leaves. */
module CollectorReplies {
  import opened Prelude
  import opened BookSpec
  import opened BookBridge
  import opened CollectorSpec

  /** The book of one symbol is another value; the objects and all other books are as they were. */
  ghost predicate OneBook(c: Collector, c': Collector, s: Symbol, b: Book) {
    && c'.nextId == c.nextId && c'.live.Keys == c.live.Keys && s in c.live
    && c'.live[s] == Entry(c.live[s].id, b)
    && forall t :: t in c.live && t != s ==> c'.live[t] == c.live[t]
  }

  lemma ChangesOneBook(c: Collector, c': Collector, s: Symbol, b: Book)
    requires OnlyChanged(c, c', s, b)
    ensures OneBook(c, c', s, b)
  {
  }

  /** The worker asks for a book exactly when some book has updates buffered, no sequence number, no
      request in flight and its waiting time behind it. It asks for such a book, in its current epoch. */
  lemma PicksExactlyWhen(c: Collector, c': Collector, now: real)
    requires PickStep(c, c', now)
    ensures c'.job.Some? <==>
            exists s :: s in c.live && var b := c.live[s].book;
                        b.sequence.None? && b.buffer != [] && !b.pending && b.retryAt <= now
    ensures c'.job.None? ==> c' == c
    ensures c'.job.Some? ==>
              var Job(s, id, epoch) := c'.job.value;
              && s in c.live && var b := c.live[s].book;
                 && b.sequence.None? && b.buffer != [] && !b.pending && b.retryAt <= now
                 && id == c.live[s].id && epoch == b.epoch && OneBook(c, c', s, b.(pending := true))
  {
    if c'.job.Some? {
      var s := c'.job.value.symbol;
      assert Eligible(c.live[s].book, now);
      ChangesOneBook(c, c', s, c.live[s].book.(pending := true));
    }
  }

  /** A delta reaches the book of its symbol only; one whose event time is invalid empties it. */
  lemma IngestsExactly(c: Collector, c': Collector, s: Symbol, onTime: bool, raw: RawDelta, now: real)
    requires IngestStep(c, c', s, onTime, raw, now)
    ensures c'.job == c.job && (s !in c.live ==> c' == c)
    ensures s in c.live ==>
              s in c'.live && var b, after := c.live[s].book, c'.live[s].book;
              && OneBook(c, c', s, after)
              && (onTime ==> after == Delta(b, raw, now)) && (!onTime ==> Emptied(b, after, EventTimeInvalid, []))
  {
    if s in c.live {
      ChangesOneBook(c, c', s, IngestBook(c.live[s].book, onTime, raw, now));
    }
  }

  /** A reconnect empties every book and leaves objects and request alone. */
  lemma ReconnectEmptiesAll(c: Collector, c': Collector)
    requires ResetStep(c, c')
    ensures c'.job == c.job && c'.nextId == c.nextId && c'.live.Keys == c.live.Keys
    ensures forall s :: s in c.live ==>
              c'.live[s].id == c.live[s].id && Emptied(c.live[s].book, c'.live[s].book, ConnectionReset, [])
  {
  }

  /** A reply for an object out of service or an epoch gone by changes nothing but the request. Any
      other reaches the one book that asked: ten seconds of waiting after a failure, one after an answer. */
  lemma AnswersExactly(c: Collector, c': Collector, reply: Reply, now: real)
    requires FinishStep(c, c', reply, now)
    ensures c.job.Some? && c'.job.None?
    ensures var Job(s, id, epoch) := c.job.value;
            if s !in c.live || c.live[s].id != id || c.live[s].book.epoch != epoch
            then c'.live == c.live && c'.nextId == c.nextId
            else s in c'.live && var b, after := c.live[s].book, c'.live[s].book;
            && OneBook(c, c', s, after)
            && (reply.Failed? ==>
                && after.retryAt == now + 10.0 && !after.pending && after.status.reason == SnapshotUnavailable
                && after == b.(retryAt := after.retryAt, pending := false,
                               status := Status(b.status.ready, after.status.reason, b.status.received)))
            && (reply.Arrived? ==> after == Snapshot(b, reply.raw, b.epoch).(retryAt := now + 1.0))
  {
    var j := c.job.value;
    if Current(c, j) {
      ChangesOneBook(c, c', j.symbol, Conclude(c.live[j.symbol].book, j.epoch, reply, now));
    }
  }

  // ---- over whole runs ----

  /** Step `i` takes the reply to a request of the book of `s` that is still in service and in the epoch
      of the request. */
  ghost predicate Replies(t: Trace, i: nat, s: Symbol)
    requires i < |t.actions| && |t.states| == |t.actions| + 1
  {
    && t.actions[i].FinishJob? && s in t.states[i].live
    && t.states[i].job == Some(Job(s, t.states[i].live[s].id, t.states[i].live[s].book.epoch))
  }

  /** Step `i` sends a request for the book object `id`. */
  ghost predicate Requests(t: Trace, i: nat, id: nat)
    requires i < |t.actions| && |t.states| == |t.actions| + 1
  {
    t.actions[i].PickJob? && t.states[i + 1].job.Some? && t.states[i + 1].job.value.id == id
  }

  function Wait(reply: Reply): real {
    if reply.Failed? then 10.0 else 1.0
  }

  lemma ReplySetsTheWait(t: Trace, i: nat, s: Symbol)
    requires IsRun(t) && i < |t.actions| && Replies(t, i, s)
    ensures var c, c' := t.states[i], t.states[i + 1];
            && s in c'.live && c'.live[s].id == c.live[s].id && c.live[s].id < c'.nextId
            && c'.live[s].book.retryAt == t.clock[i] + Wait(t.actions[i].reply)
  {
    StepInRun(t, i);
    AnswersExactly(t.states[i], t.states[i + 1], t.actions[i].reply, t.clock[i]);
    assert EntryOk(t.states[i], s, t.clock[i]);
  }

  lemma RequestNeedsTheWait(t: Trace, j: nat, id: nat) returns (s: Symbol)
    requires IsRun(t) && j < |t.actions| && Requests(t, j, id)
    ensures var c := t.states[j];
            s in c.live && c.live[s].id == id && c.live[s].book.retryAt <= t.clock[j]
  {
    StepInRun(t, j);
    PicksExactlyWhen(t.states[j], t.states[j + 1], t.clock[j]);
    s := t.states[j + 1].job.value.symbol;
  }

  /** Over every run: after a failed request the same book is not asked for again within ten seconds,
      and after an answer not within one, however many resets and deltas there are in between. */
  lemma RequestsAreSpaced(t: Trace, i: nat, j: nat, s: Symbol)
    requires IsRun(t) && i < j < |t.actions| && Replies(t, i, s) && Requests(t, j, t.states[i].live[s].id)
    ensures t.clock[j] >= t.clock[i] + if t.actions[i].reply.Failed? then 10.0 else 1.0
  {
    var id := t.states[i].live[s].id;
    ReplySetsTheWait(t, i, s);
    var u := RequestNeedsTheWait(t, j, id);
    var next := i + 1;
    RunLater(t, next, j);
    RunKeepsInv(t, next);
    hide StepAt, EntryOk, BookLater;
    assert u in t.states[next].live && t.states[next].live[u].id == id;
    assert u == s;
    LaterWaits(t.states[next].live[s].book, t.states[j].live[s].book);
  }

  lemma LaterWaits(b: Book, b': Book)
    requires BookLater(b, b')
    ensures b.retryAt <= b'.retryAt
  {
  }

  /** Over every run: an answer that is usable and bridged by what was buffered meanwhile puts the book
      at the last buffered update, verified exactly when one of them is newer than the snapshot. */
  lemma BridgedReplyVerifies(t: Trace, i: nat, s: Symbol, l: Levels, points: seq<Point>)
    requires IsRun(t) && i < |t.actions| && Replies(t, i, s) && t.actions[i].reply.Arrived?
    requires var b, raw := t.states[i].live[s].book, t.actions[i].reply.raw;
             && Usable(b.limits, raw, l) && Bridge(b.limits, points, b.buffer)
             && points[0] == Point(raw.lastId, l, None)
    ensures s in t.states[i + 1].live
    ensures var b, after := t.states[i].live[s].book, t.states[i + 1].live[s].book;
            && after.sequence == Some(points[|b.buffer|].id) && after.levels == points[|b.buffer|].levels
            && after.buffer == [] && !after.pending && after.epoch == b.epoch
            && (after.status.ready <==>
                exists k :: 0 <= k < |b.buffer| && b.buffer[k].last > t.actions[i].reply.raw.lastId)
  {
    StepInRun(t, i);
    AnswersExactly(t.states[i], t.states[i + 1], t.actions[i].reply, t.clock[i]);
    hide Usable, Bridge, Snapshot, FinishStep, EntryOk, IsRun;
    SnapshotBridges(t.states[i].live[s].book, t.actions[i].reply.raw, l, points);
  }
}

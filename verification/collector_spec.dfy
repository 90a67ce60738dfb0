/** The multiplexed depth collector as a state machine: any interleaving of symbol changes,
    connection resets, deltas and one snapshot worker whose replies may be late or lost. */
module CollectorSpec {
  import opened Prelude
  import opened BookSpec
  import opened BookTruth

  const BOOK_LIMITS: Limits := LimitValues(512, 100, 20)

  /** A book object in service; `id` is its identity, never given to another object. */
  datatype Entry = Entry(id: nat, book: Book)

  /** The snapshot request in flight: for which book object, and in which epoch of it. */
  datatype Job = Job(symbol: Symbol, id: nat, epoch: nat)

  datatype Collector = Collector(live: map<Symbol, Entry>, job: Option<Job>, nextId: nat)

  const EMPTY := Collector(map[], None, 0)

  datatype Reply = Arrived(raw: RawSnapshot) | Failed

  datatype Action =
    | SetSymbols(symbols: set<Symbol>)
    | ResetConnection
    | Ingest(symbol: Symbol, onTime: bool, raw: RawDelta, now: real)
    | PickJob(now: real)
    | FinishJob(reply: Reply)

  /** The job's book is still in service and has not been reset since the request. */
  predicate Current(c: Collector, j: Job) {
    j.symbol in c.live && c.live[j.symbol].id == j.id && c.live[j.symbol].book.epoch == j.epoch
  }

  predicate Eligible(b: Book, now: real) {
    b.sequence.None? && b.buffer != [] && !b.pending && now >= b.retryAt
  }

  function IngestBook(b: Book, onTime: bool, raw: RawDelta, now: real): Book {
    if onTime then Delta(b, raw, now) else Reset(b, EventTimeInvalid)
  }

  /** What the worker does to a book that is still current when the reply is there. */
  function Conclude(b: Book, epoch: nat, reply: Reply, now: real): Book {
    match reply
    case Arrived(raw) => Snapshot(b, raw, epoch).(retryAt := now + 1.0)
    case Failed => b.(pending := false, status := b.status.(reason := SnapshotUnavailable), retryAt := now + 10.0)
  }

  ghost predicate OnlyChanged(c: Collector, c': Collector, symbol: Symbol, b: Book) {
    symbol in c.live && c'.live == c.live[symbol := c.live[symbol].(book := b)] && c'.nextId == c.nextId
  }

  lemma OnlyChangedIntro(c: Collector, c': Collector, symbol: Symbol, b: Book)
    requires symbol in c.live && c'.live.Keys == c.live.Keys && c'.nextId == c.nextId
    requires forall s :: s in c.live && s != symbol ==> c'.live[s] == c.live[s]
    requires c'.live[symbol] == Entry(c.live[symbol].id, b)
    ensures OnlyChanged(c, c', symbol, b)
  {
    assert c'.live == c.live[symbol := c.live[symbol].(book := b)];
  }

  ghost predicate SetSymbolsStep(c: Collector, c': Collector, symbols: set<Symbol>) {
    && c'.live.Keys == symbols && c'.job == c.job && c.nextId <= c'.nextId
    && (forall s :: s in symbols && s in c.live ==> c'.live[s] == c.live[s])
    && (forall s :: s in symbols && s !in c.live ==>
          c.nextId <= c'.live[s].id < c'.nextId && c'.live[s].book == Fresh(BOOK_LIMITS))
    && (forall s, t :: s in symbols && t in symbols && s !in c.live && t !in c.live && s != t ==>
          c'.live[s].id != c'.live[t].id)
  }

  ghost predicate ResetStep(c: Collector, c': Collector) {
    && c'.live.Keys == c.live.Keys && c'.job == c.job && c'.nextId == c.nextId
    && forall s :: s in c.live ==> c'.live[s] == Entry(c.live[s].id, Reset(c.live[s].book, ConnectionReset))
  }

  ghost predicate IngestStep(c: Collector, c': Collector, symbol: Symbol, onTime: bool, raw: RawDelta, now: real) {
    if symbol in c.live then
      c'.job == c.job && OnlyChanged(c, c', symbol, IngestBook(c.live[symbol].book, onTime, raw, now))
    else c' == c
  }

  ghost predicate PickStep(c: Collector, c': Collector, now: real) {
    && c.job.None?
    && if forall s :: s in c.live ==> !Eligible(c.live[s].book, now) then c' == c
       else
         && c'.job.Some? && c'.job.value.symbol in c.live
         && Eligible(c.live[c'.job.value.symbol].book, now)
         && c'.job.value.id == c.live[c'.job.value.symbol].id
         && c'.job.value.epoch == c.live[c'.job.value.symbol].book.epoch
         && OnlyChanged(c, c', c'.job.value.symbol, c.live[c'.job.value.symbol].book.(pending := true))
  }

  ghost predicate FinishStep(c: Collector, c': Collector, reply: Reply, now: real) {
    && c.job.Some? && c'.job.None?
    && var j := c.job.value;
       if Current(c, j) then OnlyChanged(c, c', j.symbol, Conclude(c.live[j.symbol].book, j.epoch, reply, now))
       else c'.live == c.live && c'.nextId == c.nextId
  }

  /** One atomic step at clock reading `now`. */
  ghost predicate Step(c: Collector, c': Collector, a: Action, now: real) {
    match a
    case SetSymbols(symbols) => SetSymbolsStep(c, c', symbols)
    case ResetConnection => ResetStep(c, c')
    case Ingest(symbol, onTime, raw, at) => IngestStep(c, c', symbol, onTime, raw, at)
    case PickJob(at) => at == now && PickStep(c, c', at)
    case FinishJob(reply) => FinishStep(c, c', reply, now)
  }

  /** A run: states, the action between each two of them and the clock at that action. */
  datatype Trace = Trace(states: seq<Collector>, actions: seq<Action>, clock: seq<real>)

  ghost predicate StepAt(t: Trace, i: nat)
    requires i < |t.actions| == |t.clock| && |t.states| == |t.actions| + 1
  {
    0.0 <= t.clock[i] && Step(t.states[i], t.states[i + 1], t.actions[i], t.clock[i])
  }

  ghost predicate IsRun(t: Trace) {
    && |t.states| == |t.actions| + 1 && |t.clock| == |t.actions|
    && t.states[0] == EMPTY
    && (forall i :: 0 <= i < |t.actions| ==> StepAt(t, i))
    && (forall i, j :: 0 <= i <= j < |t.clock| ==> t.clock[i] <= t.clock[j])
  }

  // ---- the invariant ----

  /** `pending` holds exactly for the book whose current epoch has the one request in flight, and
      such a book has no sequence number yet; nobody waits more than ten seconds to retry. */
  ghost predicate EntryOk(c: Collector, s: Symbol, now: real)
    requires s in c.live
  {
    var e := c.live[s];
    && e.id < c.nextId
    && WellFormed(e.book) && e.book.limits == BOOK_LIMITS
    && (e.book.pending <==> c.job.Some? && c.job.value == Job(s, e.id, e.book.epoch))
    && (e.book.pending ==> e.book.sequence.None? && e.book.retryAt <= now)
    && e.book.retryAt <= now + 10.0
    && (c.job.Some? && c.job.value.id == e.id ==> c.job.value.symbol == s && c.job.value.epoch <= e.book.epoch)
  }

  ghost predicate Inv(c: Collector, now: real) {
    && (forall s :: s in c.live ==> EntryOk(c, s, now))
    && (forall s, t :: s in c.live && t in c.live && s != t ==> c.live[s].id != c.live[t].id)
    && (c.job.Some? ==> c.job.value.id < c.nextId)
  }

  /** What later states of a run still owe to an earlier one. */
  ghost predicate Later(c: Collector, c': Collector) {
    && c.nextId <= c'.nextId
    && forall s :: s in c'.live && c'.live[s].id < c.nextId ==>
         && s in c.live && c.live[s].id == c'.live[s].id
         && BookLater(c.live[s].book, c'.live[s].book)
  }

  /** Within one epoch a sequence number, once there, never disappears: either it grew, or it and the
      levels are as they were. The time of the next attempt never moves back. */
  ghost predicate BookLater(b: Book, b': Book) {
    && b.epoch <= b'.epoch && b.retryAt <= b'.retryAt
    && (b.epoch == b'.epoch && b.sequence.Some? ==>
          && b'.sequence.Some?
          && (b.sequence.value < b'.sequence.value || (b'.sequence == b.sequence && b'.levels == b.levels)))
  }

  // ---- one book under one message ----

  /** What an applied update leaves alone, and what a reset does to the epoch. */
  ghost predicate Moves(b: Book, b': Book) {
    && BookLater(b, b') && b'.retryAt == b.retryAt && b'.limits == b.limits
    && (b'.epoch == b.epoch ==> b'.pending == b.pending)
    && (b'.epoch != b.epoch ==> !b'.pending)
  }

  lemma SettleMoves(b: Book, merged: Levels, u: Update, verdict: Option<Reason>)
    requires b.sequence.Some? && b.sequence.value < u.last
    ensures Moves(b, Settle(b, merged, u, verdict))
  {
  }

  lemma ApplyMoves(b: Book, u: Update)
    requires b.sequence.Some?
    ensures Moves(b, Apply(b, u))
  {
    if u.first <= b.sequence.value + 1 <= u.last {
      SettleMoves(b, Merge(b.levels, u), u, Verdict(b.limits, Merge(b.levels, u)));
    }
  }

  lemma {:induction false} ReplayMoves(b: Book, updates: seq<Update>)
    ensures Moves(b, Replay(b, updates))
    decreases |updates|
  {
    if updates != [] && b.sequence.Some? {
      ApplyMoves(b, updates[0]);
      ReplayMoves(Apply(b, updates[0]), updates[1..]);
    }
  }

  lemma IngestMoves(b: Book, onTime: bool, raw: RawDelta, now: real)
    requires WellFormed(b)
    ensures var b' := IngestBook(b, onTime, raw, now);
            && WellFormed(b') && Moves(b, b')
            && (b'.epoch == b.epoch && b.sequence.None? ==> b'.sequence.None?)
  {
    if onTime {
      StepWellFormed(b, DeltaArrives(raw, now));
      var parsed := ParseDelta(raw, now);
      if parsed.Some? && b.sequence.Some? {
        ApplyMoves(b, parsed.value);
      }
    } else {
      ResetWellFormed(b, EventTimeInvalid);
    }
  }

  lemma SnapshotEffect(b: Book, raw: RawSnapshot)
    requires WellFormed(b) && b.sequence.None?
    ensures var b' := Snapshot(b, raw, b.epoch);
            WellFormed(b') && BookLater(b, b') && !b'.pending && b'.limits == b.limits
  {
    SnapshotWellFormed(b, raw, b.epoch);
    if SnapshotOk(b.limits, raw) {
      ReplayMoves(Installed(b, raw.lastId, SnapshotLevels(raw)), b.buffer);
    }
  }

  lemma ConcludeEffect(b: Book, reply: Reply, now: real)
    requires WellFormed(b) && b.sequence.None? && b.retryAt <= now
    ensures var b' := Conclude(b, b.epoch, reply, now);
            && WellFormed(b') && BookLater(b, b') && !b'.pending
            && b'.retryAt <= now + 10.0 && b'.limits == b.limits
            && (reply.Failed? ==> b'.sequence.None?)
  {
    if reply.Arrived? {
      SnapshotEffect(b, reply.raw);
    }
  }

  // ---- every step keeps the invariant ----

  lemma FreshWellFormed(limits: Limits)
    ensures WellFormed(Fresh(limits)) && Fresh(limits).limits == limits
    ensures !Fresh(limits).pending && Fresh(limits).retryAt == 0.0 && !Fresh(limits).status.ready
    ensures Fresh(limits).sequence == None && Fresh(limits).buffer == []
  {
  }

  lemma ResetWellFormed(b: Book, why: Reason)
    requires WellFormed(b) && why != SequenceVerified
    ensures WellFormed(Reset(b, why))
  {
  }

  lemma SetSymbolsKeeps(c: Collector, c': Collector, symbols: set<Symbol>, now: real)
    requires Inv(c, now) && 0.0 <= now && SetSymbolsStep(c, c', symbols)
    ensures Inv(c', now) && Later(c, c')
  {
    FreshWellFormed(BOOK_LIMITS);
    forall s | s in c'.live ensures EntryOk(c', s, now) {
      if s in c.live {
        assert EntryOk(c, s, now);
      }
    }
    forall s | s in c'.live && c'.live[s].id < c.nextId ensures s in c.live {
    }
    assert forall s :: s in c'.live && s in c.live ==> EntryOk(c, s, now);
  }

  lemma ResetKeeps(c: Collector, c': Collector, now: real)
    requires Inv(c, now) && ResetStep(c, c')
    ensures Inv(c', now) && Later(c, c')
  {
    forall s | s in c'.live ensures EntryOk(c', s, now) {
      assert EntryOk(c, s, now);
      ResetWellFormed(c.live[s].book, ConnectionReset);
    }
  }

  lemma IngestKeeps(c: Collector, c': Collector, symbol: Symbol, onTime: bool, raw: RawDelta, at: real, now: real)
    requires Inv(c, now) && IngestStep(c, c', symbol, onTime, raw, at)
    ensures Inv(c', now) && Later(c, c')
  {
    forall s | s in c'.live
      ensures s in c.live && c'.live[s].id == c.live[s].id
      ensures EntryOk(c', s, now) && BookLater(c.live[s].book, c'.live[s].book)
    {
      IngestEntry(c, c', symbol, onTime, raw, at, now, s);
    }
  }

  lemma IngestEntry(
      c: Collector, c': Collector, symbol: Symbol, onTime: bool, raw: RawDelta, at: real, now: real, s: Symbol)
    requires Inv(c, now) && IngestStep(c, c', symbol, onTime, raw, at) && s in c'.live
    ensures s in c.live && c'.live[s].id == c.live[s].id
    ensures EntryOk(c', s, now) && BookLater(c.live[s].book, c'.live[s].book)
  {
    assert EntryOk(c, s, now);
    if s == symbol {
      IngestMoves(c.live[s].book, onTime, raw, at);
    }
  }

  lemma PickKeeps(c: Collector, c': Collector, now: real)
    requires Inv(c, now) && PickStep(c, c', now)
    ensures Inv(c', now) && Later(c, c')
  {
    if c' != c {
      forall s | s in c'.live ensures EntryOk(c', s, now) {
        assert EntryOk(c, s, now);
      }
    }
  }

  lemma FinishKeeps(c: Collector, c': Collector, reply: Reply, now: real)
    requires Inv(c, now) && FinishStep(c, c', reply, now)
    ensures Inv(c', now) && Later(c, c')
  {
    forall s | s in c'.live
      ensures s in c.live && c'.live[s].id == c.live[s].id
      ensures EntryOk(c', s, now) && BookLater(c.live[s].book, c'.live[s].book)
    {
      FinishEntry(c, c', reply, now, s);
    }
  }

  lemma FinishEntry(c: Collector, c': Collector, reply: Reply, now: real, s: Symbol)
    requires Inv(c, now) && FinishStep(c, c', reply, now) && s in c'.live
    ensures s in c.live && c'.live[s].id == c.live[s].id
    ensures EntryOk(c', s, now) && BookLater(c.live[s].book, c'.live[s].book)
  {
    var j := c.job.value;
    assert EntryOk(c, s, now);
    if Current(c, j) && s == j.symbol {
      ConcludeEffect(c.live[s].book, reply, now);
    }
  }

  lemma StepKeeps(c: Collector, c': Collector, a: Action, now: real)
    requires Inv(c, now) && 0.0 <= now && Step(c, c', a, now)
    ensures Inv(c', now) && Later(c, c')
  {
    match a
    case SetSymbols(symbols) => SetSymbolsKeeps(c, c', symbols, now);
    case ResetConnection => ResetKeeps(c, c', now);
    case Ingest(symbol, onTime, raw, at) => IngestKeeps(c, c', symbol, onTime, raw, at, now);
    case PickJob(at) => PickKeeps(c, c', now);
    case FinishJob(reply) => FinishKeeps(c, c', reply, now);
  }

  // ---- whole runs ----

  /** The clock when state `i` was reached. */
  function ClockAt(t: Trace, i: nat): real
    requires i <= |t.clock|
  {
    if i == 0 then 0.0 else t.clock[i - 1]
  }

  lemma InvLater(c: Collector, now: real, later: real)
    requires Inv(c, now) && now <= later
    ensures Inv(c, later)
  {
    forall s | s in c.live ensures EntryOk(c, s, later) {
      assert EntryOk(c, s, now);
    }
  }

  lemma OneMoreStep(t: Trace, i: nat)
    requires IsRun(t) && i < |t.actions| && Inv(t.states[i], ClockAt(t, i))
    ensures Inv(t.states[i], t.clock[i]) && Inv(t.states[i + 1], ClockAt(t, i + 1))
    ensures Later(t.states[i], t.states[i + 1])
  {
    assert StepAt(t, i);
    InvLater(t.states[i], ClockAt(t, i), t.clock[i]);
    StepKeeps(t.states[i], t.states[i + 1], t.actions[i], t.clock[i]);
  }

  lemma {:induction false} RunKeepsInv(t: Trace, i: nat)
    requires IsRun(t) && i < |t.states|
    ensures Inv(t.states[i], ClockAt(t, i))
  {
    hide StepAt, EntryOk;
    if i > 0 {
      hide Inv;
      RunKeepsInv(t, i - 1);
      OneMoreStep(t, i - 1);
    }
  }

  lemma StepInRun(t: Trace, i: nat)
    requires IsRun(t) && i < |t.actions|
    ensures Inv(t.states[i], t.clock[i]) && Step(t.states[i], t.states[i + 1], t.actions[i], t.clock[i])
  {
    assert StepAt(t, i);
    RunKeepsInv(t, i);
    OneMoreStep(t, i);
  }

  lemma NextIsLater(t: Trace, i: nat)
    requires IsRun(t) && i < |t.actions|
    ensures Later(t.states[i], t.states[i + 1])
  {
    RunKeepsInv(t, i);
    OneMoreStep(t, i);
  }

  lemma LaterTransitive(a: Collector, b: Collector, c: Collector)
    requires Later(a, b) && Later(b, c)
    ensures Later(a, c)
  {
    forall s | s in c.live && c.live[s].id < a.nextId
      ensures s in a.live && a.live[s].id == c.live[s].id && BookLater(a.live[s].book, c.live[s].book)
    {
      assert s in b.live && b.live[s].id == c.live[s].id;
    }
  }

  /** Over a whole run: a book object that is still in service has been in service all along, its
      epoch never went back, and inside one epoch its sequence number only ever grew. */
  lemma {:induction false} RunLater(t: Trace, i: nat, j: nat)
    requires IsRun(t) && i <= j < |t.states|
    ensures Later(t.states[i], t.states[j])
    decreases j
  {
    if i < j {
      RunLater(t, i, j - 1);
      NextIsLater(t, j - 1);
      LaterTransitive(t.states[i], t.states[j - 1], t.states[j]);
    }
  }

  /** Step `i` of the run gives the book of `s` a sequence number in its running epoch. */
  ghost predicate Installs(t: Trace, i: nat, s: Symbol)
    requires i < |t.actions| && |t.states| == |t.actions| + 1
  {
    var c, c' := t.states[i], t.states[i + 1];
    && s in c.live && s in c'.live && c.live[s].id == c'.live[s].id
    && c.live[s].book.epoch == c'.live[s].book.epoch
    && c.live[s].book.sequence.None? && c'.live[s].book.sequence.Some?
  }

  lemma OnlyReplyInstalls(c: Collector, c': Collector, a: Action, now: real, s: Symbol)
    requires Inv(c, now) && Step(c, c', a, now) && !a.FinishJob?
    requires s in c.live && s in c'.live && c.live[s].id == c'.live[s].id
    requires c.live[s].book.epoch == c'.live[s].book.epoch && c.live[s].book.sequence.None?
    ensures c'.live[s].book.sequence.None?
  {
    if a.Ingest? && a.symbol == s {
      assert EntryOk(c, s, now);
      IngestMoves(c.live[s].book, a.onTime, a.raw, a.now);
    }
  }

  lemma ReplyInstallsItsJob(c: Collector, c': Collector, reply: Reply, now: real, s: Symbol)
    requires Inv(c, now) && FinishStep(c, c', reply, now) && s in c.live && s in c'.live
    requires c.live[s].book.sequence.None? && c'.live[s].book.sequence.Some?
    ensures reply.Arrived? && c.job == Some(Job(s, c.live[s].id, c.live[s].book.epoch))
  {
  }

  /** A snapshot is installed only by the reply to a request made for this very book object in
      this very epoch. */
  lemma OnlyTheRequestedReplyInstalls(t: Trace, i: nat, s: Symbol)
    requires IsRun(t) && i < |t.actions| && Installs(t, i, s)
    ensures t.actions[i].FinishJob? && t.actions[i].reply.Arrived?
    ensures t.states[i].job == Some(Job(s, t.states[i].live[s].id, t.states[i].live[s].book.epoch))
  {
    StepInRun(t, i);
    var a := t.actions[i];
    if a.FinishJob? {
      ReplyInstallsItsJob(t.states[i], t.states[i + 1], a.reply, t.clock[i], s);
    } else {
      OnlyReplyInstalls(t.states[i], t.states[i + 1], a, t.clock[i], s);
    }
  }

  /** A sequence number, once there, stays until the next reset; the levels change only as it grows. */
  lemma SequenceOnlyGrows(t: Trace, i: nat, j: nat, s: Symbol)
    requires IsRun(t) && i <= j < |t.states| && s in t.states[i].live && s in t.states[j].live
    requires t.states[i].live[s].id == t.states[j].live[s].id
    requires t.states[i].live[s].book.epoch == t.states[j].live[s].book.epoch
    requires t.states[i].live[s].book.sequence.Some?
    ensures var b, b' := t.states[i].live[s].book, t.states[j].live[s].book;
            && b'.sequence.Some?
            && (b.sequence.value < b'.sequence.value || (b'.sequence == b.sequence && b'.levels == b.levels))
  {
    RunKeepsInv(t, i);
    assert EntryOk(t.states[i], s, ClockAt(t, i));
    RunLater(t, i, j);
  }

  /** Each epoch of a book object installs at most one snapshot. */
  lemma OneInstallPerEpoch(t: Trace, i: nat, j: nat, s: Symbol)
    requires IsRun(t) && i < |t.actions| && j < |t.actions| && Installs(t, i, s) && Installs(t, j, s)
    requires t.states[i].live[s].id == t.states[j].live[s].id
    requires t.states[i].live[s].book.epoch == t.states[j].live[s].book.epoch
    ensures i == j
  {
    if i < j {
      SequenceOnlyGrows(t, i + 1, j, s);
    } else if j < i {
      SequenceOnlyGrows(t, j + 1, i, s);
    }
  }

  /** `pending` is true exactly for the book of the one request in flight. */
  lemma PendingIsTheJobInFlight(t: Trace, i: nat, s: Symbol)
    requires IsRun(t) && i < |t.states| && s in t.states[i].live
    ensures var c := t.states[i];
            c.live[s].book.pending <==> c.job == Some(Job(s, c.live[s].id, c.live[s].book.epoch))
  {
    RunKeepsInv(t, i);
    assert EntryOk(t.states[i], s, ClockAt(t, i));
  }

  /** No book is stuck: once the worker is idle, a book that buffers deltas without a sequence
      number can be picked again at the latest ten seconds later, and then some job is picked. */
  lemma NoBookIsStuck(t: Trace, i: nat, s: Symbol, now: real, c': Collector)
    requires IsRun(t) && i < |t.states| && s in t.states[i].live && t.states[i].job.None?
    requires t.states[i].live[s].book.sequence.None? && t.states[i].live[s].book.buffer != []
    requires now >= ClockAt(t, i) + 10.0 && PickStep(t.states[i], c', now)
    ensures Eligible(t.states[i].live[s].book, now) && c'.job.Some?
  {
    RunKeepsInv(t, i);
    assert EntryOk(t.states[i], s, ClockAt(t, i));
  }

  // ---- refinement for every symbol at once ----

  type Histories = Symbol -> History

  ghost predicate HonestAction(H: Histories, c: Collector, a: Action) {
    match a
    case Ingest(symbol, _, raw, now) =>
      ParseDelta(raw, now).Some? ==> HonestUpdate(H(symbol), ParseDelta(raw, now).value)
    case FinishJob(reply) => reply.Arrived? && c.job.Some? ==> HonestSnapshot(H(c.job.value.symbol), reply.raw)
    case _ => true
  }

  ghost predicate AllRefine(H: Histories, c: Collector) {
    forall s :: s in c.live ==> Refines(H(s), c.live[s].book)
  }

  lemma IngestRefines(h: History, b: Book, onTime: bool, raw: RawDelta, at: real)
    requires Genuine(h) && WellFormed(b) && Refines(h, b)
    requires ParseDelta(raw, at).Some? ==> HonestUpdate(h, ParseDelta(raw, at).value)
    ensures Refines(h, IngestBook(b, onTime, raw, at))
  {
    StepRefines(h, b, if onTime then DeltaArrives(raw, at) else ResetRequested(EventTimeInvalid));
  }

  lemma ConcludeRefines(h: History, b: Book, reply: Reply, now: real)
    requires Genuine(h) && WellFormed(b) && Refines(h, b)
    requires reply.Arrived? ==> HonestSnapshot(h, reply.raw)
    ensures Refines(h, Conclude(b, b.epoch, reply, now))
  {
    if reply.Arrived? {
      SnapshotRefines(h, b, reply.raw, b.epoch);
    }
  }

  lemma StepKeepsRefinement(H: Histories, c: Collector, c': Collector, a: Action, now: real)
    requires forall s :: Genuine(H(s))
    requires Inv(c, now) && AllRefine(H, c) && Step(c, c', a, now) && HonestAction(H, c, a)
    ensures AllRefine(H, c')
  {
    hide Genuine, WellFormed, LevelsFaithful, HonestUpdate, HonestSnapshot, Conclude, IngestBook;
    if a.Ingest? && a.symbol in c.live {
      assert EntryOk(c, a.symbol, now) && Genuine(H(a.symbol));
      IngestRefines(H(a.symbol), c.live[a.symbol].book, a.onTime, a.raw, a.now);
    } else if a.FinishJob? && Current(c, c.job.value) {
      var s := c.job.value.symbol;
      assert EntryOk(c, s, now) && Genuine(H(s));
      ConcludeRefines(H(s), c.live[s].book, a.reply, now);
    }
  }

  lemma OneMoreStepRefines(H: Histories, t: Trace, k: nat)
    requires HonestRun(H, t) && k < |t.actions| && AllRefine(H, t.states[k])
    ensures AllRefine(H, t.states[k + 1])
  {
    StepInRun(t, k);
    StepKeepsRefinement(H, t.states[k], t.states[k + 1], t.actions[k], t.clock[k]);
  }

  ghost predicate HonestRun(H: Histories, t: Trace) {
    && (forall s :: Genuine(H(s)))
    && IsRun(t)
    && forall k :: 0 <= k < |t.actions| ==> HonestAction(H, t.states[k], t.actions[k])
  }

  lemma {:induction false} RunRefinesEverySymbol(H: Histories, t: Trace, i: nat)
    requires HonestRun(H, t) && i < |t.states|
    ensures AllRefine(H, t.states[i])
  {
    hide Genuine, HonestAction, StepAt, Refines;
    if i > 0 {
      RunRefinesEverySymbol(H, t, i - 1);
      OneMoreStepRefines(H, t, i - 1);
    }
  }

  /** Whatever the interleaving, a verified book in service holds the 20 best levels per side of
      its own symbol's exchange book. */
  lemma CollectorBooksAreTheExchanges(H: Histories, t: Trace, i: nat, s: Symbol)
    requires HonestRun(H, t) && i < |t.states| && s in t.states[i].live
    requires t.states[i].live[s].book.status.ready
    ensures var b := t.states[i].live[s].book;
            b.sequence.Some? &&
            var truth := H(s)(b.sequence.value);
            && Top20(b.levels.bids, true) == Top20(truth.bids, true)
            && Top20(b.levels.asks, false) == Top20(truth.asks, false)
            && Quote(b.levels.bids, Top20(b.levels.bids, true)) == Quote(truth.bids, Top20(truth.bids, true))
            && Quote(b.levels.asks, Top20(b.levels.asks, false)) == Quote(truth.asks, Top20(truth.asks, false))
  {
    RunRefinesEverySymbol(H, t, i);
    RunKeepsInv(t, i);
    assert EntryOk(t.states[i], s, ClockAt(t, i));
    var b := t.states[i].live[s].book;
    var truth := H(s)(b.sequence.value);
    SideTop20IsTrue(b.levels.bids, truth.bids, true, b.levels.bidFloor, b.limits.minLevels);
    SideTop20IsTrue(b.levels.asks, truth.asks, false, b.levels.askCeiling, b.limits.minLevels);
  }
}

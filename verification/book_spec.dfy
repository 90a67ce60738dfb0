/** The sequence-verified depth book as a value: what one message does to it.
    Prices and quantities are exact reals, update ids are naturals. */
module BookSpec {
  import opened Prelude
  import opened Ranking

  /** One side of a book: price to resting quantity. */
  type Side = map<real, real>

  datatype Level = Level(price: real, quantity: real)

  /** A parsed depth message covering the update ids `first..last`. */
  datatype Update = Update(first: nat, last: nat, bids: seq<Level>, asks: seq<Level>, received: real)

  /** A depth message as it arrives: `Unreadable` stands for a missing or non-numeric field. */
  datatype RawDelta = Unreadable | RawDelta(first: int, last: int, bids: seq<Level>, asks: seq<Level>)

  datatype RawSnapshot = UnreadableSnapshot | RawSnapshot(lastId: int, bids: seq<Level>, asks: seq<Level>)

  datatype Reason =
    | NotInitialised | BufferOverflow | MalformedDepth | SequenceGap | DepthCoverageReset
    | SnapshotCoverageExhausted | CrossedBook | SequenceVerified | WaitingForBridge
    | InvalidSnapshot | ConnectionReset | EventTimeInvalid | SnapshotUnavailable

  datatype LimitValues = LimitValues(maxLevels: nat, maxBuffer: nat, minLevels: nat)
  type Limits = l: LimitValues | 1 <= l.minLevels witness LimitValues(1000, 300, 20)

  /** The two sides, and how far each of them was complete when the snapshot arrived. */
  datatype Levels = Levels(bids: Side, asks: Side, bidFloor: real, askCeiling: real)

  datatype Status = Status(ready: bool, reason: Reason, received: Option<real>)

  datatype Book = Book(
    limits: Limits, epoch: nat, resets: nat, levels: Levels, sequence: Option<nat>,
    buffer: seq<Update>, status: Status, pending: bool, retryAt: real)

  function Reset(b: Book, why: Reason): Book {
    b.(epoch := b.epoch + 1, resets := b.resets + 1, levels := b.levels.(bids := map[], asks := map[]),
       sequence := None, buffer := [], status := Status(false, why, None), pending := false)
  }

  function Fresh(limits: Limits): Book {
    Reset(Book(limits, 0, 0, Levels(map[], map[], 0.0, 0.0), None, [],
               Status(false, NotInitialised, None), false, 0.0), NotInitialised)
  }

  predicate LevelsOk(rows: seq<Level>) {
    forall i :: 0 <= i < |rows| ==> rows[i].price > 0.0 && rows[i].quantity >= 0.0
  }

  function ParseDelta(raw: RawDelta, now: real): Option<Update> {
    if raw.RawDelta? && 0 <= raw.first <= raw.last && LevelsOk(raw.bids) && LevelsOk(raw.asks)
    then Some(Update(raw.first, raw.last, raw.bids, raw.asks, now)) else None
  }

  /** A changed level overwrites its price; quantity zero removes the price. */
  function Put(side: Side, row: Level): Side {
    if row.quantity != 0.0 then side[row.price := row.quantity] else side - {row.price}
  }

  function PutAll(side: Side, rows: seq<Level>): Side {
    if rows == [] then side else Put(PutAll(side, rows[..|rows| - 1]), rows[|rows| - 1])
  }

  /** The levels of a snapshot side: rows of quantity zero are skipped, a later row wins. */
  function Collect(rows: seq<Level>): Side {
    if rows == [] then map[] else
      var rest, row := Collect(rows[..|rows| - 1]), rows[|rows| - 1];
      if row.quantity != 0.0 then rest[row.price := row.quantity] else rest
  }

  predicate LevelCountOk(limits: Limits, l: Levels) {
    && limits.minLevels <= Min(|l.bids|, |l.asks|)
    && Max(|l.bids|, |l.asks|) <= limits.maxLevels
  }

  /** The `minLevels` best prices of a side have not moved past the edge the snapshot reached. */
  predicate Covered(side: Side, high: bool, edge: real, minLevels: nat)
    requires 1 <= minLevels <= |side|
  {
    !Beats(high, edge, Ranked(side.Keys, high)[minLevels - 1])
  }

  predicate BothCovered(limits: Limits, l: Levels)
    requires LevelCountOk(limits, l)
  {
    Covered(l.bids, true, l.bidFloor, limits.minLevels) && Covered(l.asks, false, l.askCeiling, limits.minLevels)
  }

  predicate Crossed(l: Levels)
    requires l.bids.Keys != {} && l.asks.Keys != {}
  {
    Best(l.bids.Keys, true) >= Best(l.asks.Keys, false)
  }

  /** Why a merged book must be dropped, if it must: the first failing check names the reason. */
  function Verdict(limits: Limits, l: Levels): Option<Reason> {
    if !LevelCountOk(limits, l) then Some(DepthCoverageReset)
    else if !BothCovered(limits, l) then Some(SnapshotCoverageExhausted)
    else if Crossed(l) then Some(CrossedBook)
    else None
  }

  function Merge(l: Levels, u: Update): Levels {
    l.(bids := PutAll(l.bids, u.bids), asks := PutAll(l.asks, u.asks))
  }

  /** Takes a merged book with its verdict. */
  function Settle(b: Book, merged: Levels, u: Update, verdict: Option<Reason>): Book {
    match verdict
    case Some(why) => Reset(b, why)
    case None => b.(levels := merged, sequence := Some(u.last),
                    status := Status(true, SequenceVerified, Some(u.received)))
  }

  /** `_apply`: skip an old update, reject a gap, or merge and settle. */
  function Apply(b: Book, u: Update): Book
    requires b.sequence.Some?
  {
    if u.last <= b.sequence.value then b
    else if !(u.first <= b.sequence.value + 1 <= u.last) then Reset(b, SequenceGap).(buffer := [u])
    else Settle(b, Merge(b.levels, u), u, Verdict(b.limits, Merge(b.levels, u)))
  }

  function Delta(b: Book, raw: RawDelta, now: real): Book {
    match ParseDelta(raw, now)
    case None => Reset(b, MalformedDepth)
    case Some(u) =>
      if b.sequence.Some? then Apply(b, u)
      else
        var room := if |b.buffer| >= b.limits.maxBuffer then Reset(b, BufferOverflow) else b;
        room.(buffer := room.buffer + [u])
  }

  /** The buffered updates, oldest first, until one of them resets the book. */
  function Replay(b: Book, updates: seq<Update>): Book
    decreases |updates|
  {
    if updates == [] || b.sequence.None? then b else Replay(Apply(b, updates[0]), updates[1..])
  }

  predicate SnapshotOk(limits: Limits, raw: RawSnapshot) {
    && raw.RawSnapshot? && raw.lastId >= 0 && LevelsOk(raw.bids) && LevelsOk(raw.asks)
    && var l := Levels(Collect(raw.bids), Collect(raw.asks), 0.0, 0.0);
       LevelCountOk(limits, l) && !Crossed(l)
  }

  /** The levels a usable snapshot installs: each side is complete up to its own last price. */
  function SnapshotLevels(raw: RawSnapshot): Levels
    requires raw.RawSnapshot? && Collect(raw.bids).Keys != {} && Collect(raw.asks).Keys != {}
  {
    Levels(Collect(raw.bids), Collect(raw.asks),
           Best(Collect(raw.bids).Keys, false), Best(Collect(raw.asks).Keys, true))
  }

  /** The book right after a snapshot, before the buffered updates are replayed. */
  function Installed(b: Book, seqNo: nat, l: Levels): Book {
    b.(levels := l, sequence := Some(seqNo), buffer := [], pending := false,
       status := b.status.(ready := false, reason := WaitingForBridge))
  }

  function Snapshot(b: Book, raw: RawSnapshot, epoch: nat): Book {
    if epoch != b.epoch then b
    else if !SnapshotOk(b.limits, raw) then Reset(b, InvalidSnapshot)
    else Replay(Installed(b, raw.lastId, SnapshotLevels(raw)), b.buffer)
  }

  /** Quote value of the listed prices of a side. */
  function Quote(side: Side, prices: seq<real>): real
    requires forall i :: 0 <= i < |prices| ==> prices[i] in side
  {
    if prices == [] then 0.0 else
      Quote(side, prices[..|prices| - 1]) + prices[|prices| - 1] * side[prices[|prices| - 1]]
  }

  /** At most the 20 best prices of a side. */
  function Top20(side: Side, high: bool): (r: seq<real>)
    ensures forall i :: 0 <= i < |r| ==> r[i] in side
  {
    RankedIsSorted(side.Keys, high);
    var all := Ranked(side.Keys, high);
    assert forall i :: 0 <= i < |all| ==> all[i] in all;
    if |all| <= 20 then all else all[..20]
  }

  datatype Event =
    | DeltaArrives(raw: RawDelta, now: real)
    | SnapshotArrives(snapshot: RawSnapshot, epoch: nat)
    | ResetRequested(why: Reason)

  function Step(b: Book, e: Event): Book {
    match e
    case DeltaArrives(raw, now) => Delta(b, raw, now)
    case SnapshotArrives(raw, epoch) => Snapshot(b, raw, epoch)
    case ResetRequested(why) => Reset(b, why)
  }

  function Run(b: Book, events: seq<Event>): Book {
    if events == [] then b else Step(Run(b, events[..|events| - 1]), events[|events| - 1])
  }
}

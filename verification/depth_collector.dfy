/** The collector object: book objects by symbol, one snapshot request in flight. Every method is
    one lock-protected block and is proved to be one step of `CollectorSpec`. */
module DepthCollectors {
  import opened Prelude
  import BookSpec
  import CollectorSpec
  import opened DepthBooks

  datatype HeldJob = HeldJob(symbol: Symbol, book: DepthBook, epoch: nat)

  class DepthCollector {
    var books: map<Symbol, DepthBook>
    var job: Option<HeldJob>
    ghost var nextId: nat

    ghost predicate Valid()
      reads this, books.Values
    {
      && (forall s :: s in books ==> books[s].id < nextId)
      && (forall s, t :: s in books && t in books && s != t ==> books[s].id != books[t].id)
      && (job.Some? ==> job.value.book.id < nextId)
      && (job.Some? ==> forall s :: s in books && books[s].id == job.value.book.id ==> books[s] == job.value.book)
    }

    ghost function Abs(): CollectorSpec.Collector
      reads this, books.Values
    {
      CollectorSpec.Collector(
        map s | s in books :: CollectorSpec.Entry(books[s].id, books[s].State()),
        if job.None? then None
        else Some(CollectorSpec.Job(job.value.symbol, job.value.book.id, job.value.epoch)),
        nextId)
    }

    constructor ()
      ensures Valid() && Abs() == CollectorSpec.EMPTY
    {
      books, job, nextId := map[], None, 0;
    }

    method SetSymbols(symbols: set<Symbol>)
      requires Valid()
      modifies this`books, this`nextId
      ensures Valid() && CollectorSpec.SetSymbolsStep(old(Abs()), Abs(), symbols)
      ensures forall s :: s in symbols && s in old(books) ==> books[s] == old(books)[s]
    {
      AddMissing(symbols);
      assert symbols <= books.Keys;
      DropOthers(symbols);
    }

    method AddMissing(symbols: set<Symbol>)
      requires Valid()
      modifies this`books, this`nextId
      ensures Valid() && old(nextId) <= nextId
      ensures forall s :: s in books <==> s in old(books) || s in symbols
      ensures forall s :: s in old(books) ==> books[s] == old(books)[s]
      ensures forall s :: s in books && s !in old(books) ==> New(books[s], old(nextId))
    {
      var todo := symbols;
      while todo != {}
        invariant Valid() && todo <= symbols && old(nextId) <= nextId
        invariant forall s :: s in books <==> s in old(books) || (s in symbols && s !in todo)
        invariant forall s :: s in old(books) ==> books[s] == old(books)[s]
        invariant forall s :: s in books && s !in old(books) ==> New(books[s], old(nextId))
        decreases |todo|
      {
        ghost var some := Pick(todo);
        var s :| s in todo;
        if s !in books {
          AddBook(s);
        }
        todo := todo - {s};
      }
    }

    /** A book object made after identity `first` was handed out, still in its first state. */
    ghost predicate New(book: DepthBook, first: nat)
      reads book
    {
      first <= book.id && book.State() == BookSpec.Fresh(CollectorSpec.BOOK_LIMITS)
    }

    method AddBook(s: Symbol)
      requires Valid() && s !in books
      modifies this`books, this`nextId
      ensures Valid() && nextId == old(nextId) + 1
      ensures forall t :: t in books <==> t in old(books) || t == s
      ensures forall t :: t in old(books) ==> books[t] == old(books)[t]
      ensures New(books[s], old(nextId))
    {
      var book := new DepthBook(CollectorSpec.BOOK_LIMITS, nextId);
      books := books[s := book];
      nextId := nextId + 1;
    }

    method DropOthers(symbols: set<Symbol>)
      requires Valid() && symbols <= books.Keys
      modifies this`books
      ensures Valid() && books.Keys == symbols && forall s :: s in symbols ==> books[s] == old(books)[s]
    {
      var dropped := books.Keys - symbols;
      books := books - dropped;
    }

    method Ingest(symbol: Symbol, eventAgeOk: bool, raw: BookSpec.RawDelta, now: real) returns (applied: bool)
      requires Valid()
      modifies if symbol in books then {books[symbol]} else {}
      ensures Valid() && CollectorSpec.IngestStep(old(Abs()), Abs(), symbol, eventAgeOk, raw, now)
      ensures applied ==> symbol in books && eventAgeOk && books[symbol].status.ready
    {
      if symbol !in books {
        return false;
      }
      ghost var was := Abs();
      var book := books[symbol];
      assert forall s :: s in books && s != symbol ==> books[s] != book;
      applied := IngestBook(book, eventAgeOk, raw, now);
      CollectorSpec.OnlyChangedIntro(was, Abs(), symbol, book.State());
    }

    method IngestBook(book: DepthBook, eventAgeOk: bool, raw: BookSpec.RawDelta, now: real) returns (applied: bool)
      modifies book
      ensures book.State() == CollectorSpec.IngestBook(old(book.State()), eventAgeOk, raw, now)
      ensures applied ==> eventAgeOk && book.status.ready
    {
      if !eventAgeOk {
        book.Reset(BookSpec.EventTimeInvalid);
        return false;
      }
      applied := book.Delta(raw, now);
    }

    method ResetAll()
      requires Valid()
      modifies books.Values
      ensures Valid() && CollectorSpec.ResetStep(old(Abs()), Abs())
    {
      assert forall s, t :: s in books && t in books && s != t ==> books[s] != books[t];
      ResetEach();
    }

    method ResetEach()
      requires forall s, t :: s in books && t in books && s != t ==> books[s] != books[t]
      modifies books.Values
      ensures forall s :: s in books ==>
                books[s].State() == BookSpec.Reset(old(books[s].State()), BookSpec.ConnectionReset)
    {
      var todo := books.Keys;
      while todo != {}
        invariant todo <= books.Keys
        invariant forall s :: s in todo ==> books[s].State() == old(books[s].State())
        invariant forall s :: s in books && s !in todo ==>
                    books[s].State() == BookSpec.Reset(old(books[s].State()), BookSpec.ConnectionReset)
        decreases |todo|
      {
        ghost var some := Pick(todo);
        var s :| s in todo;
        books[s].Reset(BookSpec.ConnectionReset);
        todo := todo - {s};
      }
    }

    /** The worker looks for a book without a sequence number that has something buffered. */
    method PickJob(now: real)
      requires Valid() && job.None?
      modifies this`job, books.Values
      ensures Valid() && CollectorSpec.PickStep(old(Abs()), Abs(), now)
    {
      var todo := books.Keys;
      while todo != {}
        invariant todo <= books.Keys && unchanged(this) && unchanged(books.Values)
        invariant forall s :: s in books && s !in todo ==> !CollectorSpec.Eligible(books[s].State(), now)
        decreases |todo|
      {
        ghost var some := Pick(todo);
        var s :| s in todo;
        todo := todo - {s};
        var book := books[s];
        if book.sequence.None? && book.buffer != [] && !book.pending && now >= book.retryAt {
          Claim(s, now);
          return;
        }
      }
      assert forall s :: s in books ==> !CollectorSpec.Eligible(Abs().live[s].book, now);
    }

    /** Books the request for the book of `symbol`. */
    method Claim(symbol: Symbol, now: real)
      requires Valid() && job.None? && symbol in books && CollectorSpec.Eligible(books[symbol].State(), now)
      modifies this`job, books[symbol]
      ensures Valid() && CollectorSpec.PickStep(old(Abs()), Abs(), now)
    {
      ghost var was := Abs();
      var book := books[symbol];
      assert forall t :: t in books && t != symbol ==> books[t] != book;
      assert CollectorSpec.Eligible(Abs().live[symbol].book, now);
      book.pending := true;
      job := Some(HeldJob(symbol, book, book.epoch));
      CollectorSpec.OnlyChangedIntro(was, Abs(), symbol, was.live[symbol].book.(pending := true));
    }

    /** The reply is there, or the request failed: only the book object and epoch that asked for
        it may be touched. */
    method FinishJob(reply: CollectorSpec.Reply, now: real)
      requires Valid() && job.Some?
      modifies this`job, job.value.book
      ensures Valid() && CollectorSpec.FinishStep(old(Abs()), Abs(), reply, now)
    {
      var HeldJob(symbol, book, epoch) := job.value;
      assert symbol in books ==> (books[symbol] == book <==> books[symbol].id == book.id);
      if symbol in books && books[symbol] == book && book.epoch == epoch {
        Deliver(symbol, epoch, reply, now);
      } else {
        job := None;
      }
    }

    method Deliver(symbol: Symbol, epoch: nat, reply: CollectorSpec.Reply, now: real)
      requires Valid() && symbol in books && books[symbol].epoch == epoch
      requires job == Some(HeldJob(symbol, books[symbol], epoch))
      modifies this`job, books[symbol]
      ensures Valid() && CollectorSpec.FinishStep(old(Abs()), Abs(), reply, now)
    {
      ghost var was := Abs();
      var book := books[symbol];
      assert forall t :: t in books && t != symbol ==> books[t] != book;
      Conclude(book, epoch, reply, now);
      job := None;
      CollectorSpec.OnlyChangedIntro(was, Abs(), symbol, book.State());
    }

    method Conclude(book: DepthBook, epoch: nat, reply: CollectorSpec.Reply, now: real)
      modifies book
      ensures book.State() == CollectorSpec.Conclude(old(book.State()), epoch, reply, now)
    {
      match reply {
        case Arrived(raw) =>
          var _ := book.Snapshot(raw, epoch);
          book.retryAt := now + 1.0;
        case Failed =>
          book.pending := false;
          book.status := book.status.(reason := BookSpec.SnapshotUnavailable);
          book.retryAt := now + 10.0;
      }
    }
  }
}

/** The broker's balance cache: `free` always answers, from the account, from the cache, or with zero. */
module Brokers {
  import opened Prelude

  const MAX_AGE := 5.0

  /** The balance of one asset as last fetched, and when; `None` before the first fetch. */
  datatype Cache = Cache(stored: Option<real>, at: real)

  /** One call of `free`: its clock reading, and what the account query would say; `None` if it raises. */
  datatype Query = Query(now: real, account: Option<real>)

  predicate Stale(c: Cache, now: real) {
    c.stored.None? || now - c.at > MAX_AGE
  }

  function Held(c: Cache): real {
    if c.stored.Some? then c.stored.value else 0.0
  }

  function Asked(c: Cache, q: Query): Cache {
    if Stale(c, q.now) && q.account.Some? then Cache(q.account, q.now) else c
  }

  class Broker {
    var cache: Cache

    constructor ()
      ensures cache == Cache(None, 0.0)
    {
      cache := Cache(None, 0.0);
    }

    method Free(q: Query) returns (balance: real)
      modifies this
      ensures cache == Asked(old(cache), q) && balance == Held(cache)
      ensures if (old(cache).stored.None? || q.now - old(cache).at > 5.0) && q.account.Some?
              then cache == Cache(Some(balance), q.now) && q.account == Some(balance)
              else cache == old(cache) && balance == if cache.stored.Some? then cache.stored.value else 0.0
    {
      if cache.stored.None? || q.now - cache.at > MAX_AGE {
        if q.account.Some? {
          cache := Cache(q.account, q.now);
        }
      }
      balance := if cache.stored.Some? then cache.stored.value else 0.0;
    }

    method InvalidateBalanceCache()
      modifies this
      ensures cache == old(cache).(at := 0.0)
    {
      cache := cache.(at := 0.0);
    }
  }

  /** Two calls in a row answer alike exactly when the second finds the cache still valid, cannot ask
      the account, or is told the same balance again. */
  lemma TwoReadsAgreeExactlyWhen(c: Cache, first: Query, second: Query)
    ensures var mid := Asked(c, first);
            Held(Asked(mid, second)) == Held(mid) <==>
            || (mid.stored.Some? && second.now - mid.at <= 5.0)
            || second.account.None?
            || second.account == Some(Held(mid))
  {
  }
}

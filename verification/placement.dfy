/** Order placement with a reused client order id against an exchange whose replies may be lost. */
module Placement {
  import opened Prelude

  const MAX_ORDER_RETRIES := 5
  const NON_RETRYABLE := {-1013, -1100, -1111, -1121, -2010, -2011, -2015}

  /** Orders the exchange created under this one client id, first to last. */
  datatype World = World(refusesDuplicates: bool, lookupExact: bool, orders: seq<nat>)

  datatype ApiError = ApiError(status: Option<int>, code: int, duplicate: bool)

  /** How the answer to an order the exchange did process comes back. */
  datatype Answer = Delivered | ConnectionDies | Gateway(error: ApiError)

  /** What becomes of one send: it never arrives, it is refused, or the exchange processes it. */
  datatype Reach = Lost | Refused(error: ApiError) | Processed(answer: Answer)

  /** Everything the outside decides during one attempt; a lookup may fail even if the order is there. */
  datatype Attempt = Attempt(paused: bool, reach: Reach, lookupWorks: bool, secondLookupWorks: bool)

  datatype Reply = Placed(order: nat) | Rejected(error: ApiError) | NetworkError

  datatype Failure = IpPause | ApiFailure(error: ApiError) | NetworkFailure

  datatype Outcome = Returned(order: nat) | Raised(failure: Failure)

  datatype Result = Result(outcome: Outcome, world: World, sends: nat)

  const DUPLICATE_REJECT := ApiError(Some(400), -2010, true)

  predicate ServerError(e: ApiError) {
    e.status.Some? && 500 <= e.status.value < 600
  }

  /** An answer lost at the gateway shows up as a 5xx. */
  ghost predicate Realistic(env: nat -> Attempt) {
    forall k :: env(k).reach.Processed? && env(k).reach.answer.Gateway? ==> ServerError(env(k).reach.answer.error)
  }

  function AnswerTo(answer: Answer, direct: Reply): Reply {
    match answer
    case Delivered => direct
    case ConnectionDies => NetworkError
    case Gateway(error) => Rejected(error)
  }

  /** The exchange's side of one send. */
  function Submit(w: World, reach: Reach): (World, Reply) {
    match reach
    case Lost => (w, NetworkError)
    case Refused(error) => (w, Rejected(error))
    case Processed(answer) =>
      if w.refusesDuplicates && w.orders != [] then (w, AnswerTo(answer, Rejected(DUPLICATE_REJECT)))
      else (w.(orders := w.orders + [|w.orders|]), AnswerTo(answer, Placed(|w.orders|)))
  }

  function Lookup(w: World, works: bool): Option<nat> {
    if w.orders != [] && (works || w.lookupExact) then Some(w.orders[0]) else None
  }

  /** What the program makes of a reply: stop with an outcome, or try again remembering why. */
  datatype Decision = Stop(outcome: Outcome) | Retry(last: Failure)

  function Decide(w: World, reply: Reply, a: Attempt): Decision {
    match reply
    case Placed(order) => Stop(Returned(order))
    case NetworkError =>
      var found := Lookup(w, a.lookupWorks);
      if found.Some? then Stop(Returned(found.value)) else Retry(NetworkFailure)
    case Rejected(e) =>
      if e.status == Some(418) then Stop(Raised(ApiFailure(e)))
      else if e.status == Some(429) then Retry(ApiFailure(e))
      else
        var found := if ServerError(e) then Lookup(w, a.lookupWorks) else None;
        if found.Some? then Stop(Returned(found.value))
        else if e.code == -2010 && e.duplicate then
          var original := Lookup(w, a.secondLookupWorks);
          if original.Some? then Stop(Returned(original.value)) else Stop(Raised(ApiFailure(e)))
        else if e.code in NON_RETRYABLE then Stop(Raised(ApiFailure(e)))
        else Retry(ApiFailure(e))
  }

  /** `_place_idempotent` from attempt number `k` on. */
  function Place(w: World, env: nat -> Attempt, k: nat): Result
    requires k < MAX_ORDER_RETRIES
    decreases MAX_ORDER_RETRIES - k
  {
    var a := env(k);
    if a.paused then Result(Raised(IpPause), w, 0)
    else
      var (w', reply) := Submit(w, a.reach);
      match Decide(w', reply, a)
      case Stop(outcome) => Result(outcome, w', 1)
      case Retry(last) =>
        if k == MAX_ORDER_RETRIES - 1 then Result(Raised(last), w', 1)
        else
          var rest := Place(w', env, k + 1);
          rest.(sends := rest.sends + 1)
  }

  method PlaceIdempotent(start: World, env: nat -> Attempt) returns (r: Result)
    ensures r == Place(start, env, 0)
  {
    var w, sends := start, 0;
    var last := IpPause;
    var k := 0;
    while k < MAX_ORDER_RETRIES
      invariant 0 <= k <= MAX_ORDER_RETRIES && sends == k
      invariant if k < MAX_ORDER_RETRIES
                then Place(start, env, 0) == var rest := Place(w, env, k); rest.(sends := rest.sends + sends)
                else Place(start, env, 0) == Result(Raised(last), w, sends)
    {
      var a := env(k);
      if a.paused {
        return Result(Raised(IpPause), w, sends);
      }
      var (after, reply) := Submit(w, a.reach);
      sends := sends + 1;
      var decision := Decide(after, reply, a);
      if decision.Stop? {
        return Result(decision.outcome, after, sends);
      }
      w, last, k := after, decision.last, k + 1;
    }
    return Result(Raised(last), w, sends);
  }

  // ---- when it tries again ----

  /** The order is there and the lookup of this attempt finds it. */
  ghost predicate Finds(w: World, works: bool) {
    w.orders != [] && (works || w.lookupExact)
  }

  /** Another send follows only a rate limit, an unexplained error that is worth a retry, or a broken
      connection, and only when no order was found after the last two; never a ban, an error that cannot
      succeed, or a duplicate. */
  lemma TriesAgainExactlyWhen(w: World, reply: Reply, a: Attempt)
    ensures Decide(w, reply, a).Retry? <==>
            || (reply.NetworkError? && !Finds(w, a.lookupWorks))
            || (reply.Rejected? && reply.error.status == Some(429))
            || (&& reply.Rejected? && reply.error.status != Some(418) && reply.error.status != Some(429)
                && !(500 <= Status(reply.error) < 600 && Finds(w, a.lookupWorks))
                && reply.error.code !in {-1013, -1100, -1111, -1121, -2010, -2011, -2015})
    ensures Decide(w, reply, a).Retry? ==>
              Decide(w, reply, a).last == if reply.Rejected? then ApiFailure(reply.error) else NetworkFailure
  {
  }

  function Status(e: ApiError): int {
    if e.status.Some? then e.status.value else 0
  }

  /** A normal end hands back what the exchange answered, or the first order found after a lost answer, a
      server error or a duplicate. */
  lemma ReturnsExactlyWhen(w: World, reply: Reply, a: Attempt, order: nat)
    ensures Decide(w, reply, a) == Stop(Returned(order)) <==>
            || reply == Placed(order)
            || (reply.NetworkError? && Finds(w, a.lookupWorks) && order == w.orders[0])
            || (&& reply.Rejected? && reply.error.status != Some(418) && reply.error.status != Some(429)
                && w.orders != [] && order == w.orders[0]
                && ((500 <= Status(reply.error) < 600 && Finds(w, a.lookupWorks))
                    || (reply.error.code == -2010 && reply.error.duplicate && Finds(w, a.secondLookupWorks))))
  {
  }

  /** A pause after a ban sends nothing, and an error that ends the call is the exchange's own. */
  lemma PausedSendsNothing(w: World, env: nat -> Attempt, k: nat)
    requires k < MAX_ORDER_RETRIES && env(k).paused
    ensures Place(w, env, k) == Result(Raised(IpPause), w, 0)
  {
  }

  /** One attempt of the whole call: it ends the call or the next attempt goes on from what it left. */
  lemma OneAttempt(w: World, env: nat -> Attempt, k: nat)
    requires k < MAX_ORDER_RETRIES && !env(k).paused
    ensures var (after, reply) := Submit(w, env(k).reach);
            var decision, r := Decide(after, reply, env(k)), Place(w, env, k);
            && (decision.Stop? ==> r == Result(decision.outcome, after, 1))
            && (decision.Retry? && k + 1 == MAX_ORDER_RETRIES ==> r == Result(Raised(decision.last), after, 1))
            && (decision.Retry? && k + 1 < MAX_ORDER_RETRIES ==>
                  var rest := Place(after, env, k + 1); r == Result(rest.outcome, rest.world, rest.sends + 1))
            && (reply.Rejected? && decision.Stop? && decision.outcome.Raised? ==>
                  decision.outcome.failure == ApiFailure(reply.error))
  {
    hide Submit;
  }

  // ---- at most one order ----

  ghost predicate Guarded(w: World) {
    w.refusesDuplicates || w.lookupExact
  }

  /** With an exact lookup an order that exists ends the attempt that created it. */
  lemma ExactLookupStops(w: World, a: Attempt)
    requires w.lookupExact && w.orders == []
    requires a.reach.Processed? && a.reach.answer.Gateway? ==> ServerError(a.reach.answer.error)
    ensures var (w', reply) := Submit(w, a.reach);
            if w'.orders == [] then !Decide(w', reply, a).Stop? || Decide(w', reply, a).outcome.Raised?
            else w'.orders == [0] && Decide(w', reply, a) == Stop(Returned(0))
  {
  }

  /** With duplicates refused no attempt adds an order to an existing one. */
  lemma RefusalKeepsOne(w: World, a: Attempt)
    requires w.refusesDuplicates && |w.orders| <= 1
    ensures var (w', reply) := Submit(w, a.reach);
            && |w'.orders| <= 1
            && (Decide(w', reply, a).Stop? && Decide(w', reply, a).outcome.Returned? ==>
                  w'.orders == [Decide(w', reply, a).outcome.order])
  {
    var (w', reply) := Submit(w, a.reach);
    assert w.orders == [] ==> w'.orders == [] || w'.orders == [0];
    assert reply.Placed? ==> w'.orders == [0];
    assert w'.orders != [] ==> w'.orders == [w'.orders[0]];
  }

  /** At most one order so far, and whatever comes back is guarded against a second one. */
  ghost predicate AtMostOne(w: World) {
    Guarded(w) && |w.orders| <= 1 && (w.orders == [] || w.refusesDuplicates)
  }

  lemma AttemptKeepsOne(w: World, a: Attempt)
    requires AtMostOne(w)
    requires a.reach.Processed? && a.reach.answer.Gateway? ==> ServerError(a.reach.answer.error)
    ensures var (w', reply) := Submit(w, a.reach);
            var decision := Decide(w', reply, a);
            && |w'.orders| <= 1
            && (decision.Retry? ==> AtMostOne(w'))
            && (decision.Stop? && decision.outcome.Returned? ==> w'.orders == [decision.outcome.order])
  {
    SubmitKeepsKind(w, a.reach);
    hide Submit, Decide, ServerError;
    if w.refusesDuplicates {
      RefusalKeepsOne(w, a);
    } else {
      ExactLookupStops(w, a);
    }
  }

  lemma SubmitKeepsKind(w: World, reach: Reach)
    ensures var w' := Submit(w, reach).0;
            w'.refusesDuplicates == w.refusesDuplicates && w'.lookupExact == w.lookupExact
  {
  }

  /** One call creates at most one order for its client id, and a normal return hands it back. */
  lemma {:induction false} AtMostOneOrder(w: World, env: nat -> Attempt, k: nat)
    requires k < MAX_ORDER_RETRIES && Realistic(env) && AtMostOne(w)
    ensures var r := Place(w, env, k);
            && |r.world.orders| <= 1
            && (r.outcome.Returned? ==> r.world.orders == [r.outcome.order])
    decreases MAX_ORDER_RETRIES - k
  {
    hide Submit, Decide, ServerError, Guarded;
    var a := env(k);
    if !a.paused {
      var (w', reply) := Submit(w, a.reach);
      AttemptKeepsOne(w, a);
      if Decide(w', reply, a).Retry? && k < MAX_ORDER_RETRIES - 1 {
        AtMostOneOrder(w', env, k + 1);
      }
    }
  }

  /** With an exact lookup the status is never lost: the call returns exactly when an order exists. */
  lemma {:induction false} ExactLookupNeverLosesTheStatus(w: World, env: nat -> Attempt, k: nat)
    requires k < MAX_ORDER_RETRIES && Realistic(env) && w.lookupExact && w.orders == []
    ensures var r := Place(w, env, k);
            r.outcome.Returned? <==> r.world.orders != []
    decreases MAX_ORDER_RETRIES - k
  {
    var a := env(k);
    SubmitKeepsKind(w, a.reach);
    if !a.paused {
      ExactLookupStops(w, a);
      hide Submit, Decide, ServerError;
      var (w', reply) := Submit(w, a.reach);
      if Decide(w', reply, a).Retry? && k < MAX_ORDER_RETRIES - 1 {
        ExactLookupNeverLosesTheStatus(w', env, k + 1);
      }
    }
  }

  /** Never more than five sends. */
  lemma {:induction false} SendsBounded(w: World, env: nat -> Attempt, k: nat)
    requires k < MAX_ORDER_RETRIES
    ensures Place(w, env, k).sends <= 5 - k
    decreases MAX_ORDER_RETRIES - k
  {
    var a := env(k);
    if !a.paused && k < MAX_ORDER_RETRIES - 1 {
      SendsBounded(Submit(w, a.reach).0, env, k + 1);
    }
  }

  function LostThenDelivered(k: nat): Attempt {
    Attempt(false, Processed(if k == 0 then ConnectionDies else Delivered), false, false)
  }

  /** Without either protection the claim fails: the first reply is lost, the lookup fails, and
      the second send creates a second order. */
  lemma UnguardedCanDuplicate(w: World)
    requires !Guarded(w) && w.orders == []
    ensures Realistic(LostThenDelivered) && |Place(w, LostThenDelivered, 0).world.orders| == 2
  {
    var w1 := w.(orders := w.orders + [0]);
    assert Submit(w, LostThenDelivered(0).reach) == (w1, NetworkError);
    assert Submit(w1, LostThenDelivered(1).reach) == (w1.(orders := w1.orders + [1]), Placed(1));
    assert Place(w1, LostThenDelivered, 1).world.orders == w1.orders + [1];
  }

  /** So the claim holds against every outside behaviour exactly under one of the protections. */
  lemma AtMostOneIffGuarded(w: World)
    requires w.orders == []
    ensures (forall env {:trigger Realistic(env)} :: Realistic(env) ==> |Place(w, env, 0).world.orders| <= 1)
            <==> Guarded(w)
  {
    if Guarded(w) {
      forall env {:trigger Realistic(env)} | Realistic(env) ensures |Place(w, env, 0).world.orders| <= 1 {
        AtMostOneOrder(w, env, 0);
      }
    } else {
      UnguardedCanDuplicate(w);
    }
  }

  function AlwaysLost(k: nat): Attempt {
    Attempt(false, Processed(ConnectionDies), false, false)
  }

  /** Without an exact lookup the status can be lost, duplicates refused or not: every reply is lost,
      every lookup fails, and the call ends in an error with an order live. */
  lemma {:induction false} InexactLookupCanLoseTheStatus(w: World, k: nat)
    requires k < MAX_ORDER_RETRIES && !w.lookupExact
    ensures Place(w, AlwaysLost, k).outcome.Raised? && Place(w, AlwaysLost, k).world.orders != []
    decreases MAX_ORDER_RETRIES - k
  {
    var w' := Submit(w, AlwaysLost(k).reach).0;
    assert w'.orders != [] && !w'.lookupExact;
    if k < MAX_ORDER_RETRIES - 1 {
      InexactLookupCanLoseTheStatus(w', k + 1);
    }
  }

  /** So a call returns normally exactly when an order exists, against every outside behaviour, if and
      only if the lookup is exact. */
  lemma StatusNeverLostIffLookupExact(w: World)
    requires w.orders == []
    ensures (forall env {:trigger Realistic(env)} :: Realistic(env) ==>
               (Place(w, env, 0).outcome.Returned? <==> Place(w, env, 0).world.orders != []))
            <==> w.lookupExact
  {
    if w.lookupExact {
      forall env {:trigger Realistic(env)} | Realistic(env)
        ensures Place(w, env, 0).outcome.Returned? <==> Place(w, env, 0).world.orders != []
      {
        ExactLookupNeverLosesTheStatus(w, env, 0);
      }
    } else {
      InexactLookupCanLoseTheStatus(w, 0);
      assert Realistic(AlwaysLost);
    }
  }
}

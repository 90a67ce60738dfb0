/** The per-client request limiter behind the monitoring API's bearer check. */
module RateLimits {
  import opened Prelude
  import opened SlidingWindow

  /** A caller's address; only its identity matters. */
  type Client(==, 0, !new)

  /** One request with what the configuration, the token check and the audit log say to it. */
  datatype Request = Request(
    client: Client, enabled: bool, configured: bool, allowed: bool, tokenOk: bool, audited: bool, now: real)

  datatype Response =
    | Disabled | Misconfigured | AuditUnavailable | SourceDenied | Unauthorized | RateLimited | Authorized

  function At<V>(m: map<Client, seq<V>>, c: Client): seq<V> {
    if c in m then m[c] else []
  }

  /** Passes every check before the limiter. */
  predicate Authentic(q: Request) {
    q.enabled && q.configured && q.allowed && q.tokenOk
  }

  predicate Admitted(windows: map<Client, seq<real>>, limit: int, q: Request) {
    |DropOld(At(windows, q.client), q.now)| < limit
  }

  function Windows(windows: map<Client, seq<real>>, limit: int, q: Request): map<Client, seq<real>> {
    if !Authentic(q) then windows
    else
      var kept := DropOld(At(windows, q.client), q.now);
      windows[q.client := if |kept| < limit then kept + [q.now] else kept]
  }

  function Answer(windows: map<Client, seq<real>>, limit: int, q: Request): Response {
    if !q.enabled then Disabled
    else if !q.configured then Misconfigured
    else if !q.audited then AuditUnavailable
    else if !q.allowed then SourceDenied
    else if !q.tokenOk then Unauthorized
    else if !Admitted(windows, limit, q) then RateLimited
    else Authorized
  }

  class Gate {
    const limit: int
    var windows: map<Client, seq<real>>

    constructor (limit: int)
      ensures this.limit == limit && windows == map[]
    {
      this.limit := limit;
      windows := map[];
    }

    /** `require_bearer`: every failing branch writes the audit log before it answers. */
    method RequireBearer(q: Request) returns (response: Response)
      modifies this
      ensures windows == Windows(old(windows), limit, q)
      ensures response == Answer(old(windows), limit, q)
    {
      if !q.enabled {
        return Disabled;
      }
      if !q.configured {
        return Misconfigured;
      }
      if !q.allowed {
        return if q.audited then SourceDenied else AuditUnavailable;
      }
      if !q.tokenOk {
        return if q.audited then Unauthorized else AuditUnavailable;
      }
      var window := At(windows, q.client);
      while window != [] && q.now - window[0] >= SPAN
        invariant DropOld(window, q.now) == DropOld(At(old(windows), q.client), q.now)
      {
        window := window[1..];
      }
      if |window| >= limit {
        windows := windows[q.client := window];
        return if q.audited then RateLimited else AuditUnavailable;
      }
      windows := windows[q.client := window + [q.now]];
      return if q.audited then Authorized else AuditUnavailable;
    }
  }

  /** The other answers: who is told what, and that an unwritable log hides every answer behind it. */
  lemma RefusedBeforeTheLimiter(windows: map<Client, seq<real>>, limit: int, q: Request)
    ensures var answer := Answer(windows, limit, q);
            && (answer == Disabled <==> !q.enabled) && (answer == Misconfigured <==> q.enabled && !q.configured)
            && (answer == AuditUnavailable <==> q.enabled && q.configured && !q.audited)
            && (answer == SourceDenied <==> q.enabled && q.configured && q.audited && !q.allowed)
            && (answer == Unauthorized <==> q.enabled && q.configured && q.audited && q.allowed && !q.tokenOk)
  {
  }

  // ---- every run ----

  /** Beside the windows: the times at which each client was counted, and was answered `Authorized`. */
  datatype World = World(
    windows: map<Client, seq<real>>, counted: map<Client, seq<real>>, authorized: map<Client, seq<real>>, clock: real)

  function Noted(m: map<Client, seq<real>>, c: Client, t: real, yes: bool): map<Client, seq<real>> {
    if yes then m[c := At(m, c) + [t]] else m
  }

  function Serve(w: World, limit: int, q: Request): World {
    World(Windows(w.windows, limit, q),
          Noted(w.counted, q.client, q.now, Authentic(q) && Admitted(w.windows, limit, q)),
          Noted(w.authorized, q.client, q.now, Answer(w.windows, limit, q) == Authorized), q.now)
  }

  ghost predicate RunOk(w: World, limit: int, requests: seq<Request>)
    decreases |requests|
  {
    requests == [] || (w.clock <= requests[0].now && RunOk(Serve(w, limit, requests[0]), limit, requests[1..]))
  }

  function Run(w: World, limit: int, requests: seq<Request>): World
    decreases |requests|
  {
    if requests == [] then w else Run(Serve(w, limit, requests[0]), limit, requests[1..])
  }

  ghost predicate ClientOk(w: World, limit: int, c: Client) {
    && Tracks(At(w.windows, c), At(w.counted, c), w.clock) && Spaced(At(w.counted, c), Max(0, limit))
    && (limit <= 0 ==> At(w.counted, c) == [])
    && (forall s: real :: Within(At(w.authorized, c), s) <= Within(At(w.counted, c), s))
  }

  lemma MoreAuthorized(auth: seq<real>, counted: seq<real>, t: real, yes: bool)
    requires forall s: real :: Within(auth, s) <= Within(counted, s)
    ensures forall s: real :: Within(if yes then auth + [t] else auth, s) <= Within(counted + [t], s)
  {
    forall s: real ensures Within(if yes then auth + [t] else auth, s) <= Within(counted + [t], s) {
      WithinSnoc(auth, t, s);
      WithinSnoc(counted, t, s);
    }
  }

  lemma ServeKeeps(w: World, limit: int, q: Request, c: Client)
    requires ClientOk(w, limit, c) && w.clock <= q.now
    ensures ClientOk(Serve(w, limit, q), limit, c)
  {
    hide Tracks, Spaced, Within;
    var calls, counted := At(w.windows, c), At(w.counted, c);
    if c != q.client || !Authentic(q) {
      LaterTracks(calls, counted, w.clock, q.now);
    } else {
      PurgeTracks(calls, counted, w.clock, q.now);
      if Admitted(w.windows, limit, q) {
        GrantKeeps(DropOld(calls, q.now), counted, q.now, Max(0, limit), q.now);
        MoreAuthorized(At(w.authorized, c), counted, q.now, q.audited);
      }
    }
  }

  lemma {:induction false} RunKeeps(w: World, limit: int, requests: seq<Request>, c: Client)
    requires ClientOk(w, limit, c) && RunOk(w, limit, requests)
    ensures ClientOk(Run(w, limit, requests), limit, c)
    decreases |requests|
  {
    hide ClientOk, Serve;
    if requests != [] {
      ServeKeeps(w, limit, requests[0], c);
      RunKeeps(Serve(w, limit, requests[0]), limit, requests[1..], c);
    }
  }

  /** No client is authorised more than `limit` times in any 60 seconds, whatever the requests. */
  lemma ClientsStayWithinTheLimit(start: real, limit: int, requests: seq<Request>, c: Client, s: real)
    requires RunOk(World(map[], map[], map[], start), limit, requests)
    ensures Within(At(Run(World(map[], map[], map[], start), limit, requests).authorized, c), s) <= Max(0, limit)
  {
    var w0 := World(map[], map[], map[], start);
    assert ClientOk(w0, limit, c);
    RunKeeps(w0, limit, requests, c);
    AnySpanHoldsAtMost(At(Run(w0, limit, requests).counted, c), Max(0, limit), s);
  }

  /** An authentic request is refused for its rate exactly when the client was counted `limit` times
      in the last 60 seconds, and otherwise counted, whether or not the log could be written; any other
      request uses up nobody's quota, and an authentic one only its own client's. */
  lemma RefusedExactlyAtTheLimit(w: World, limit: int, q: Request, other: Client)
    requires ClientOk(w, limit, q.client) && w.clock <= q.now
    ensures var answer, after := Answer(w.windows, limit, q), Windows(w.windows, limit, q);
            var recent := Recent(At(w.counted, q.client), q.now);
            && (answer == Authorized <==>
                q.enabled && q.configured && q.allowed && q.tokenOk && q.audited && |recent| < limit)
            && (answer == RateLimited <==>
                q.enabled && q.configured && q.allowed && q.tokenOk && q.audited && |recent| >= limit)
            && (if q.enabled && q.configured && q.allowed && q.tokenOk
                then At(after, q.client) == if |recent| < limit then recent + [q.now] else recent
                else after == w.windows)
            && (other != q.client ==> At(after, other) == At(w.windows, other))
  {
    hide Tracks, Spaced, Within, Recent, DropOld;
    PurgeTracks(At(w.windows, q.client), At(w.counted, q.client), w.clock, q.now);
    PurgingChangesNoAnswer(At(w.windows, q.client), At(w.counted, q.client), w.clock, q.now);
  }
}

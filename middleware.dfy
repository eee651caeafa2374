/** The three request middlewares of src/middleware.py. The downstream handler (`call_next`) is not
    modelled: a middleware that forwards answers `Ok`, and the response it post-processes is passed in. */
module Middleware {
  import opened Common
  import opened Session
  import Security

  // ---------------------------------------------------------------- security headers

  /** The part of a response the header middleware touches. */
  class Response {
    var status: int
    var headers: map<string, string>

    constructor (status: int, headers: map<string, string>)
      ensures this.status == status && this.headers == headers
    {
      this.status := status;
      this.headers := headers;
    }
  }

  /** The headers after the table is applied: every table header has its exact value, replacing a header
      of the same name, and every other header is as it was. */
  function WithSecurityHeaders(headers: map<string, string>): (h: map<string, string>)
    ensures h.Keys == headers.Keys + Security.SecurityHeaders.Keys
    ensures forall k :: k in Security.SecurityHeaders ==> h[k] == Security.SecurityHeaders[k]
    ensures forall k :: k in headers && k !in Security.SecurityHeaders ==> h[k] == headers[k]
  {
    headers + Security.SecurityHeaders
  }

  /** `SecurityMiddleware.dispatch`: assigns every entry of the table into the response's headers. */
  method SecurityDispatch(response: Response)
    modifies response
    ensures response.status == old(response.status)
    ensures response.headers == WithSecurityHeaders(old(response.headers))
  {
    var table := Security.SecurityHeaders;
    var pending := table.Keys;
    while pending != {}
      invariant pending <= table.Keys
      invariant response.status == old(response.status)
      invariant response.headers == old(response.headers) + (map k | k in table.Keys - pending :: table[k])
      decreases pending
    {
      var key :| key in pending;
      response.headers := response.headers[key := table[key]];
      pending := pending - {key};
    }
    assert (map k | k in table.Keys - pending :: table[k]) == table;
  }

  // ---------------------------------------------------------------- session refresh

  /** The session after `SessionMiddleware.dispatch` at `now`: a stored record gets its last activity
      set to `now` and is written back; without a record nothing changes. */
  function Refreshed(session: map<string, Json>, now: int): (s: map<string, Json>)
    requires WellFormed(session)
    ensures WellFormed(s)
  {
    match GetSessionData(session)
    case Present(d) => session["session" := ToDict(d.(lastActivity := now))]
    case _ => session
  }

  /** The refresh changes only the last activity time of an existing record: identity, role and creation
      time are kept and every other session key is untouched. With no record, nothing changes. */
  lemma RefreshTouchesOnlyLastActivity(session: map<string, Json>, now: int)
    requires WellFormed(session)
    ensures "session" !in session ==> Refreshed(session, now) == session
    ensures "session" in session ==>
      var before := GetSessionData(session).data;
      && GetSessionData(Refreshed(session, now)).Present?
      && var after := GetSessionData(Refreshed(session, now)).data;
      && after.userId == before.userId && after.username == before.username && after.role == before.role
      && after.createdAt == before.createdAt && after.lastActivity == now
    ensures Refreshed(session, now).Keys == session.Keys
    ensures forall k :: k in session && k != "session" ==> Refreshed(session, now)[k] == session[k]
  {
    if "session" in session {
      FromDictToDict(GetSessionData(session).data.(lastActivity := now));
    }
  }

  /** `SessionMiddleware.dispatch`; the request is then always forwarded. */
  method SessionDispatch(request: RequestSession, now: int)
    requires request.Valid()
    modifies request
    ensures request.Valid()
    ensures request.entries == Refreshed(old(request.entries), now)
  {
    var lookup := GetSessionData(request.entries);
    if lookup.Present? {
      var data := lookup.data.(lastActivity := now);
      request.entries := request.entries["session" := ToDict(data)];
    }
  }

  // ---------------------------------------------------------------- rate limiting

  /** Clients are forgotten once their newest request is this many seconds old. */
  const WindowSeconds := 60

  /** The newest timestamp of a nonempty list, `times[-1]`. */
  function Newest(times: seq<int>): int
    requires times != []
  {
    times[|times| - 1]
  }

  /** The opening purge: keeps exactly the clients whose newest request is younger than one minute,
      with their lists unchanged. */
  function Purge(requests: map<string, seq<int>>, now: int): (live: map<string, seq<int>>)
    requires forall ip :: ip in requests ==> requests[ip] != []
    ensures live.Keys <= requests.Keys
    ensures forall ip :: ip in requests ==> (ip in live <==> now - Newest(requests[ip]) < WindowSeconds)
    ensures forall ip :: ip in live ==> live[ip] == requests[ip]
  {
    map ip | ip in requests && now - Newest(requests[ip]) < WindowSeconds :: requests[ip]
  }

  /** Largest length a stored list can reach. */
  function Capacity(requestsPerMinute: int): (c: int)
    ensures c >= 1 && c >= requestsPerMinute
  {
    if requestsPerMinute < 1 then 1 else requestsPerMinute
  }

  /** The table invariant: every stored list is nonempty and no longer than the capacity. */
  predicate WithinCapacity(requests: map<string, seq<int>>, requestsPerMinute: int)
  {
    forall ip :: ip in requests ==> requests[ip] != [] && |requests[ip]| <= Capacity(requestsPerMinute)
  }

  class RateLimitMiddleware {
    const requestsPerMinute: int
    var requests: map<string, seq<int>>

    ghost predicate Valid()
      reads this
    {
      WithinCapacity(requests, requestsPerMinute)
    }

    constructor (requestsPerMinute: int := 60)
      ensures Valid() && this.requestsPerMinute == requestsPerMinute && requests == map[]
    {
      this.requestsPerMinute := requestsPerMinute;
      requests := map[];
    }

    /** `RateLimitMiddleware.dispatch` for a request from `clientIp` at `now`. After the purge: an unknown
        client is admitted with `[now]`; a client with fewer than the limit is admitted and `now` appended;
        a full client whose oldest time is younger than a minute gets 429 and keeps its list; otherwise the
        oldest time is dropped and `now` appended. */
    method Dispatch(clientIp: string, now: int) returns (r: Result<()>)
      requires Valid()
      modifies this
      ensures Valid()
      ensures var live := Purge(old(requests), now);
        && (clientIp !in live ==> r == Ok(()) && requests == live[clientIp := [now]])
        && (clientIp in live && |live[clientIp]| < requestsPerMinute ==>
              r == Ok(()) && requests == live[clientIp := live[clientIp] + [now]])
        && (clientIp in live && |live[clientIp]| >= requestsPerMinute && now - live[clientIp][0] < WindowSeconds ==>
              r == Err(TooManyRequests) && requests == live)
        && (clientIp in live && |live[clientIp]| >= requestsPerMinute && now - live[clientIp][0] >= WindowSeconds ==>
              r == Ok(()) && requests == live[clientIp := live[clientIp][1..] + [now]]
              && |requests[clientIp]| == |live[clientIp]|)
    {
      requests := Purge(requests, now);
      if clientIp in requests {
        var times := requests[clientIp];
        if |times| >= requestsPerMinute {
          if now - times[0] < WindowSeconds {
            return Err(TooManyRequests);
          }
          times := times[1..];
        }
        times := times + [now];
        requests := requests[clientIp := times];
      } else {
        requests := requests[clientIp := [now]];
      }
      return Ok(());
    }
  }
}

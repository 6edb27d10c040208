/**
 The HTTP handlers run one at a time, with the cache and with the cache removed: over every sequence of requests
 and whatever the clocks show, both servers give the same answers and keep the same tables.
 */
module Server {
  import opened Basics
  import opened Strings
  import opened Database
  import opened History
  import opened Queries
  import opened Views
  import opened Cache
  import opened RateLimiter
  import opened Storage

  const ACTIVE_RIDES_LIMIT := 100
  const ACTIVE_RIDES_KEY := "GET:/rides?status=active"

  /** `limitAt`, `getAt`, `setAt`: what the clocks show at the limiter, at the cache read and at the cache fill. */
  datatype Clocks = Clocks(limitAt: int, getAt: int, setAt: int)

  /** `id` and `at` are what the identity sequence and the database clock supply. */
  datatype Request =
    | GetRides(userArg: string, status: string)
    | GetUsers(login: string, mask: string)
    | PostUsers(id: int, login: string, password: string, fullName: string)
    | PostDrivers(id: int, userId: int, carModel: string, carNumber: string, licenseNumber: string)
    | PostRides(id: int, passengerId: int, pickup: string, destination: string, at: int)
    | PatchAccept(rideArg: string, driver: int)
    | PatchComplete(rideArg: string, at: int)

  datatype Payload =
    | Error
    | Content(body: Body)
    | UserRow(id: int, user: UserView)
    | DriverRow(id: int, driver: Driver)
    | RideRow(id: int, ride: RideView)

  datatype Response = Response(status: int, payload: Payload)

  /** What a request turns into once its arguments are read. */
  datatype Plan = Reject(status: int) | Read(query: Query) | Write(op: Op)

  function PlanOf(request: Request): Plan {
    match request
    case GetRides(userArg, status) =>
      if userArg != "" then Read(RidesOf(userArg))
      else if status == "active" then Read(ActiveRides)
      else Reject(400)
    case GetUsers(login, mask) =>
      if (login != "") == (mask != "") then Reject(400)
      else if login != "" then Read(UserWithLogin(login))
      else Read(UsersMatching(mask))
    case PostUsers(id, login, password, fullName) =>
      if login == "" || password == "" || fullName == "" then Reject(400)
      else Write(CreateUser(id, login, password, fullName))
    case PostDrivers(id, userId, carModel, carNumber, licenseNumber) =>
      if userId <= 0 || carModel == "" || carNumber == "" || licenseNumber == "" then Reject(400)
      else Write(CreateDriver(id, userId, carModel, carNumber, licenseNumber))
    case PostRides(id, passengerId, pickup, destination, at) =>
      if passengerId <= 0 || pickup == "" || destination == "" then Reject(400)
      else Write(CreateRide(id, passengerId, pickup, destination, at))
    case PatchAccept(rideArg, driver) =>
      if rideArg == "" then Reject(400)
      else if Stoi(rideArg).None? then Reject(500)
      else if driver <= 0 then Reject(400)
      else Write(AcceptRide(Stoi(rideArg).value, driver))
    case PatchComplete(rideArg, at) =>
      if rideArg == "" then Reject(400)
      else if Stoi(rideArg).None? then Reject(500)
      else Write(CompleteRide(Stoi(rideArg).value, at))
  }

  function Reply(answer: Answer): Response {
    match answer
    case Found(body) => Response(200, Content(body))
    case Missing => Response(404, Error)
    case Fault => Response(500, Error)
  }

  /** The row a successful write returns. */
  function Written(db: Tables, op: Op): Response
    requires Enabled(db, op)
  {
    match op
    case CreateUser(id, _, _, _) => Response(201, UserRow(id, ShowUser(Apply(db, op).users[id])))
    case CreateDriver(id, _, _, _, _) => Response(201, DriverRow(id, Apply(db, op).drivers[id]))
    case CreateRide(id, _, _, _, _) => Response(201, RideRow(id, ShowRide(Apply(db, op).rides[id])))
    case AcceptRide(ride, _) => Response(200, RideRow(ride, ShowRide(Apply(db, op).rides[ride])))
    case CompleteRide(ride, _) => Response(200, RideRow(ride, ShowRide(Apply(db, op).rides[ride])))
  }

  function LimiterCall(at: int): RateLimiter.Call {
    RateLimiter.Call(ACTIVE_RIDES_KEY, ACTIVE_RIDES_LIMIT, 60, at)
  }

  // ---------- the server without a cache ----------

  datatype Plain = Plain(db: Tables, buckets: map<string, Bucket>)

  function PlainStep(s: Plain, request: Request, clocks: Clocks, like: Like): (Plain, Response) {
    match PlanOf(request)
    case Reject(status) => (s, Response(status, Error))
    case Read(query) =>
      var s' := if query.ActiveRides? then s.(buckets := Record(s.buckets, LimiterCall(clocks.limitAt))) else s;
      if query.ActiveRides? && !Judge(s.buckets, LimiterCall(clocks.limitAt)).allowed then (s', Response(429, Error))
      else (s', Reply(Fresh(query, s.db, like)))
    case Write(op) =>
      if Enabled(s.db, op) then (s.(db := Apply(s.db, op)), Written(s.db, op)) else (s, Response(409, Error))
  }

  // ---------- the server as it is ----------

  datatype Cached = Cached(db: Tables, buckets: map<string, Bucket>, cache: CacheState<Body>)

  /** Read the cache; on a miss ask the database and store what was found. */
  function CacheAside(cache: CacheState<Body>, query: Query, db: Tables, clocks: Clocks, like: Like)
    : (CacheState<Body>, Response)
  {
    var key := CacheKey(query);
    var looked := Perform(cache, Cache.Get(key, clocks.getAt));
    match Lookup(cache.entries, key, clocks.getAt)
    case Some(body) => (looked, Response(200, Content(body)))
    case None =>
      match Fresh(query, db, like)
      case Found(body) =>
        (Perform(looked, Cache.Set(key, body, clocks.setAt, Ttl(query))), Response(200, Content(body)))
      case Missing => (looked, Response(404, Error))
      case Fault => (looked, Response(500, Error))
  }

  function CachedStep(s: Cached, request: Request, clocks: Clocks, like: Like): (Cached, Response) {
    match PlanOf(request)
    case Reject(status) => (s, Response(status, Error))
    case Read(query) =>
      var s' := if query.ActiveRides? then s.(buckets := Record(s.buckets, LimiterCall(clocks.limitAt))) else s;
      if query.ActiveRides? && !Judge(s.buckets, LimiterCall(clocks.limitAt)).allowed then (s', Response(429, Error))
      else
        var (cache, response) := CacheAside(s.cache, query, s.db, clocks, like);
        (s'.(cache := cache), response)
    case Write(op) =>
      if Enabled(s.db, op) then
        (s.(db := Apply(s.db, op), cache := Perform(s.cache, Cache.InvalidatePrefix(InvalidatedBy(op)))),
         Written(s.db, op))
      else (s, Response(409, Error))
  }

  // ---------- agreement ----------

  function WithoutCache(s: Cached): Plain {
    Plain(s.db, s.buckets)
  }

  ghost predicate EntryAgrees(s: Cached, q: Query, like: Like) {
    CacheKey(q) in s.cache.entries ==> Fresh(q, s.db, like) == Found(s.cache.entries[CacheKey(q)].value)
  }

  /** Every cached entry, expired or not, is what a fresh query would answer. */
  ghost predicate Agrees(s: Cached, like: Like) {
    forall q :: EntryAgrees(s, q, like)
  }

  lemma WriteKeepsAgreement(s: Cached, op: Op, like: Like)
    requires Agrees(s, like) && Enabled(s.db, op)
    ensures Agrees(s.(db := Apply(s.db, op),
                      cache := Perform(s.cache, Cache.InvalidatePrefix(InvalidatedBy(op)))), like)
  {
    var s' := s.(db := Apply(s.db, op), cache := Perform(s.cache, Cache.InvalidatePrefix(InvalidatedBy(op))));
    forall q ensures EntryAgrees(s', q, like) {
      if !StartsWith(CacheKey(q), InvalidatedBy(op)) {
        WritesStayInTheirPrefix(q, s.db, op, like);
        assert EntryAgrees(s, q, like);
      }
    }
  }

  lemma FillKeepsAgreement(s: Cached, query: Query, clocks: Clocks, like: Like)
    requires Agrees(s, like)
    ensures var (cache, response) := CacheAside(s.cache, query, s.db, clocks, like);
            Agrees(s.(cache := cache), like) && response == Reply(Fresh(query, s.db, like))
  {
    var (cache, response) := CacheAside(s.cache, query, s.db, clocks, like);
    assert EntryAgrees(s, query, like);
    forall q ensures EntryAgrees(s.(cache := cache), q, like) {
      assert EntryAgrees(s, q, like);
      if CacheKey(q) == CacheKey(query) {
        KeysAreDistinct(q, query);
      }
    }
  }

  lemma StepAgrees(s: Cached, request: Request, clocks: Clocks, like: Like)
    requires Agrees(s, like)
    ensures var (s', response) := CachedStep(s, request, clocks, like);
            Agrees(s', like) && (WithoutCache(s'), response) == PlainStep(WithoutCache(s), request, clocks, like)
  {
    match PlanOf(request)
    case Reject(_) =>
    case Read(query) =>
      FillKeepsAgreement(s, query, clocks, like);
      var s' := CachedStep(s, request, clocks, like).0;
      forall q ensures EntryAgrees(s', q, like) {
        assert EntryAgrees(s, q, like);
        assert EntryAgrees(s.(cache := CacheAside(s.cache, query, s.db, clocks, like).0), q, like);
      }
    case Write(op) =>
      if Enabled(s.db, op) {
        WriteKeepsAgreement(s, op, like);
      }
  }

  function CachedRun(s: Cached, requests: seq<(Request, Clocks)>, like: Like): (Cached, seq<Response>)
    decreases |requests|
  {
    if requests == [] then (s, [])
    else
      var (next, first) := CachedStep(s, requests[0].0, requests[0].1, like);
      var (end, rest) := CachedRun(next, requests[1..], like);
      (end, [first] + rest)
  }

  function PlainRun(s: Plain, requests: seq<(Request, Clocks)>, like: Like): (Plain, seq<Response>)
    decreases |requests|
  {
    if requests == [] then (s, [])
    else
      var (next, first) := PlainStep(s, requests[0].0, requests[0].1, like);
      var (end, rest) := PlainRun(next, requests[1..], like);
      (end, [first] + rest)
  }

  lemma {:induction false} RunsAgree(s: Cached, requests: seq<(Request, Clocks)>, like: Like)
    requires Agrees(s, like)
    ensures CachedRun(s, requests, like).1 == PlainRun(WithoutCache(s), requests, like).1
    ensures WithoutCache(CachedRun(s, requests, like).0) == PlainRun(WithoutCache(s), requests, like).0
    decreases |requests|
  {
    if requests != [] {
      StepAgrees(s, requests[0].0, requests[0].1, like);
      RunsAgree(CachedStep(s, requests[0].0, requests[0].1, like).0, requests[1..], like);
    }
  }

  /** Started empty, the cache is invisible: status and body of every response are those of the uncached server. */
  lemma CacheIsInvisible(requests: seq<(Request, Clocks)>, like: Like)
    ensures CachedRun(Cached(EMPTY_TABLES, map[], CacheState(map[], 0, 0)), requests, like).1
            == PlainRun(Plain(EMPTY_TABLES, map[]), requests, like).1
  {
    RunsAgree(Cached(EMPTY_TABLES, map[], CacheState(map[], 0, 0)), requests, like);
  }

  // ---------- what a read serves after any requests ----------

  /** What one request adds to the writes that went through. */
  function PerformedOnce(s: Plain, request: Request): seq<Op> {
    match PlanOf(request)
    case Write(op) => if Enabled(s.db, op) then [op] else []
    case _ => []
  }

  /** The writes among the requests that went through, in order. */
  function Performed(s: Plain, requests: seq<(Request, Clocks)>, like: Like): seq<Op>
    decreases |requests|
  {
    if requests == [] then []
    else
      PerformedOnce(s, requests[0].0)
      + Performed(PlainStep(s, requests[0].0, requests[0].1, like).0, requests[1..], like)
  }

  lemma OneRequestIsTrace(history: seq<Tables>, log: seq<Op>, s: Plain, request: Request, clocks: Clocks, like: Like)
    returns (longer: seq<Tables>)
    requires Trace(history, log) && history[|log|] == s.db
    ensures Trace(longer, log + PerformedOnce(s, request))
    ensures longer[|longer| - 1] == PlainStep(s, request, clocks, like).0.db
  {
    var next := PlainStep(s, request, clocks, like).0;
    if PerformedOnce(s, request) == [] {
      longer := history;
      assert log + [] == log;
    } else {
      TraceExtends(history, log, PlanOf(request).op);
      longer := history + [next.db];
    }
  }

  /** The tables are those of a run of the writes that went through. */
  lemma {:induction false} TablesComeFromWrites(history: seq<Tables>, log: seq<Op>, s: Plain,
                                                requests: seq<(Request, Clocks)>, like: Like)
    returns (longer: seq<Tables>)
    requires Trace(history, log) && history[|log|] == s.db
    ensures Trace(longer, log + Performed(s, requests, like))
    ensures longer[|longer| - 1] == PlainRun(s, requests, like).0.db
    decreases |requests|
  {
    if requests == [] {
      longer := history;
      assert log + [] == log;
    } else {
      var once := PerformedOnce(s, requests[0].0);
      var next := PlainStep(s, requests[0].0, requests[0].1, like).0;
      var after := OneRequestIsTrace(history, log, s, requests[0].0, requests[0].1, like);
      longer := TablesComeFromWrites(after, log + once, next, requests[1..], like);
      AppendAssociates(log, once, Performed(next, requests[1..], like));
    }
  }

  lemma AppendAssociates<T>(a: seq<T>, b: seq<T>, c: seq<T>)
    ensures a + (b + c) == (a + b) + c
  {
  }

  lemma {:induction false} LastResponse(s: Plain, requests: seq<(Request, Clocks)>, last: (Request, Clocks), like: Like)
    ensures |PlainRun(s, requests + [last], like).1| == |requests| + 1
    ensures PlainRun(s, requests + [last], like).1[|requests|]
            == PlainStep(PlainRun(s, requests, like).0, last.0, last.1, like).1
    decreases |requests|
  {
    if requests == [] {
      assert [] + [last] == [last];
    } else {
      assert (requests + [last])[1..] == requests[1..] + [last];
      LastResponse(PlainStep(s, requests[0].0, requests[0].1, like).0, requests[1..], last, like);
    }
  }

  /** The list shows exactly these rides of the log, each as the log tells it. */
  ghost predicate ServesLogged(response: Response, log: seq<Op>, listed: set<int>) {
    && response.status == 200 && response.payload.Content? && response.payload.body.RideList?
    && var rows := response.payload.body.rides;
       && rows.Keys == listed
       && forall ride | ride in rows :: ShownAsLogged(log, |log|, ride, rows[ride])
  }

  predicate CreatedIn(log: seq<Op>, ride: int) {
    exists c :: 0 <= c < |log| && CreatesRide(log[c], ride)
  }

  predicate OrderedIn(log: seq<Op>, ride: int, passenger: int) {
    exists c :: 0 <= c < |log| && CreatesRide(log[c], ride) && log[c].passengerId == passenger
  }

  lemma LastResponseIsUncached(requests: seq<(Request, Clocks)>, request: Request, clocks: Clocks, like: Like)
    returns (history: seq<Tables>)
    ensures var log := Performed(Plain(EMPTY_TABLES, map[]), requests, like);
            var responses := CachedRun(Cached(EMPTY_TABLES, map[], CacheState(map[], 0, 0)),
                                       requests + [(request, clocks)], like).1;
            && Trace(history, log)
            && |responses| == |requests| + 1
            && exists buckets :: responses[|requests|]
                                 == PlainStep(Plain(history[|log|], buckets), request, clocks, like).1
  {
    var start := Plain(EMPTY_TABLES, map[]);
    CacheIsInvisible(requests + [(request, clocks)], like);
    LastResponse(start, requests, (request, clocks), like);
    history := TablesComeFromWrites([EMPTY_TABLES], [], start, requests, like);
    assert [] + Performed(start, requests, like) == Performed(start, requests, like);
    var end := PlainRun(start, requests, like).0;
    assert end == Plain(history[|history| - 1], end.buckets);
  }

  /**
   After any requests, with whatever clocks and whatever is cached, the active list is refused by the limiter or shows
   exactly the rides created and not completed by the writes that went through.
   */
  lemma ActiveListServesTheLog(requests: seq<(Request, Clocks)>, clocks: Clocks, like: Like)
    ensures var log := Performed(Plain(EMPTY_TABLES, map[]), requests, like);
            var responses := CachedRun(Cached(EMPTY_TABLES, map[], CacheState(map[], 0, 0)),
                                       requests + [(GetRides("", "active"), clocks)], like).1;
            && |responses| == |requests| + 1
            && (responses[|requests|] == Response(429, Error)
                || exists listed :: && ServesLogged(responses[|requests|], log, listed)
                                    && forall ride :: ride in listed <==>
                                         CreatedIn(log, ride) && !CompletedBy(log, |log|, ride))
  {
    var log := Performed(Plain(EMPTY_TABLES, map[]), requests, like);
    var history := LastResponseIsUncached(requests, GetRides("", "active"), clocks, like);
    var rows := SelectActive(history[|log|].rides);
    forall ride
      ensures ride in rows <==> CreatedIn(log, ride) && !CompletedBy(log, |log|, ride)
      ensures ride in rows ==> ShownAsLogged(log, |log|, ride, rows[ride])
    {
      ActiveMeansUnfinished(history, log, |log|, ride);
      ListedRidesAreLogged(history, log, |log|, ride, 0);
    }
    var response := CachedRun(Cached(EMPTY_TABLES, map[], CacheState(map[], 0, 0)),
                              requests + [(GetRides("", "active"), clocks)], like).1[|requests|];
    if response != Response(429, Error) {
      assert response == Response(200, Content(RideList(rows)));
      assert ServesLogged(response, log, rows.Keys);
    }
  }

  /** A passenger's history likewise shows exactly the rides that passenger created. */
  lemma HistoryServesTheLog(requests: seq<(Request, Clocks)>, userArg: string, status: string, clocks: Clocks,
                            like: Like)
    requires Stoi(userArg).Some? && userArg != ""
    ensures var log := Performed(Plain(EMPTY_TABLES, map[]), requests, like);
            var responses := CachedRun(Cached(EMPTY_TABLES, map[], CacheState(map[], 0, 0)),
                                       requests + [(GetRides(userArg, status), clocks)], like).1;
            && |responses| == |requests| + 1
            && exists listed :: && ServesLogged(responses[|requests|], log, listed)
                                && forall ride :: ride in listed <==> OrderedIn(log, ride, Stoi(userArg).value)
  {
    var log := Performed(Plain(EMPTY_TABLES, map[]), requests, like);
    var history := LastResponseIsUncached(requests, GetRides(userArg, status), clocks, like);
    var passenger := Stoi(userArg).value;
    var rows := SelectByPassenger(history[|log|].rides, passenger);
    forall ride
      ensures ride in rows <==> OrderedIn(log, ride, passenger)
      ensures ride in rows ==> ShownAsLogged(log, |log|, ride, rows[ride])
    {
      HistoryMeansCreated(history, log, |log|, ride, passenger);
      ListedRidesAreLogged(history, log, |log|, ride, passenger);
    }
    var response := CachedRun(Cached(EMPTY_TABLES, map[], CacheState(map[], 0, 0)),
                              requests + [(GetRides(userArg, status), clocks)], like).1[|requests|];
    assert response == Response(200, Content(RideList(rows)));
    assert ServesLogged(response, log, rows.Keys);
  }

  // ---------- throughput of the active-rides query ----------

  predicate AsksActive(request: Request) {
    PlanOf(request) == Read(ActiveRides)
  }

  function LimiterLog(requests: seq<(Request, Clocks)>): seq<RateLimiter.Call> {
    if requests == [] then []
    else
      (if AsksActive(requests[0].0) then [LimiterCall(requests[0].1.limitAt)] else []) + LimiterLog(requests[1..])
  }

  /** Active-ride requests with a limiter reading in the given time that were answered with something but 429. */
  function Admitted(requests: seq<(Request, Clocks)>, responses: seq<Response>, low: int, high: int): nat
    requires |requests| == |responses|
  {
    if requests == [] then 0
    else
      (if AsksActive(requests[0].0) && low <= requests[0].1.limitAt < high && responses[0].status != 429 then 1 else 0)
      + Admitted(requests[1..], responses[1..], low, high)
  }

  lemma {:induction false} OneResponseEach(s: Plain, requests: seq<(Request, Clocks)>, like: Like)
    ensures |PlainRun(s, requests, like).1| == |requests|
    decreases |requests|
  {
    if requests != [] {
      OneResponseEach(PlainStep(s, requests[0].0, requests[0].1, like).0, requests[1..], like);
    }
  }

  lemma LimiterDecides(s: Plain, request: Request, clocks: Clocks, like: Like)
    ensures var (next, response) := PlainStep(s, request, clocks, like);
            if AsksActive(request) then
              && next.buckets == Record(s.buckets, LimiterCall(clocks.limitAt))
              && (response.status != 429 <==> Judge(s.buckets, LimiterCall(clocks.limitAt)).allowed)
            else next.buckets == s.buckets
  {
  }

  /** What one request adds to the admitted count. */
  function AdmittedOnce(s: Plain, request: Request, clocks: Clocks, low: int, high: int): nat {
    if AsksActive(request) && low <= clocks.limitAt < high && Judge(s.buckets, LimiterCall(clocks.limitAt)).allowed
    then 1 else 0
  }

  lemma AdmittedUnfolds(s: Plain, requests: seq<(Request, Clocks)>, like: Like, low: int, high: int)
    requires requests != []
    ensures |PlainRun(s, requests, like).1| == |requests|
    ensures var next := PlainStep(s, requests[0].0, requests[0].1, like).0;
            && |PlainRun(next, requests[1..], like).1| == |requests| - 1
            && Admitted(requests, PlainRun(s, requests, like).1, low, high)
               == AdmittedOnce(s, requests[0].0, requests[0].1, low, high)
                  + Admitted(requests[1..], PlainRun(next, requests[1..], like).1, low, high)
  {
    var next := PlainStep(s, requests[0].0, requests[0].1, like).0;
    OneResponseEach(s, requests, like);
    OneResponseEach(next, requests[1..], like);
    LimiterDecides(s, requests[0].0, requests[0].1, like);
    assert PlainRun(s, requests, like).1[1..] == PlainRun(next, requests[1..], like).1;
  }

  lemma {:induction false} AdmittedAreAllowed(s: Plain, log: seq<RateLimiter.Call>, requests: seq<(Request, Clocks)>,
                                              like: Like, low: int, high: int)
    requires s.buckets == RateLimiter.After(log)
    ensures |PlainRun(s, requests, like).1| == |requests|
    ensures AllowedDuring(log + LimiterLog(requests), ACTIVE_RIDES_KEY, low, high)
            == AllowedDuring(log, ACTIVE_RIDES_KEY, low, high)
               + Admitted(requests, PlainRun(s, requests, like).1, low, high)
    decreases |requests|
  {
    if requests == [] {
      assert log + LimiterLog(requests) == log;
    } else {
      var next := PlainStep(s, requests[0].0, requests[0].1, like).0;
      AdmittedUnfolds(s, requests, like, low, high);
      var longer := CheckedOnce(s, log, requests, like, low, high);
      AdmittedAreAllowed(next, longer, requests[1..], like, low, high);
    }
  }

  lemma LimiterLogUnfolds(log: seq<RateLimiter.Call>, requests: seq<(Request, Clocks)>)
    requires requests != []
    ensures log + LimiterLog(requests)
            == (if AsksActive(requests[0].0) then log + [LimiterCall(requests[0].1.limitAt)] else log)
               + LimiterLog(requests[1..])
  {
    var rest := LimiterLog(requests[1..]);
    if AsksActive(requests[0].0) {
      AppendAssociates(log, [LimiterCall(requests[0].1.limitAt)], rest);
    } else {
      AppendAssociates(log, [], rest);
      assert log + [] == log;
    }
  }

  lemma CheckedOnce(s: Plain, log: seq<RateLimiter.Call>, requests: seq<(Request, Clocks)>, like: Like,
                    low: int, high: int) returns (longer: seq<RateLimiter.Call>)
    requires s.buckets == RateLimiter.After(log) && requests != []
    ensures PlainStep(s, requests[0].0, requests[0].1, like).0.buckets == RateLimiter.After(longer)
    ensures log + LimiterLog(requests) == longer + LimiterLog(requests[1..])
    ensures AllowedDuring(longer, ACTIVE_RIDES_KEY, low, high)
            == AllowedDuring(log, ACTIVE_RIDES_KEY, low, high)
               + AdmittedOnce(s, requests[0].0, requests[0].1, low, high)
  {
    LimiterDecides(s, requests[0].0, requests[0].1, like);
    OneMoreCheck(log, requests[0].1.limitAt, low, high);
    LimiterLogUnfolds(log, requests);
    longer := if AsksActive(requests[0].0) then log + [LimiterCall(requests[0].1.limitAt)] else log;
  }

  lemma OneMoreCheck(log: seq<RateLimiter.Call>, at: int, low: int, high: int)
    ensures RateLimiter.After(log + [LimiterCall(at)]) == Record(RateLimiter.After(log), LimiterCall(at))
    ensures AllowedDuring(log + [LimiterCall(at)], ACTIVE_RIDES_KEY, low, high)
            == AllowedDuring(log, ACTIVE_RIDES_KEY, low, high)
               + if low <= at < high && Judge(RateLimiter.After(log), LimiterCall(at)).allowed then 1 else 0
  {
    assert (log + [LimiterCall(at)])[..|log|] == log;
  }

  lemma {:induction false} LimiterLogUniform(requests: seq<(Request, Clocks)>)
    ensures forall i | 0 <= i < |LimiterLog(requests)| ::
              LimiterLog(requests)[i] == LimiterCall(LimiterLog(requests)[i].now)
  {
    if requests != [] {
      LimiterLogUniform(requests[1..]);
    }
  }

  /** The minutes of the limiter readings come in order; inside a minute they may come in any order. */
  ghost predicate MinutesInOrder(requests: seq<(Request, Clocks)>) {
    forall i, j | 0 <= i < j < |requests| ::
      WindowStart(requests[i].1.limitAt, 60) <= WindowStart(requests[j].1.limitAt, 60)
  }

  lemma {:induction false} LimiterLogInOrder(requests: seq<(Request, Clocks)>, earliest: int)
    requires MinutesInOrder(requests)
    requires forall i | 0 <= i < |requests| :: earliest <= WindowStart(requests[i].1.limitAt, 60)
    ensures forall i | 0 <= i < |LimiterLog(requests)| :: earliest <= WindowStart(LimiterLog(requests)[i].now, 60)
    ensures forall i, j | 0 <= i <= j < |LimiterLog(requests)| ::
              WindowStart(LimiterLog(requests)[i].now, 60) <= WindowStart(LimiterLog(requests)[j].now, 60)
  {
    if requests != [] {
      LimiterLogInOrder(requests[1..], WindowStart(requests[0].1.limitAt, 60));
    }
  }

  /** When minutes come in order, no request returns to a used-up one. */
  lemma OrderedMinutesNeverReturn(requests: seq<(Request, Clocks)>)
    requires MinutesInOrder(requests)
    ensures NoLateReturn(LimiterLog(requests), ACTIVE_RIDES_KEY, ACTIVE_RIDES_LIMIT)
  {
    var log := LimiterLog(requests);
    LimiterLogUniform(requests);
    LimiterLogInOrder(requests, if requests == [] then 0 else WindowStart(requests[0].1.limitAt, 60));
    assert forall i | 0 <= i < |log| :: log[i].window == 60;
    assert WindowsInOrder(log, ACTIVE_RIDES_KEY);
    forall j | 0 <= j < |log| && log[j].key == ACTIVE_RIDES_KEY ensures !Returns(log, j) {
      OrderedWindowsNeverReturn(log, ACTIVE_RIDES_KEY, j);
    }
  }

  lemma AdmittedIsAllowed(requests: seq<(Request, Clocks)>, like: Like, low: int, high: int)
    ensures var responses := PlainRun(Plain(EMPTY_TABLES, map[]), requests, like).1;
            && |responses| == |requests|
            && Admitted(requests, responses, low, high)
               == AllowedDuring(LimiterLog(requests), ACTIVE_RIDES_KEY, low, high)
  {
    AdmittedAreAllowed(Plain(EMPTY_TABLES, map[]), [], requests, like, low, high);
    assert [] + LimiterLog(requests) == LimiterLog(requests);
  }

  /**
   Unless a request returns to a minute that already had 100 active-ride requests, any 60 seconds admit at most 200
   of them, cache hits included.
   */
  lemma ActiveRidesThroughput(requests: seq<(Request, Clocks)>, like: Like, from: int)
    requires NoLateReturn(LimiterLog(requests), ACTIVE_RIDES_KEY, ACTIVE_RIDES_LIMIT)
    ensures var responses := CachedRun(Cached(EMPTY_TABLES, map[], CacheState(map[], 0, 0)), requests, like).1;
            |responses| == |requests| && Admitted(requests, responses, from, from + 60) <= 200
  {
    CacheIsInvisible(requests, like);
    PlainThroughput(requests, like, from);
  }

  lemma PlainThroughput(requests: seq<(Request, Clocks)>, like: Like, from: int)
    requires NoLateReturn(LimiterLog(requests), ACTIVE_RIDES_KEY, ACTIVE_RIDES_LIMIT)
    ensures var responses := PlainRun(Plain(EMPTY_TABLES, map[]), requests, like).1;
            |responses| == |requests| && Admitted(requests, responses, from, from + 60) <= 200
  {
    AdmittedIsAllowed(requests, like, from, from + 60);
    AtMostTwoHundred(requests, from);
  }

  lemma AtMostTwoHundred(requests: seq<(Request, Clocks)>, from: int)
    requires NoLateReturn(LimiterLog(requests), ACTIVE_RIDES_KEY, ACTIVE_RIDES_LIMIT)
    ensures AllowedDuring(LimiterLog(requests), ACTIVE_RIDES_KEY, from, from + 60) <= 200
  {
    LimiterLogUniform(requests);
    SlidingBound(LimiterLog(requests), ACTIVE_RIDES_KEY, ACTIVE_RIDES_LIMIT, 60, from, 60);
    assert CeilDiv(59, 60) == 1;
  }

  /** Active-ride requests with a limiter reading in the given time. */
  function Asked(requests: seq<(Request, Clocks)>, low: int, high: int): nat {
    if requests == [] then 0
    else
      (if AsksActive(requests[0].0) && low <= requests[0].1.limitAt < high then 1 else 0)
      + Asked(requests[1..], low, high)
  }

  lemma {:induction false} AskedAreChecks(log: seq<RateLimiter.Call>, requests: seq<(Request, Clocks)>,
                                          low: int, high: int)
    ensures CallsDuring(log + LimiterLog(requests), ACTIVE_RIDES_KEY, low, high)
            == CallsDuring(log, ACTIVE_RIDES_KEY, low, high) + Asked(requests, low, high)
    decreases |requests|
  {
    if requests == [] {
      assert log + LimiterLog(requests) == log;
    } else if AsksActive(requests[0].0) {
      var c := LimiterCall(requests[0].1.limitAt);
      AskedAreChecks(log + [c], requests[1..], low, high);
      LimiterLogUnfolds(log, requests);
      assert (log + [c])[..|log|] == log;
    } else {
      AskedAreChecks(log, requests[1..], low, high);
      LimiterLogUnfolds(log, requests);
    }
  }

  /** Under the same condition a whole minute admits every active-ride request up to the hundredth, and no more. */
  lemma ActiveRidesPerMinute(requests: seq<(Request, Clocks)>, like: Like, minute: int)
    requires NoLateReturn(LimiterLog(requests), ACTIVE_RIDES_KEY, ACTIVE_RIDES_LIMIT) && minute >= 1
    ensures var responses := CachedRun(Cached(EMPTY_TABLES, map[], CacheState(map[], 0, 0)), requests, like).1;
            && |responses| == |requests|
            && Admitted(requests, responses, minute * 60, minute * 60 + 60)
               == Min(100, Asked(requests, minute * 60, minute * 60 + 60))
  {
    CacheIsInvisible(requests, like);
    var low := minute * 60;
    AdmittedIsAllowed(requests, like, low, low + 60);
    MinuteAllows(requests, minute, low);
    AskedIsChecks(requests, low, low + 60);
  }

  lemma AskedIsChecks(requests: seq<(Request, Clocks)>, low: int, high: int)
    ensures CallsDuring(LimiterLog(requests), ACTIVE_RIDES_KEY, low, high) == Asked(requests, low, high)
  {
    AskedAreChecks([], requests, low, high);
    assert [] + LimiterLog(requests) == LimiterLog(requests);
  }

  lemma MinuteAllows(requests: seq<(Request, Clocks)>, minute: int, low: int)
    requires NoLateReturn(LimiterLog(requests), ACTIVE_RIDES_KEY, ACTIVE_RIDES_LIMIT)
    requires minute >= 1 && low == minute * 60
    ensures AllowedDuring(LimiterLog(requests), ACTIVE_RIDES_KEY, low, low + 60)
            == AtLeastZero(Min(ACTIVE_RIDES_LIMIT, CallsDuring(LimiterLog(requests), ACTIVE_RIDES_KEY, low, low + 60)))
  {
    LimiterLogUniform(requests);
    WholeWindowAllows(LimiterLog(requests), ACTIVE_RIDES_KEY, ACTIVE_RIDES_LIMIT, 60, minute, low);
  }

  // ---------- what the bodies show ----------

  /** Each shown ride has the columns of its row, with 0 for a missing driver. */
  ghost predicate ShowsRides(rides: map<int, Ride>, shown: map<int, RideView>) {
    forall r | r in shown ::
      && r in rides
      && shown[r].passengerId == rides[r].passengerId
      && shown[r].driverId == (if rides[r].driverId.Some? then rides[r].driverId.value else 0)
      && shown[r].pickup == rides[r].pickup
      && shown[r].destination == rides[r].destination
      && shown[r].status == rides[r].status
  }

  ghost predicate ShowsUsers(users: map<int, User>, shown: map<int, UserView>) {
    forall u | u in shown :: u in users && shown[u].login == users[u].login && shown[u].fullName == users[u].fullName
  }

  ghost predicate ListsActive(rides: map<int, Ride>, body: Body) {
    && body.RideList? && ShowsRides(rides, body.rides)
    && forall r :: r in body.rides <==> r in rides && (rides[r].status == Searching || rides[r].status == Accepted)
  }

  ghost predicate ListsPassenger(rides: map<int, Ride>, passenger: int, body: Body) {
    && body.RideList? && ShowsRides(rides, body.rides)
    && forall r :: r in body.rides <==> r in rides && rides[r].passengerId == passenger
  }

  ghost predicate ListsMatching(users: map<int, User>, mask: string, like: Like, body: Body) {
    && body.UserList? && ShowsUsers(users, body.users)
    && forall u :: u in body.users <==> u in users && like(users[u].fullName, mask)
  }

  ghost predicate ShowsLogin(users: map<int, User>, login: string, body: Body) {
    && body.OneUser? && ShowsUsers(users, body.user)
    && forall u :: u in body.user <==> u in users && users[u].login == login
  }

  /** The cache has an entry under the key that has not expired. */
  predicate Live(entries: map<string, Entry<Body>>, key: string, at: int) {
    key in entries && at < entries[key].expiresAt
  }

  /** What was live is served and stays; anything else is served from the database and stored. */
  ghost predicate ServedOrStored(before: map<string, Entry<Body>>, key: string, ttl: int, clocks: Clocks,
                                 after: map<string, Entry<Body>>, response: Response) {
    && response.status == 200 && response.payload.Content?
    && if Live(before, key, clocks.getAt) then response.payload.body == before[key].value && after == before
       else after == before[key := Entry(response.payload.body, clocks.setAt + ttl)]
  }

  // ---------- the handlers ----------

  /** What GET /rides does and answers. */
  ghost predicate AnswersRidesGet(before: Cached, userArg: string, status: string, clocks: Clocks,
                                  after: Cached, response: Response)
  {
    && after.db == before.db
    && if userArg != "" then
         after.buckets == before.buckets && AnswersHistory(before, userArg, clocks, after, response)
       else if status == "active" then
         var call := RateLimiter.Call("GET:/rides?status=active", 100, 60, clocks.limitAt);
         && after.buckets == Record(before.buckets, call)
         && if Judge(before.buckets, call).allowed then AnswersActive(before, clocks, after, response)
            else response == Response(429, Error) && after.cache == before.cache
       else response == Response(400, Error) && after == before
  }

  ghost predicate AnswersActive(before: Cached, clocks: Clocks, after: Cached, response: Response) {
    && ServedOrStored(before.cache.entries, "rides:active", 15, clocks, after.cache.entries, response)
    && (!Live(before.cache.entries, "rides:active", clocks.getAt) ==>
          ListsActive(before.db.rides, response.payload.body))
  }

  ghost predicate AnswersHistory(before: Cached, userArg: string, clocks: Clocks, after: Cached, response: Response) {
    var key := "rides:history:" + userArg;
    if !Live(before.cache.entries, key, clocks.getAt) && Stoi(userArg).None? then
      response == Response(500, Error) && after.cache.entries == before.cache.entries - {key}
    else
      && ServedOrStored(before.cache.entries, key, 60, clocks, after.cache.entries, response)
      && (!Live(before.cache.entries, key, clocks.getAt) ==>
            ListsPassenger(before.db.rides, Stoi(userArg).value, response.payload.body))
  }

  lemma CacheAsideServes(cache: CacheState<Body>, query: Query, db: Tables, clocks: Clocks, like: Like)
    ensures var (after, response) := CacheAside(cache, query, db, clocks, like);
            var key, live := CacheKey(query), Live(cache.entries, CacheKey(query), clocks.getAt);
            if live || Fresh(query, db, like).Found? then
              && ServedOrStored(cache.entries, key, Ttl(query), clocks, after.entries, response)
              && (!live ==> response.payload.body == Fresh(query, db, like).body)
            else after.entries == cache.entries - {key} && response == Reply(Fresh(query, db, like))
  {
  }

  lemma RidesGetAnswers(before: Cached, userArg: string, status: string, clocks: Clocks, like: Like)
    ensures var (after, response) := CachedStep(before, GetRides(userArg, status), clocks, like);
            AnswersRidesGet(before, userArg, status, clocks, after, response)
  {
    SelectedRidesAreShown(before.db.rides, if Stoi(userArg).Some? then Stoi(userArg).value else 0);
    CacheAsideServes(before.cache, if userArg != "" then RidesOf(userArg) else ActiveRides, before.db, clocks, like);
  }

  lemma NoRowMeansNoUser(users: map<int, User>, login: string)
    ensures SelectByLogin(users, login) == map[] <==> forall u | u in users :: users[u].login != login
  {
    var rows := SelectByLogin(users, login);
    if forall u | u in users :: users[u].login != login {
      EmptyMap(rows);
    } else {
      var u :| u in users && users[u].login == login;
      assert u in rows;
    }
  }

  lemma EmptyMap<K, V>(m: map<K, V>)
    requires forall k :: k !in m
    ensures m == map[]
  {
  }

  lemma SelectedRidesAreShown(rides: map<int, Ride>, passenger: int)
    ensures ListsActive(rides, RideList(SelectActive(rides)))
    ensures ListsPassenger(rides, passenger, RideList(SelectByPassenger(rides, passenger)))
  {
  }

  lemma NumbersAreRead(arg: string)
    ensures forall n | arg == IntText(n) && -0x8000_0000 <= n <= 0x7fff_ffff :: Stoi(arg) == Some(n)
    ensures Stoi(arg).Some? ==> arg != ""
  {
    forall n | arg == IntText(n) && -0x8000_0000 <= n <= 0x7fff_ffff ensures Stoi(arg) == Some(n) {
      StoiReadsIntText(n);
    }
  }

  class TaxiServer {
    const storage: TaxiStorage
    const cache: ResponseCache<Body>
    const limiter: FixedWindowRateLimiter
    const like: Like

    ghost function State(): Cached
      reads storage, cache, limiter
    {
      Cached(storage.Db(), limiter.buckets, cache.Contents())
    }

    constructor (like: Like)
      ensures State() == Cached(EMPTY_TABLES, map[], CacheState(map[], 0, 0)) && this.like == like
      ensures fresh(storage) && fresh(cache) && fresh(limiter)
    {
      storage := new TaxiStorage();
      cache := new ResponseCache<Body>();
      limiter := new FixedWindowRateLimiter();
      this.like := like;
    }

    method RidesGet(userArg: string, status: string, clocks: Clocks) returns (response: Response)
      modifies cache, limiter
      ensures (State(), response) == CachedStep(old(State()), GetRides(userArg, status), clocks, like)
      ensures AnswersRidesGet(old(State()), userArg, status, clocks, State(), response)
    {
      RidesGetAnswers(State(), userArg, status, clocks, like);
      var isHistory := userArg != "";
      var isActive := userArg == "" && status == "active";
      if !isHistory && !isActive {
        return Response(400, Error);
      }
      if isActive {
        var verdict := limiter.Check(ACTIVE_RIDES_KEY, ACTIVE_RIDES_LIMIT, 60, clocks.limitAt);
        if !verdict.allowed {
          return Response(429, Error);
        }
      }
      var key := if isHistory then "rides:history:" + userArg else "rides:active";
      var cached := cache.Get(key, clocks.getAt);
      if cached.Some? {
        return Response(200, Content(cached.value));
      }
      if isHistory {
        var user := Stoi(userArg);
        if user.None? {
          return Response(500, Error);
        }
        var body := RideList(SelectByPassenger(storage.rides, user.value));
        cache.Set(key, body, clocks.setAt, 60);
        return Response(200, Content(body));
      }
      var body := RideList(SelectActive(storage.rides));
      cache.Set(key, body, clocks.setAt, 15);
      return Response(200, Content(body));
    }

    method UsersGet(login: string, mask: string, clocks: Clocks) returns (response: Response)
      modifies cache
      ensures (State(), response) == CachedStep(old(State()), GetUsers(login, mask), clocks, like)
      ensures (login == "" <==> mask == "") ==> response == Response(400, Error) && State() == old(State())
      ensures login != "" && mask == "" ==>
                var key := "users:login:" + login;
                if !Live(old(cache.entries), key, clocks.getAt)
                   && (forall u | u in storage.users :: storage.users[u].login != login) then
                  response == Response(404, Error) && cache.entries == old(cache.entries) - {key}
                else
                  && ServedOrStored(old(cache.entries), key, 60, clocks, cache.entries, response)
                  && (!Live(old(cache.entries), key, clocks.getAt) ==>
                        ShowsLogin(storage.users, login, response.payload.body))
      ensures login == "" && mask != "" ==>
                var key := "users:name_mask:" + mask;
                && ServedOrStored(old(cache.entries), key, 60, clocks, cache.entries, response)
                && (!Live(old(cache.entries), key, clocks.getAt) ==>
                      ListsMatching(storage.users, mask, like, response.payload.body))
    {
      var hasLogin, hasMask := login != "", mask != "";
      if hasLogin == hasMask {
        return Response(400, Error);
      }
      var key := if hasLogin then "users:login:" + login else "users:name_mask:" + mask;
      var cached := cache.Get(key, clocks.getAt);
      if cached.Some? {
        return Response(200, Content(cached.value));
      }
      var body;
      if hasLogin {
        var rows := SelectByLogin(storage.users, login);
        NoRowMeansNoUser(storage.users, login);
        if rows == map[] {
          return Response(404, Error);
        }
        body := OneUser(rows);
      } else {
        body := UserList(SelectByMask(storage.users, mask, like));
      }
      cache.Set(key, body, clocks.setAt, 60);
      return Response(200, Content(body));
    }

    method UsersCreate(id: int, login: string, password: string, fullName: string, clocks: Clocks)
      returns (response: Response)
      modifies storage, cache
      ensures (State(), response) == CachedStep(old(State()), PostUsers(id, login, password, fullName), clocks, like)
      ensures login == "" || password == "" || fullName == "" ==>
                response == Response(400, Error) && State() == old(State())
      ensures login != "" && password != "" && fullName != "" ==>
                if id > 0 && id !in old(storage.users)
                   && (forall u | u in old(storage.users) :: old(storage.users)[u].login != login) then
                  && response == Response(201, UserRow(id, UserView(login, fullName)))
                  && storage.users == old(storage.users)[id := User(login, password, fullName)]
                  && storage.drivers == old(storage.drivers) && storage.rides == old(storage.rides)
                  && cache.entries == map k | k in old(cache.entries) && !("users:" <= k) :: old(cache.entries)[k]
                else response == Response(409, Error) && State() == old(State())
    {
      if login == "" || password == "" || fullName == "" {
        return Response(400, Error);
      }
      var user := storage.CreateUser(id, login, password, fullName);
      if user.None? {
        return Response(409, Error);
      }
      cache.InvalidatePrefix("users:");
      return Response(201, UserRow(id, ShowUser(user.value)));
    }

    method DriversCreate(id: int, userId: int, carModel: string, carNumber: string, licenseNumber: string,
                         clocks: Clocks) returns (response: Response)
      modifies storage, cache
      ensures (State(), response)
              == CachedStep(old(State()), PostDrivers(id, userId, carModel, carNumber, licenseNumber), clocks, like)
      ensures userId <= 0 || carModel == "" || carNumber == "" || licenseNumber == "" ==>
                response == Response(400, Error) && State() == old(State())
      ensures userId > 0 && carModel != "" && carNumber != "" && licenseNumber != "" ==>
                if && id > 0 && id !in old(storage.drivers) && userId in old(storage.users)
                   && (forall d | d in old(storage.drivers) ::
                         && old(storage.drivers)[d].userId != userId
                         && old(storage.drivers)[d].carNumber != carNumber
                         && old(storage.drivers)[d].licenseNumber != licenseNumber) then
                  var row := Driver(userId, carModel, carNumber, licenseNumber, Online);
                  && response == Response(201, DriverRow(id, row))
                  && storage.drivers == old(storage.drivers)[id := row]
                  && storage.users == old(storage.users) && storage.rides == old(storage.rides)
                  && cache.entries == map k | k in old(cache.entries) && !("drivers:" <= k) :: old(cache.entries)[k]
                else response == Response(409, Error) && State() == old(State())
    {
      if userId <= 0 || carModel == "" || carNumber == "" || licenseNumber == "" {
        return Response(400, Error);
      }
      var driver := storage.CreateDriver(id, userId, carModel, carNumber, licenseNumber);
      if driver.None? {
        return Response(409, Error);
      }
      cache.InvalidatePrefix("drivers:");
      return Response(201, DriverRow(id, driver.value));
    }

    method RidesCreate(id: int, passengerId: int, pickup: string, destination: string, at: int, clocks: Clocks)
      returns (response: Response)
      modifies storage, cache
      ensures (State(), response)
              == CachedStep(old(State()), PostRides(id, passengerId, pickup, destination, at), clocks, like)
      ensures passengerId <= 0 || pickup == "" || destination == "" ==>
                response == Response(400, Error) && State() == old(State())
      ensures passengerId > 0 && pickup != "" && destination != "" ==>
                if id > 0 && id !in old(storage.rides) && passengerId in old(storage.users) then
                  && response == Response(201, RideRow(id, RideView(passengerId, 0, pickup, destination, Searching)))
                  && storage.rides
                     == old(storage.rides)[id := Ride(passengerId, None, pickup, destination, Searching, at, None)]
                  && storage.users == old(storage.users) && storage.drivers == old(storage.drivers)
                  && cache.entries == map k | k in old(cache.entries) && !("rides:" <= k) :: old(cache.entries)[k]
                else response == Response(409, Error) && State() == old(State())
    {
      if passengerId <= 0 || pickup == "" || destination == "" {
        return Response(400, Error);
      }
      var ride := storage.CreateRide(id, passengerId, pickup, destination, at);
      if ride.None? {
        return Response(409, Error);
      }
      cache.InvalidatePrefix("rides:");
      return Response(201, RideRow(id, ShowRide(ride.value)));
    }

    method RidesAccept(rideArg: string, driver: int, clocks: Clocks) returns (response: Response)
      modifies storage, cache
      ensures (State(), response) == CachedStep(old(State()), PatchAccept(rideArg, driver), clocks, like)
      ensures rideArg == "" ==> response == Response(400, Error) && State() == old(State())
      ensures rideArg != "" && Stoi(rideArg).None? ==> response == Response(500, Error) && State() == old(State())
      ensures Stoi(rideArg).Some? && driver <= 0 ==> response == Response(400, Error) && State() == old(State())
      ensures forall ride | Stoi(rideArg) == Some(ride) && driver > 0 ::
                if && driver in old(storage.drivers) && old(storage.drivers)[driver].status == Online
                   && ride in old(storage.rides) && old(storage.rides)[ride].status == Searching then
                  var row := old(storage.rides)[ride];
                  && response == Response(200, RideRow(ride, RideView(row.passengerId, driver, row.pickup,
                                                                      row.destination, Accepted)))
                  && storage.rides == old(storage.rides)[ride := row.(driverId := Some(driver), status := Accepted)]
                  && storage.drivers
                     == old(storage.drivers)[driver := old(storage.drivers)[driver].(status := Busy)]
                  && storage.users == old(storage.users)
                  && cache.entries == map k | k in old(cache.entries) && !("rides:" <= k) :: old(cache.entries)[k]
                else response == Response(409, Error) && State() == old(State())
      ensures forall n | rideArg == IntText(n) && -0x8000_0000 <= n <= 0x7fff_ffff :: Stoi(rideArg) == Some(n)
    {
      NumbersAreRead(rideArg);
      if rideArg == "" {
        return Response(400, Error);
      }
      var rideId := Stoi(rideArg);
      if rideId.None? {
        return Response(500, Error);
      }
      if driver <= 0 {
        return Response(400, Error);
      }
      var ride := storage.AcceptRide(rideId.value, driver);
      if ride.None? {
        return Response(409, Error);
      }
      cache.InvalidatePrefix("rides:");
      return Response(200, RideRow(rideId.value, ShowRide(ride.value)));
    }

    method RidesComplete(rideArg: string, at: int, clocks: Clocks) returns (response: Response)
      modifies storage, cache
      ensures (State(), response) == CachedStep(old(State()), PatchComplete(rideArg, at), clocks, like)
      ensures rideArg == "" ==> response == Response(400, Error) && State() == old(State())
      ensures rideArg != "" && Stoi(rideArg).None? ==> response == Response(500, Error) && State() == old(State())
      ensures forall ride | Stoi(rideArg) == Some(ride) ::
                if ride in old(storage.rides) && old(storage.rides)[ride].status == Accepted then
                  var row := old(storage.rides)[ride];
                  var driver := if row.driverId.Some? then row.driverId.value else 0;
                  && response == Response(200, RideRow(ride, RideView(row.passengerId, driver, row.pickup,
                                                                      row.destination, Completed)))
                  && storage.rides == old(storage.rides)[ride := row.(status := Completed, completedAt := Some(at))]
                  && storage.drivers
                     == (if driver in old(storage.drivers)
                         then old(storage.drivers)[driver := old(storage.drivers)[driver].(status := Online)]
                         else old(storage.drivers))
                  && storage.users == old(storage.users)
                  && cache.entries == map k | k in old(cache.entries) && !("rides:" <= k) :: old(cache.entries)[k]
                else response == Response(409, Error) && State() == old(State())
      ensures forall n | rideArg == IntText(n) && -0x8000_0000 <= n <= 0x7fff_ffff :: Stoi(rideArg) == Some(n)
    {
      NumbersAreRead(rideArg);
      if rideArg == "" {
        return Response(400, Error);
      }
      var rideId := Stoi(rideArg);
      if rideId.None? {
        return Response(500, Error);
      }
      var ride := storage.CompleteRide(rideId.value, at);
      if ride.None? {
        return Response(409, Error);
      }
      cache.InvalidatePrefix("rides:");
      return Response(200, RideRow(rideId.value, ShowRide(ride.value)));
    }
  }
}

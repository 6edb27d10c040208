/**
 The cache against the database when handlers overlap. A reader reads the clock, asks the cache, asks the database,
 reads the clock again and fills the cache, in separate steps; a writer commits and only later invalidates. Commits are
 single steps because concurrent transactions act as the atomic operations in commit order. Events are numbered, and a
 fill remembers at which event and version its body was read, so that one can say how old it is.
 */
module Interleaving {
  import opened Basics
  import opened Strings
  import opened Database
  import opened History
  import opened Queries
  import opened Cache

  type ReaderId = nat

  /** A body stored in the cache, with the origin the server itself does not record. */
  datatype Fill = Fill(query: Query, body: Body, origin: Origin, setAt: int, setEvent: nat)

  /** The database read behind a body: version, clock and event number. */
  datatype Origin = Origin(version: nat, readAt: int, readEvent: nat)

  datatype Phase =
    | Arrived
    | Clocked(getAt: int)
    | Missed
    | Queried(body: Body, origin: Origin)
    | Filling(body: Body, origin: Origin, setAt: int)
    | ServedHit(fill: Fill, getAt: int)
    | ServedMiss(answer: Answer, version: nat)

  datatype Reader = Reader(query: Query, arrivedAt: nat, phase: Phase)

  /** `invalidated[j]` is the event of the InvalidatePrefix of commit j; commits outside its domain still owe theirs. */
  datatype State = State(history: seq<Tables>, log: seq<Op>, commitTimes: seq<int>, commitEvents: seq<nat>,
                         invalidated: map<nat, nat>, cache: CacheState<Fill>, readers: map<ReaderId, Reader>,
                         time: int, events: nat)

  datatype Label =
    | Tick(time: int)
    | Commit(op: Op)
    | Invalidate(commit: nat)
    | Arrive(id: ReaderId, query: Query)
    | ReadClock(id: ReaderId)
    | GetCached(id: ReaderId)
    | QueryDatabase(id: ReaderId)
    | ReadFillClock(id: ReaderId)
    | FillCache(id: ReaderId)

  function Initial(time: int): State {
    State([EMPTY_TABLES], [], [], [], map[], CacheState(map[], 0, 0), map[], time, 0)
  }

  function Current(s: State): Tables
    requires |s.history| > 0
  {
    s.history[|s.history| - 1]
  }

  predicate CanStep(s: State, l: Label) {
    && |s.history| > 0
    && match l
       case Tick(time) => s.time <= time
       case Commit(op) => Enabled(Current(s), op)
       case Invalidate(j) => j < |s.log| && j !in s.invalidated
       case Arrive(id, _) => id !in s.readers
       case ReadClock(id) => id in s.readers && s.readers[id].phase.Arrived?
       case GetCached(id) => id in s.readers && s.readers[id].phase.Clocked?
       case QueryDatabase(id) => id in s.readers && s.readers[id].phase.Missed?
       case ReadFillClock(id) => id in s.readers && s.readers[id].phase.Queried?
       case FillCache(id) => id in s.readers && s.readers[id].phase.Filling?
  }

  function Move(s: State, id: ReaderId, phase: Phase): State
    requires id in s.readers
  {
    s.(readers := s.readers[id := s.readers[id].(phase := phase)])
  }

  function QueryOutcome(s: State, query: Query, like: Like): Phase
    requires |s.history| > 0
  {
    match Fresh(query, Current(s), like)
    case Found(body) => Queried(body, Origin(|s.history| - 1, s.time, s.events))
    case answer => ServedMiss(answer, |s.history| - 1)
  }

  /** What a reader about to fill the cache stores in it. */
  function NewFill(s: State, id: ReaderId): Fill
    requires id in s.readers && s.readers[id].phase.Filling?
  {
    var r := s.readers[id];
    Fill(r.query, r.phase.body, r.phase.origin, r.phase.setAt, s.events)
  }

  /** The effect of a step, before the event is counted. */
  function Effect(s: State, l: Label, like: Like): State
    requires CanStep(s, l)
  {
    match l
    case Tick(time) => s.(time := time)
    case Commit(op) =>
      s.(history := s.history + [Apply(Current(s), op)], log := s.log + [op],
         commitTimes := s.commitTimes + [s.time], commitEvents := s.commitEvents + [s.events])
    case Invalidate(j) =>
      s.(invalidated := s.invalidated[j := s.events],
         cache := Perform(s.cache, InvalidatePrefix(InvalidatedBy(s.log[j]))))
    case Arrive(id, query) => s.(readers := s.readers[id := Reader(query, |s.history| - 1, Arrived)])
    case ReadClock(id) => Move(s, id, Clocked(s.time))
    case GetCached(id) =>
      var key, at := CacheKey(s.readers[id].query), s.readers[id].phase.getAt;
      Move(s.(cache := Perform(s.cache, Get(key, at))), id,
           match Lookup(s.cache.entries, key, at)
           case Some(fill) => ServedHit(fill, at)
           case None => Missed)
    case QueryDatabase(id) => Move(s, id, QueryOutcome(s, s.readers[id].query, like))
    case ReadFillClock(id) =>
      Move(s, id, Filling(s.readers[id].phase.body, s.readers[id].phase.origin, s.time))
    case FillCache(id) =>
      var r := s.readers[id];
      Move(s.(cache := Perform(s.cache, Set(CacheKey(r.query), NewFill(s, id), r.phase.setAt, Ttl(r.query)))), id,
           ServedMiss(Found(r.phase.body), r.phase.origin.version))
  }

  function Step(s: State, l: Label, like: Like): State
    requires CanStep(s, l)
  {
    Effect(s, l, like).(events := s.events + 1)
  }

  function RunFrom(s: State, labels: seq<Label>, like: Like): Option<State>
    decreases |labels|
  {
    if labels == [] then Some(s)
    else if CanStep(s, labels[0]) then RunFrom(Step(s, labels[0], like), labels[1..], like)
    else None
  }

  ghost predicate Reachable(s: State, like: Like) {
    exists start, labels :: RunFrom(Initial(start), labels, like) == Some(s)
  }

  // ---------- the invariant ----------

  ghost predicate LogOk(s: State) {
    && Trace(s.history, s.log)
    && |s.commitTimes| == |s.log| == |s.commitEvents|
    && (forall j | 0 <= j < |s.log| :: s.commitTimes[j] <= s.time && s.commitEvents[j] < s.events)
    && (forall j | j in s.invalidated :: j < |s.log| && s.commitEvents[j] < s.invalidated[j] < s.events)
  }

  /** The origin read a committed version, after exactly the commits that made it. */
  ghost predicate OriginOk(s: State, query: Query, answer: Answer, o: Origin, like: Like)
    requires |s.commitTimes| == |s.log| == |s.commitEvents|
  {
    && o.version < |s.history| && o.readEvent < s.events && o.readAt <= s.time
    && Fresh(query, s.history[o.version], like) == answer
    && (forall j | 0 <= j < |s.log| && j < o.version :: s.commitEvents[j] < o.readEvent)
    && (forall j | o.version <= j < |s.log| :: o.readEvent < s.commitEvents[j] && o.readAt <= s.commitTimes[j])
  }

  /** Commit j invalidates the key. */
  predicate Covers(s: State, j: int, key: string) {
    0 <= j < |s.log| && StartsWith(key, InvalidatedBy(s.log[j]))
  }

  /** Commit j came after the read of the fill, and its invalidation is still to come or came before the fill. */
  predicate LeavesStale(s: State, j: int, key: string, fill: Fill) {
    && Covers(s, j, key) && j < |s.commitEvents|
    && fill.origin.readEvent < s.commitEvents[j]
    && (j !in s.invalidated || s.invalidated[j] < fill.setEvent)
  }

  ghost predicate FillOk(s: State, fill: Fill, like: Like)
    requires |s.commitTimes| == |s.log| == |s.commitEvents|
  {
    && OriginOk(s, fill.query, Found(fill.body), fill.origin, like)
    && fill.origin.readAt <= fill.setAt <= s.time
    && fill.origin.readEvent < fill.setEvent < s.events
  }

  ghost predicate EntryOk(s: State, key: string, like: Like)
    requires |s.commitTimes| == |s.log| == |s.commitEvents| && key in s.cache.entries
  {
    var fill := s.cache.entries[key].value;
    && key == CacheKey(fill.query)
    && s.cache.entries[key].expiresAt == fill.setAt + Ttl(fill.query)
    && FillOk(s, fill, like)
    && forall j | Covers(s, j, key) && fill.origin.version <= j :: LeavesStale(s, j, key, fill)
  }

  ghost predicate ReaderOk(s: State, r: Reader, like: Like)
    requires |s.commitTimes| == |s.log| == |s.commitEvents|
  {
    match r.phase
    case Clocked(at) => at <= s.time
    case Queried(body, origin) => OriginOk(s, r.query, Found(body), origin, like) && r.arrivedAt <= origin.version
    case Filling(body, origin, setAt) =>
      && OriginOk(s, r.query, Found(body), origin, like) && r.arrivedAt <= origin.version
      && origin.readAt <= setAt <= s.time
    case ServedHit(fill, at) =>
      && FillOk(s, fill, like) && fill.query == r.query && at <= s.time
      && at < fill.setAt + Ttl(fill.query)
    case ServedMiss(answer, version) =>
      r.arrivedAt <= version < |s.history| && Fresh(r.query, s.history[version], like) == answer
    case _ => r.arrivedAt < |s.history|
  }

  ghost predicate EntriesOk(s: State, like: Like)
    requires |s.commitTimes| == |s.log| == |s.commitEvents|
  {
    forall k | k in s.cache.entries :: EntryOk(s, k, like)
  }

  ghost predicate ReadersOk(s: State, like: Like)
    requires |s.commitTimes| == |s.log| == |s.commitEvents|
  {
    forall id | id in s.readers :: s.readers[id].arrivedAt < |s.history| && ReaderOk(s, s.readers[id], like)
  }

  ghost predicate Inv(s: State, like: Like) {
    LogOk(s) && EntriesOk(s, like) && ReadersOk(s, like)
  }

  // ---------- every step keeps it ----------

  lemma CommitKeepsOrigin(s: State, op: Op, query: Query, answer: Answer, o: Origin, like: Like)
    requires LogOk(s) && CanStep(s, Commit(op)) && OriginOk(s, query, answer, o, like)
    ensures OriginOk(Step(s, Commit(op), like), query, answer, o, like)
  {
  }

  lemma CommitKeepsEntry(s: State, op: Op, key: string, like: Like)
    requires Inv(s, like) && CanStep(s, Commit(op)) && key in s.cache.entries
    ensures EntryOk(Step(s, Commit(op), like), key, like)
  {
    var s' := Step(s, Commit(op), like);
    assert EntryOk(s, key, like);
    var fill := s.cache.entries[key].value;
    CommitKeepsOrigin(s, op, fill.query, Found(fill.body), fill.origin, like);
    forall j | Covers(s', j, key) && fill.origin.version <= j ensures LeavesStale(s', j, key, fill) {
      if j < |s.log| {
        assert Covers(s, j, key) && LeavesStale(s, j, key, fill);
      }
    }
  }

  lemma CommitKeepsReader(s: State, op: Op, r: Reader, like: Like)
    requires LogOk(s) && CanStep(s, Commit(op)) && ReaderOk(s, r, like)
    ensures ReaderOk(Step(s, Commit(op), like), r, like)
  {
    match r.phase
    case Queried(body, origin) => CommitKeepsOrigin(s, op, r.query, Found(body), origin, like);
    case Filling(body, origin, _) => CommitKeepsOrigin(s, op, r.query, Found(body), origin, like);
    case ServedHit(fill, _) => CommitKeepsOrigin(s, op, fill.query, Found(fill.body), fill.origin, like);
    case _ =>
  }

  lemma CommitKeepsInv(s: State, op: Op, like: Like)
    requires Inv(s, like) && CanStep(s, Commit(op))
    ensures Inv(Step(s, Commit(op), like), like)
  {
    var s' := Step(s, Commit(op), like);
    TraceExtends(s.history, s.log, op);
    forall k | k in s'.cache.entries ensures EntryOk(s', k, like) {
      CommitKeepsEntry(s, op, k, like);
    }
    forall id | id in s'.readers ensures ReaderOk(s', s'.readers[id], like) {
      CommitKeepsReader(s, op, s.readers[id], like);
    }
  }

  lemma InvalidateKeepsEntry(s: State, i: nat, key: string, like: Like)
    requires Inv(s, like) && CanStep(s, Invalidate(i)) && key in Step(s, Invalidate(i), like).cache.entries
    ensures EntryOk(Step(s, Invalidate(i), like), key, like)
  {
    var s' := Step(s, Invalidate(i), like);
    assert EntryOk(s, key, like);
    var fill := s.cache.entries[key].value;
    forall j | Covers(s', j, key) && fill.origin.version <= j ensures LeavesStale(s', j, key, fill) {
      assert Covers(s, j, key) && LeavesStale(s, j, key, fill);
    }
  }

  lemma InvalidateKeepsLog(s: State, i: nat, like: Like)
    requires LogOk(s) && CanStep(s, Invalidate(i))
    ensures LogOk(Step(s, Invalidate(i), like))
  {
  }

  lemma InvalidateKeepsReader(s: State, i: nat, r: Reader, like: Like)
    requires LogOk(s) && CanStep(s, Invalidate(i)) && ReaderOk(s, r, like)
    ensures ReaderOk(Step(s, Invalidate(i), like), r, like)
  {
  }

  lemma InvalidateKeepsInv(s: State, i: nat, like: Like)
    requires Inv(s, like) && CanStep(s, Invalidate(i))
    ensures Inv(Step(s, Invalidate(i), like), like)
  {
    var s' := Step(s, Invalidate(i), like);
    InvalidateKeepsLog(s, i, like);
    forall k | k in s'.cache.entries ensures EntryOk(s', k, like) {
      InvalidateKeepsEntry(s, i, k, like);
    }
    forall id | id in s'.readers ensures ReaderOk(s', s'.readers[id], like) {
      InvalidateKeepsReader(s, i, s.readers[id], like);
    }
  }

  /** The step left database, log and invalidations alone. */
  predicate Quiet(s: State, s': State) {
    && s'.history == s.history && s'.log == s.log && s'.commitTimes == s.commitTimes
    && s'.commitEvents == s.commitEvents && s'.invalidated == s.invalidated
    && s.time <= s'.time && s.events < s'.events
  }

  lemma QuietKeepsEntry(s: State, s': State, key: string, like: Like)
    requires LogOk(s) && Quiet(s, s') && key in s.cache.entries && EntryOk(s, key, like)
    requires key in s'.cache.entries && s'.cache.entries[key] == s.cache.entries[key]
    ensures EntryOk(s', key, like)
  {
    var fill := s.cache.entries[key].value;
    forall j | Covers(s', j, key) && fill.origin.version <= j ensures LeavesStale(s', j, key, fill) {
      assert Covers(s, j, key) && LeavesStale(s, j, key, fill);
    }
  }

  lemma QuietKeepsReader(s: State, s': State, r: Reader, like: Like)
    requires LogOk(s) && Quiet(s, s') && ReaderOk(s, r, like)
    ensures ReaderOk(s', r, like)
  {
  }

  lemma QuietStepKeepsInv(s: State, s': State, like: Like)
    requires Inv(s, like) && Quiet(s, s')
    requires forall k | k in s'.cache.entries ::
               (k in s.cache.entries && s'.cache.entries[k] == s.cache.entries[k]) || EntryOk(s', k, like)
    requires forall id | id in s'.readers ::
               (id in s.readers && s'.readers[id] == s.readers[id])
               || (s'.readers[id].arrivedAt < |s.history| && ReaderOk(s', s'.readers[id], like))
    ensures Inv(s', like)
  {
    forall k | k in s'.cache.entries ensures EntryOk(s', k, like) {
      if k in s.cache.entries && s'.cache.entries[k] == s.cache.entries[k] {
        QuietKeepsEntry(s, s', k, like);
      }
    }
    forall id | id in s'.readers ensures ReaderOk(s', s'.readers[id], like) {
      if id in s.readers && s'.readers[id] == s.readers[id] {
        QuietKeepsReader(s, s', s.readers[id], like);
      }
    }
  }

  lemma GetKeepsInv(s: State, id: ReaderId, like: Like)
    requires Inv(s, like) && CanStep(s, GetCached(id))
    ensures Inv(Step(s, GetCached(id), like), like)
  {
    GetServesOk(s, id, like);
    QuietStepKeepsInv(s, Step(s, GetCached(id), like), like);
  }

  lemma GetServesOk(s: State, id: ReaderId, like: Like)
    requires Inv(s, like) && CanStep(s, GetCached(id))
    ensures ReaderOk(Step(s, GetCached(id), like), Step(s, GetCached(id), like).readers[id], like)
  {
    var r := s.readers[id];
    var key := CacheKey(r.query);
    assert ReaderOk(s, r, like);
    if Lookup(s.cache.entries, key, r.phase.getAt).Some? {
      assert EntryOk(s, key, like);
      KeysAreDistinct(s.cache.entries[key].value.query, r.query);
    }
  }

  lemma QueryKeepsInv(s: State, id: ReaderId, like: Like)
    requires Inv(s, like) && CanStep(s, QueryDatabase(id))
    ensures Inv(Step(s, QueryDatabase(id), like), like)
  {
    var s' := Step(s, QueryDatabase(id), like);
    assert ReaderOk(s', s'.readers[id], like);
    QuietStepKeepsInv(s, s', like);
  }

  lemma NewFillIsStored(s: State, id: ReaderId, like: Like)
    requires CanStep(s, FillCache(id))
    ensures var s', fill, key := Step(s, FillCache(id), like), NewFill(s, id), CacheKey(s.readers[id].query);
            && s'.cache.entries == s.cache.entries[key := Entry(fill, fill.setAt + Ttl(fill.query))]
            && Quiet(s, s') && s'.time == s.time && s'.events == s.events + 1
  {
  }

  lemma NewFillIsOk(s: State, id: ReaderId, like: Like)
    requires Inv(s, like) && CanStep(s, FillCache(id))
    ensures FillOk(s.(events := s.events + 1), NewFill(s, id), like)
  {
    assert ReaderOk(s, s.readers[id], like);
  }

  /** A commit after a body's read has not been invalidated, or was before the body is stored. */
  lemma LaterCommitsAreMissed(s: State, id: ReaderId, key: string, j: int, like: Like)
    requires Inv(s, like) && CanStep(s, FillCache(id))
    requires Covers(s, j, key) && NewFill(s, id).origin.version <= j
    ensures LeavesStale(s, j, key, NewFill(s, id))
  {
    assert ReaderOk(s, s.readers[id], like);
  }

  lemma NewEntryIsOk(s: State, id: ReaderId, like: Like)
    requires Inv(s, like) && CanStep(s, FillCache(id))
    ensures EntryOk(Step(s, FillCache(id), like), CacheKey(s.readers[id].query), like)
  {
    var s', fill, key := Step(s, FillCache(id), like), NewFill(s, id), CacheKey(s.readers[id].query);
    NewFillIsStored(s, id, like);
    NewFillIsOk(s, id, like);
    forall j | Covers(s', j, key) && fill.origin.version <= j ensures LeavesStale(s', j, key, fill) {
      LaterCommitsAreMissed(s, id, key, j, like);
    }
  }

  lemma FillServesOk(s: State, id: ReaderId, like: Like)
    requires Inv(s, like) && CanStep(s, FillCache(id))
    ensures ReaderOk(Step(s, FillCache(id), like), Step(s, FillCache(id), like).readers[id], like)
  {
    assert ReaderOk(s, s.readers[id], like);
  }

  lemma FillKeepsInv(s: State, id: ReaderId, like: Like)
    requires Inv(s, like) && CanStep(s, FillCache(id))
    ensures Inv(Step(s, FillCache(id), like), like)
  {
    FillServesOk(s, id, like);
    NewEntryIsOk(s, id, like);
    QuietStepKeepsInv(s, Step(s, FillCache(id), like), like);
  }

  lemma StepKeepsInv(s: State, l: Label, like: Like)
    requires Inv(s, like) && CanStep(s, l)
    ensures Inv(Step(s, l, like), like)
  {
    match l
    case Commit(op) => CommitKeepsInv(s, op, like);
    case Invalidate(j) => InvalidateKeepsInv(s, j, like);
    case GetCached(id) => GetKeepsInv(s, id, like);
    case QueryDatabase(id) => QueryKeepsInv(s, id, like);
    case FillCache(id) => FillKeepsInv(s, id, like);
    case _ => ClockStepKeepsInv(s, l, like);
  }

  /** Steps of the clock and of readers that touch neither the cache nor the tables. */
  lemma ClockStepKeepsInv(s: State, l: Label, like: Like)
    requires Inv(s, like) && CanStep(s, l)
    requires l.Tick? || l.Arrive? || l.ReadClock? || l.ReadFillClock?
    ensures Inv(Step(s, l, like), like)
  {
    if l.ReadFillClock? {
      assert ReaderOk(s, s.readers[l.id], like);
    }
    QuietStepKeepsInv(s, Step(s, l, like), like);
  }

  lemma {:induction false} RunKeepsInv(s: State, labels: seq<Label>, like: Like)
    requires Inv(s, like) && RunFrom(s, labels, like).Some?
    ensures Inv(RunFrom(s, labels, like).value, like)
    decreases |labels|
  {
    if labels != [] {
      StepKeepsInv(s, labels[0], like);
      RunKeepsInv(Step(s, labels[0], like), labels[1..], like);
    }
  }

  lemma ReachableInv(s: State, like: Like)
    requires Reachable(s, like)
    ensures Inv(s, like)
  {
    var start, labels :| RunFrom(Initial(start), labels, like) == Some(s);
    RunKeepsInv(Initial(start), labels, like);
  }
}

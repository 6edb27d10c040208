/** How old a cached answer can be when handlers overlap, and exactly which overlaps make one out of date. */
module Staleness {
  import opened Basics
  import opened Database
  import opened Queries
  import opened Changes
  import opened Interleaving

  /** The body a reader was given came from its own query on some version committed by then. */
  lemma ServedBodiesHaveAnOrigin(s: State, id: ReaderId, like: Like)
    requires Reachable(s, like) && id in s.readers
    ensures var r := s.readers[id];
            match r.phase
            case ServedHit(fill, _) =>
              fill.origin.version < |s.history|
              && Fresh(r.query, s.history[fill.origin.version], like) == Found(fill.body)
            case ServedMiss(answer, version) =>
              r.arrivedAt <= version < |s.history| && Fresh(r.query, s.history[version], like) == answer
            case _ => true
  {
    ReachableInv(s, like);
    assert ReaderOk(s, s.readers[id], like);
  }

  /**
   A commit to the key's family is missing from a cached entry exactly when it came after the entry's database read
   and its invalidation is either still owed or ran before the entry was filled.
   */
  lemma MissingCommitsExactly(s: State, key: string, j: int, like: Like)
    requires Reachable(s, like) && key in s.cache.entries
    ensures var fill := s.cache.entries[key].value;
            Covers(s, j, key) && fill.origin.version <= j <==> LeavesStale(s, j, key, fill)
  {
    ReachableInv(s, like);
    assert EntryOk(s, key, like);
  }

  /** An invalidation that left an entry stale overtook it: it ran between the entry's database read and its fill. */
  lemma StaleOnceInvalidatedIsOvertaken(s: State, key: string, j: int, like: Like)
    requires Reachable(s, like) && key in s.cache.entries
    requires LeavesStale(s, j, key, s.cache.entries[key].value) && j in s.invalidated
    ensures s.cache.entries[key].value.origin.readEvent < s.invalidated[j] < s.cache.entries[key].value.setEvent
  {
    ReachableInv(s, like);
  }

  /** Commit j is missing from the entry under `key`, and it matters to the answer of the entry's query. */
  ghost predicate OutdatedBy(s: State, key: string, j: nat, like: Like)
    requires key in s.cache.entries
  {
    var fill := s.cache.entries[key].value;
    && LeavesStale(s, j, key, fill)
    && |s.history| == |s.log| + 1 && fill.origin.version <= j
    && Matters(s.history, s.log, fill.origin.version, |s.log|, j, fill.query, like)
  }

  /**
   An entry differs from what a fresh query answers exactly when a commit that matters to its query came after its
   database read, and the invalidation of that commit is still owed or ran before the entry was filled.
   */
  lemma ExactStaleness(s: State, key: string, like: Like)
    requires Reachable(s, like) && key in s.cache.entries
    ensures |s.history| == |s.log| + 1
    ensures var fill := s.cache.entries[key].value;
            Fresh(fill.query, Current(s), like) != Found(fill.body) <==> exists j :: OutdatedBy(s, key, j, like)
  {
    ReachableInv(s, like);
    assert EntryOk(s, key, like);
    var fill := s.cache.entries[key].value;
    AnswerChangesExactly(s.history, s.log, fill.origin.version, |s.log|, fill.query, like);
    if SomeWriteMatters(s.history, s.log, fill.origin.version, |s.log|, fill.query, like) {
      var j :| fill.origin.version <= j < |s.log|
               && Matters(s.history, s.log, fill.origin.version, |s.log|, j, fill.query, like);
      MatteringCommitOutdates(s, key, j, like);
    }
  }

  lemma MatteringCommitOutdates(s: State, key: string, j: nat, like: Like)
    requires Inv(s, like) && key in s.cache.entries
    requires var fill := s.cache.entries[key].value;
             && fill.origin.version <= j < |s.log|
             && Matters(s.history, s.log, fill.origin.version, |s.log|, j, fill.query, like)
    ensures OutdatedBy(s, key, j, like)
  {
    assert EntryOk(s, key, like);
    var fill := s.cache.entries[key].value;
    MatteringWritesCover(s.history, s.log, fill.origin.version, |s.log|, j, fill.query, like);
    assert Covers(s, j, key);
  }

  /** What a hit serves differs from what the database would answer at that moment for the same reason and no other. */
  lemma ExactlyStaleHits(s: State, id: ReaderId, like: Like)
    requires Reachable(s, like) && CanStep(s, GetCached(id))
    requires Step(s, GetCached(id), like).readers[id].phase.ServedHit?
    ensures var r, served := s.readers[id], Step(s, GetCached(id), like).readers[id].phase.fill;
            && CacheKey(r.query) in s.cache.entries
            && (Found(served.body) != Fresh(r.query, Current(s), like)
                <==> exists j :: OutdatedBy(s, CacheKey(r.query), j, like))
  {
    var key := CacheKey(s.readers[id].query);
    ReachableInv(s, like);
    assert EntryOk(s, key, like);
    KeysAreDistinct(s.cache.entries[key].value.query, s.readers[id].query);
    ExactStaleness(s, key, like);
  }

  /** A cached user found by login is never out of date. */
  lemma LoginEntriesAreFresh(s: State, login: string, like: Like)
    requires Reachable(s, like) && CacheKey(UserWithLogin(login)) in s.cache.entries
    ensures |s.history| > 0
    ensures Fresh(UserWithLogin(login), Current(s), like)
            == Found(s.cache.entries[CacheKey(UserWithLogin(login))].value.body)
  {
    var key := CacheKey(UserWithLogin(login));
    ReachableInv(s, like);
    assert EntryOk(s, key, like);
    var fill := s.cache.entries[key].value;
    KeysAreDistinct(fill.query, UserWithLogin(login));
    ExactStaleness(s, key, like);
    forall j: nat | OutdatedBy(s, key, j, like) ensures false {
      FoundLoginIsFinal(s.history, s.log, fill.origin.version, |s.log|, j, login, like);
    }
  }

  /** With no invalidation owed and no fill overtaken by one, a cached entry is what a fresh query answers. */
  lemma UndisturbedEntriesAreFresh(s: State, key: string, like: Like)
    requires Reachable(s, like) && key in s.cache.entries
    requires forall j | Covers(s, j, key) ::
               j in s.invalidated && !(s.cache.entries[key].value.origin.readEvent < s.invalidated[j]
                                       < s.cache.entries[key].value.setEvent)
    ensures |s.history| > 0
    ensures Fresh(s.cache.entries[key].value.query, Current(s), like) == Found(s.cache.entries[key].value.body)
  {
    ExactStaleness(s, key, like);
    forall j: nat | OutdatedBy(s, key, j, like) ensures false {
      StaleOnceInvalidatedIsOvertaken(s, key, j, like);
    }
  }

  /**
   A hit was filled less than its time to live before the clock reading of the read. If the fill came at most `delay`
   after its database read, the body already contains every commit made `delay` plus that time before the reading.
   */
  lemma HitsAreRecent(s: State, id: ReaderId, delay: int, like: Like)
    requires Reachable(s, like) && id in s.readers && s.readers[id].phase.ServedHit?
    ensures var r := s.readers[id];
            var fill, at, ttl := r.phase.fill, r.phase.getAt, if r.query.ActiveRides? then 15 else 60;
            && at - ttl < fill.setAt
            && (fill.setAt - fill.origin.readAt <= delay ==>
                  && at - ttl - delay < fill.origin.readAt
                  && |s.commitTimes| == |s.log|
                  && forall j | 0 <= j < |s.log| && s.commitTimes[j] <= at - ttl - delay :: j < fill.origin.version)
  {
    ReachableInv(s, like);
    assert ReaderOk(s, s.readers[id], like);
  }

  // ---------- an overtaken fill ----------

  /** A write lands, invalidation included, between a reader's database read and its fill. */
  function Overtaken(commit: nat, op: Op, id: ReaderId): seq<Label> {
    [Commit(op), Invalidate(commit), ReadFillClock(id), FillCache(id)]
  }

  lemma RunsFirst(s: State, l: Label, labels: seq<Label>, like: Like)
    requires CanStep(s, l)
    ensures RunFrom(s, [l] + labels, like) == RunFrom(Step(s, l, like), labels, like)
  {
    assert ([l] + labels)[1..] == labels;
  }

  lemma RunOfTwo(s: State, first: Label, second: Label, like: Like)
    requires CanStep(s, first) && CanStep(Step(s, first, like), second)
    ensures RunFrom(s, [first, second], like) == Some(Step(Step(s, first, like), second, like))
  {
    var next := Step(s, first, like);
    RunsFirst(s, first, [second], like);
    RunsFirst(next, second, [], like);
    assert [first] + [second] == [first, second] && [second] + [] == [second];
  }

  lemma {:induction false} RunsCompose(s: State, first: seq<Label>, second: seq<Label>, like: Like)
    requires RunFrom(s, first, like).Some?
    ensures RunFrom(s, first + second, like) == RunFrom(RunFrom(s, first, like).value, second, like)
    decreases |first|
  {
    if first == [] {
      assert first + second == second;
    } else {
      assert (first + second)[1..] == first[1..] + second;
      RunsCompose(Step(s, first[0], like), first[1..], second, like);
    }
  }

  lemma CommitAndInvalidate(s: State, op: Op, like: Like) returns (end: State)
    requires LogOk(s) && Enabled(Current(s), op)
    ensures RunFrom(s, [Commit(op), Invalidate(|s.log|)], like) == Some(end)
    ensures |end.history| > 0 && Current(end) == Apply(Current(s), op) && end.log == s.log + [op]
    ensures end.invalidated.Keys == s.invalidated.Keys + {|s.log|}
    ensures end.readers == s.readers && end.time == s.time
  {
    var committed := Step(s, Commit(op), like);
    assert |s.log| !in s.invalidated;
    end := Step(committed, Invalidate(|s.log|), like);
    RunOfTwo(s, Commit(op), Invalidate(|s.log|), like);
  }

  lemma StoreBody(s: State, id: ReaderId, like: Like) returns (end: State)
    requires |s.history| > 0 && id in s.readers && s.readers[id].phase.Queried?
    ensures RunFrom(s, [ReadFillClock(id), FillCache(id)], like) == Some(end)
    ensures end.history == s.history && end.log == s.log && end.invalidated == s.invalidated && end.time == s.time
    ensures end.readers.Keys == s.readers.Keys
    ensures var key := CacheKey(s.readers[id].query);
            && key in end.cache.entries
            && end.cache.entries[key].value.body == s.readers[id].phase.body
            && end.cache.entries[key].expiresAt == s.time + Ttl(s.readers[id].query)
  {
    var clocked := Step(s, ReadFillClock(id), like);
    end := Step(clocked, FillCache(id), like);
    RunOfTwo(s, ReadFillClock(id), FillCache(id), like);
  }

  /** Such a fill stores a body that no longer matches the tables, with no invalidation left to remove it. */
  lemma OvertakenFillIsStale(s: State, id: ReaderId, op: Op, like: Like) returns (end: State)
    requires Reachable(s, like) && id in s.readers && s.readers[id].phase.Queried?
    requires |s.history| > 0 && Enabled(Current(s), op)
    requires Fresh(s.readers[id].query, Apply(Current(s), op), like) != Found(s.readers[id].phase.body)
    ensures RunFrom(s, Overtaken(|s.log|, op, id), like) == Some(end)
    ensures end.log == s.log + [op] && end.invalidated.Keys == s.invalidated.Keys + {|s.log|} && |end.history| > 0
    ensures end.time == s.time && end.readers.Keys == s.readers.Keys
    ensures var key := CacheKey(s.readers[id].query);
            && key in end.cache.entries
            && end.cache.entries[key].value.body == s.readers[id].phase.body
            && end.cache.entries[key].expiresAt == s.time + Ttl(s.readers[id].query)
            && Fresh(s.readers[id].query, Current(end), like) != Found(end.cache.entries[key].value.body)
  {
    ReachableInv(s, like);
    var invalidated := CommitAndInvalidate(s, op, like);
    end := StoreBody(invalidated, id, like);
    RunsCompose(s, [Commit(op), Invalidate(|s.log|)], [ReadFillClock(id), FillCache(id)], like);
    assert Overtaken(|s.log|, op, id) == [Commit(op), Invalidate(|s.log|)] + [ReadFillClock(id), FillCache(id)];
  }

  lemma ArriveAndReadClock(s: State, id: ReaderId, query: Query, like: Like) returns (end: State)
    requires |s.history| > 0 && id !in s.readers
    ensures RunFrom(s, [Arrive(id, query), ReadClock(id)], like) == Some(end)
    ensures end == s.(readers := s.readers[id := Reader(query, |s.history| - 1, Clocked(s.time))],
                      events := s.events + 2)
  {
    var arrived := Step(s, Arrive(id, query), like);
    end := Step(arrived, ReadClock(id), like);
    RunOfTwo(s, Arrive(id, query), ReadClock(id), like);
  }

  /** Until it expires, whatever an entry holds is what the next reader of its key is served. */
  lemma NextReaderIsServedTheEntry(s: State, id: ReaderId, query: Query, like: Like) returns (end: State)
    requires |s.history| > 0 && id !in s.readers
    requires CacheKey(query) in s.cache.entries && s.time < s.cache.entries[CacheKey(query)].expiresAt
    ensures RunFrom(s, [Arrive(id, query), ReadClock(id)] + [GetCached(id)], like) == Some(end)
    ensures id in end.readers && end.readers[id].phase == ServedHit(s.cache.entries[CacheKey(query)].value, s.time)
    ensures end.readers[id].query == query
    ensures end.history == s.history && end.log == s.log && end.invalidated == s.invalidated
  {
    var clocked := ArriveAndReadClock(s, id, query, like);
    end := Step(clocked, GetCached(id), like);
    RunsFirst(clocked, GetCached(id), [], like);
    assert [GetCached(id)] + [] == [GetCached(id)];
    RunsCompose(s, [Arrive(id, query), ReadClock(id)], [GetCached(id)], like);
  }

  lemma MissAndQuery(s: State, id: ReaderId, like: Like) returns (end: State)
    requires |s.history| > 0 && id in s.readers && s.readers[id].phase.Clocked?
    requires CacheKey(s.readers[id].query) !in s.cache.entries && Fresh(s.readers[id].query, Current(s), like).Found?
    ensures RunFrom(s, [GetCached(id), QueryDatabase(id)], like) == Some(end)
    ensures end.history == s.history && end.log == s.log && end.invalidated == s.invalidated && end.time == s.time
    ensures end.readers.Keys == s.readers.Keys && end.readers[id].query == s.readers[id].query
    ensures end.readers[id].phase.Queried?
    ensures Found(end.readers[id].phase.body) == Fresh(s.readers[id].query, Current(s), like)
  {
    var missed := Step(s, GetCached(id), like);
    end := Step(missed, QueryDatabase(id), like);
    RunOfTwo(s, GetCached(id), QueryDatabase(id), like);
  }

  lemma EmptyCacheMisses(s: State, id: ReaderId, query: Query, like: Like) returns (end: State)
    requires |s.history| > 0 && id !in s.readers && CacheKey(query) !in s.cache.entries
    requires Fresh(query, Current(s), like).Found?
    ensures RunFrom(s, [Arrive(id, query), ReadClock(id)] + [GetCached(id), QueryDatabase(id)], like) == Some(end)
    ensures end.history == s.history && end.log == s.log && end.invalidated == s.invalidated && end.time == s.time
    ensures end.readers.Keys == s.readers.Keys + {id} && end.readers[id].query == query
    ensures end.readers[id].phase.Queried? && Found(end.readers[id].phase.body) == Fresh(query, Current(s), like)
  {
    var clocked := ArriveAndReadClock(s, id, query, like);
    end := MissAndQuery(clocked, id, like);
    RunsCompose(s, [Arrive(id, query), ReadClock(id)], [GetCached(id), QueryDatabase(id)], like);
  }

  lemma ReachableContinues(s: State, labels: seq<Label>, end: State, like: Like)
    requires Reachable(s, like) && RunFrom(s, labels, like) == Some(end)
    ensures Reachable(end, like)
  {
    var start, before :| RunFrom(Initial(start), before, like) == Some(s);
    RunsCompose(Initial(start), before, labels, like);
  }

  lemma InitialIsReachable(time: int, like: Like)
    ensures Reachable(Initial(time), like)
  {
    assert RunFrom(Initial(time), [], like) == Some(Initial(time));
  }

  const NEW_USER := CreateUser(1, "login", "password", "name")

  lemma StaleEntryExample(mask: string, like: Like) returns (end: State)
    requires like("name", mask)
    ensures Reachable(end, like) && |end.history| > 0 && |end.log| == 1 && 0 in end.invalidated && 1 !in end.readers
    ensures var key := CacheKey(UsersMatching(mask));
            && key in end.cache.entries && end.time < end.cache.entries[key].expiresAt
            && Fresh(UsersMatching(mask), Current(end), like) != Found(end.cache.entries[key].value.body)
  {
    var query, start := UsersMatching(mask), Initial(0);
    InitialIsReachable(0, like);
    var queried := EmptyCacheMisses(start, 0, query, like);
    ReachableContinues(start, [Arrive(0, query), ReadClock(0)] + [GetCached(0), QueryDatabase(0)], queried, like);
    MatchingUserIsNews(mask, like);
    end := OvertakenFillIsStale(queried, 0, NEW_USER, like);
    ReachableContinues(queried, Overtaken(0, NEW_USER, 0), end, like);
  }

  /**
   A run that serves a stale hit with every invalidation done: a user whose name matches the mask is created between
   a reader's query of the users and its fill, and a second reader is served the list without that user.
   */
  lemma StaleHitExample(mask: string, like: Like) returns (end: State)
    requires like("name", mask)
    ensures Reachable(end, like) && |end.history| > 0
    ensures |end.log| == 1 && 0 in end.invalidated
    ensures 1 in end.readers && end.readers[1].query == UsersMatching(mask) && end.readers[1].phase.ServedHit?
    ensures Fresh(UsersMatching(mask), Current(end), like) != Found(end.readers[1].phase.fill.body)
  {
    var query := UsersMatching(mask);
    var filled := StaleEntryExample(mask, like);
    end := NextReaderIsServedTheEntry(filled, 1, query, like);
    ReachableContinues(filled, [Arrive(1, query), ReadClock(1)] + [GetCached(1)], end, like);
  }

  lemma MatchingUserIsNews(mask: string, like: Like)
    requires like("name", mask)
    ensures Enabled(EMPTY_TABLES, NEW_USER)
    ensures Fresh(UsersMatching(mask), Apply(EMPTY_TABLES, NEW_USER), like)
            != Fresh(UsersMatching(mask), EMPTY_TABLES, like)
  {
    assert 1 in SelectByMask(Apply(EMPTY_TABLES, NEW_USER).users, mask, like);
    assert 1 !in SelectByMask(EMPTY_TABLES.users, mask, like);
  }
}

/**
 The two accounts of the cache agree: when the steps of a reader or a writer follow one another with nobody else's in
 between, they do what the handler does in one go.
 */
module Sequential {
  import opened Basics
  import opened Database
  import opened Queries
  import opened Cache
  import opened Interleaving
  import opened Server
  import opened Staleness

  /** The cache as the server has it, without the origins. */
  function Bodies(entries: map<string, Entry<Fill>>): map<string, Entry<Body>> {
    map k | k in entries :: Entry(entries[k].value.body, entries[k].expiresAt)
  }

  function Plainly(cache: CacheState<Fill>): CacheState<Body> {
    CacheState(Bodies(cache.entries), cache.hits, cache.misses)
  }

  /** What a reader that is done was given. */
  function Served(phase: Phase): Option<Response> {
    match phase
    case ServedHit(fill, _) => Some(Response(200, Content(fill.body)))
    case ServedMiss(answer, _) => Some(Reply(answer))
    case _ => None
  }

  lemma GetIsPlain(cache: CacheState<Fill>, key: string, at: int)
    ensures Plainly(Perform(cache, Cache.Get(key, at))) == Perform(Plainly(cache), Cache.Get(key, at))
    ensures Lookup(Bodies(cache.entries), key, at).Some? <==> Lookup(cache.entries, key, at).Some?
  {
    assert Bodies(cache.entries - {key}) == Bodies(cache.entries) - {key};
  }

  lemma SetIsPlain(cache: CacheState<Fill>, key: string, fill: Fill, at: int, ttl: int)
    ensures Plainly(Perform(cache, Cache.Set(key, fill, at, ttl)))
            == Perform(Plainly(cache), Cache.Set(key, fill.body, at, ttl))
  {
    assert Bodies(cache.entries[key := Entry(fill, at + ttl)])
        == Bodies(cache.entries)[key := Entry(fill.body, at + ttl)];
  }

  lemma InvalidateIsPlain(cache: CacheState<Fill>, prefix: string)
    ensures Plainly(Perform(cache, Cache.InvalidatePrefix(prefix)))
            == Perform(Plainly(cache), Cache.InvalidatePrefix(prefix))
  {
    assert Bodies(Without(cache.entries, prefix)) == Without(Bodies(cache.entries), prefix);
  }

  /** One state is reached from another by some steps. */
  ghost predicate Leads(s: State, end: State, like: Like) {
    exists labels :: RunFrom(s, labels, like) == Some(end)
  }

  lemma OneStepLeads(s: State, l: Label, like: Like)
    requires CanStep(s, l)
    ensures Leads(s, Step(s, l, like), like)
  {
    RunsFirst(s, l, [], like);
    assert RunFrom(s, [l] + [], like) == Some(Step(s, l, like));
  }

  lemma LeadsOn(s: State, middle: State, end: State, like: Like)
    requires Leads(s, middle, like) && Leads(middle, end, like)
    ensures Leads(s, end, like)
  {
    var first :| RunFrom(s, first, like) == Some(middle);
    var second :| RunFrom(middle, second, like) == Some(end);
    RunsCompose(s, first, second, like);
  }

  /** Tables, log and invalidations are left alone. */
  predicate SameTables(s: State, end: State) {
    end.history == s.history && end.log == s.log && end.invalidated == s.invalidated
  }

  lemma LookAlone(s: State, id: ReaderId, query: Query, like: Like) returns (looked: State)
    requires |s.history| > 0 && id !in s.readers
    ensures Leads(s, looked, like) && SameTables(s, looked) && looked.time == s.time
    ensures id in looked.readers && looked.readers[id].query == query
    ensures Plainly(looked.cache) == Perform(Plainly(s.cache), Cache.Get(CacheKey(query), s.time))
    ensures match Lookup(Plainly(s.cache).entries, CacheKey(query), s.time)
            case Some(body) => Served(looked.readers[id].phase) == Some(Response(200, Content(body)))
            case None => looked.readers[id].phase == Missed
  {
    var clocked := ArriveAndReadClock(s, id, query, like);
    looked := Step(clocked, GetCached(id), like);
    OneStepLeads(clocked, GetCached(id), like);
    LeadsOn(s, clocked, looked, like);
    GetIsPlain(s.cache, CacheKey(query), s.time);
  }

  /** The fill of a reader that has its body, the clock having moved on meanwhile. */
  lemma FillAlone(s: State, id: ReaderId, setAt: int, like: Like) returns (end: State)
    requires |s.history| > 0 && id in s.readers && s.readers[id].phase.Queried? && s.time <= setAt
    ensures Leads(s, end, like) && SameTables(s, end) && id in end.readers
    ensures Served(end.readers[id].phase) == Some(Response(200, Content(s.readers[id].phase.body)))
    ensures var query := s.readers[id].query;
            Plainly(end.cache)
            == Perform(Plainly(s.cache), Cache.Set(CacheKey(query), s.readers[id].phase.body, setAt, Ttl(query)))
  {
    var ticked := Step(s, Tick(setAt), like);
    OneStepLeads(s, Tick(setAt), like);
    var clocked := Step(ticked, ReadFillClock(id), like);
    OneStepLeads(ticked, ReadFillClock(id), like);
    end := Step(clocked, FillCache(id), like);
    OneStepLeads(clocked, FillCache(id), like);
    LeadsOn(s, ticked, clocked, like);
    LeadsOn(s, clocked, end, like);
    SetIsPlain(s.cache, CacheKey(s.readers[id].query), NewFill(clocked, id), setAt, Ttl(s.readers[id].query));
  }

  /**
   A reader alone is the handler: from asking the cache to filling it, it leaves the cache and gives the response that
   the handler does with these two clock readings.
   */
  lemma ReaderAlone(s: State, id: ReaderId, query: Query, setAt: int, like: Like) returns (end: State)
    requires |s.history| > 0 && id !in s.readers && s.time <= setAt
    ensures Leads(s, end, like) && SameTables(s, end) && id in end.readers
    ensures var (cache, response) := CacheAside(Plainly(s.cache), query, Current(s), Clocks(0, s.time, setAt), like);
            Plainly(end.cache) == cache && Served(end.readers[id].phase) == Some(response)
  {
    var looked := LookAlone(s, id, query, like);
    if Lookup(Plainly(s.cache).entries, CacheKey(query), s.time).Some? {
      end := looked;
    } else {
      var queried := Step(looked, QueryDatabase(id), like);
      OneStepLeads(looked, QueryDatabase(id), like);
      LeadsOn(s, looked, queried, like);
      if Fresh(query, Current(s), like).Found? {
        end := FillAlone(queried, id, setAt, like);
        LeadsOn(s, queried, end, like);
      } else {
        end := queried;
      }
    }
  }

  /** A writer alone is the handler: it commits and invalidates. */
  lemma WriterAlone(s: State, op: Op, like: Like) returns (end: State)
    requires Reachable(s, like) && |s.history| > 0 && Enabled(Current(s), op)
    ensures Leads(s, end, like) && |end.history| > 0 && end.log == s.log + [op]
    ensures end.invalidated.Keys == s.invalidated.Keys + {|s.log|}
    ensures Current(end) == Apply(Current(s), op)
    ensures Plainly(end.cache) == Perform(Plainly(s.cache), Cache.InvalidatePrefix(InvalidatedBy(op)))
  {
    ReachableInv(s, like);
    var committed := Step(s, Commit(op), like);
    OneStepLeads(s, Commit(op), like);
    assert |s.log| !in s.invalidated;
    end := Step(committed, Invalidate(|s.log|), like);
    OneStepLeads(committed, Invalidate(|s.log|), like);
    LeadsOn(s, committed, end, like);
    InvalidateIsPlain(s.cache, InvalidatedBy(op));
  }
}

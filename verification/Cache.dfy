/**
 The in-memory response cache: entries that expire, are dropped lazily on a read, and are invalidated by key prefix.
 A call reads the clock before it takes the mutex, so readings in the order of the log need not be monotone.
 What the cache stores is the finished response body; here it may be any value.
 */
module Cache {
  import opened Basics
  import opened Strings

  datatype Entry<V> = Entry(value: V, expiresAt: int)

  /** `hits` and `misses` are `std::uint64_t` counters and wrap around. */
  datatype CacheState<V> = CacheState(entries: map<string, Entry<V>>, hits: nat, misses: nat)

  const UINT64_SIZE: nat := 0x1_0000_0000_0000_0000

  datatype Call<V> =
    | Get(key: string, now: int)
    | Set(key: string, value: V, now: int, ttl: int)
    | InvalidatePrefix(prefix: string)

  function Lookup<V>(entries: map<string, Entry<V>>, key: string, now: int): Option<V> {
    if key in entries && now < entries[key].expiresAt then Some(entries[key].value) else None
  }

  /** The entries whose keys do not start with the prefix. */
  function Without<V>(entries: map<string, Entry<V>>, prefix: string): map<string, Entry<V>> {
    map k | k in entries && !StartsWith(k, prefix) :: entries[k]
  }

  function Perform<V>(s: CacheState<V>, c: Call<V>): CacheState<V> {
    match c
    case Get(key, now) =>
      if Lookup(s.entries, key, now).Some? then s.(hits := (s.hits + 1) % UINT64_SIZE)
      else s.(entries := s.entries - {key}, misses := (s.misses + 1) % UINT64_SIZE)
    case Set(key, value, now, ttl) => s.(entries := s.entries[key := Entry(value, now + ttl)])
    case InvalidatePrefix(prefix) => s.(entries := Without(s.entries, prefix))
  }

  class ResponseCache<V> {
    var entries: map<string, Entry<V>>
    var hits: nat
    var misses: nat

    ghost function Contents(): CacheState<V>
      reads this
    {
      CacheState(entries, hits, misses)
    }

    constructor ()
      ensures Contents() == CacheState(map[], 0, 0)
    {
      entries, hits, misses := map[], 0, 0;
    }

    method Get(key: string, now: int) returns (found: Option<V>)
      modifies this
      ensures found == Lookup(old(entries), key, now)
      ensures Contents() == Perform(old(Contents()), Call.Get(key, now))
      ensures found == if key in old(entries) && now < old(entries)[key].expiresAt
                       then Some(old(entries)[key].value) else None
      ensures entries == if found.Some? then old(entries) else old(entries) - {key}
    {
      if key !in entries {
        misses := (misses + 1) % UINT64_SIZE;
        assert entries - {key} == entries;
        return None;
      }
      if entries[key].expiresAt <= now {
        entries := entries - {key};
        misses := (misses + 1) % UINT64_SIZE;
        return None;
      }
      hits := (hits + 1) % UINT64_SIZE;
      return Some(entries[key].value);
    }

    method Set(key: string, value: V, now: int, ttl: int)
      modifies this
      ensures Contents() == Perform(old(Contents()), Call.Set(key, value, now, ttl))
      ensures entries == old(entries)[key := Entry(value, now + ttl)]
    {
      var expiresAt := now + ttl;
      entries := entries[key := Entry(value, expiresAt)];
    }

    /** Erases while iterating: every entry present at the start is visited once, in whatever order the table has. */
    method InvalidatePrefix(prefix: string)
      modifies this
      ensures Contents() == Perform(old(Contents()), Call.InvalidatePrefix(prefix))
      ensures entries == map k | k in old(entries) && !(prefix <= k) :: old(entries)[k]
    {
      var unvisited := entries.Keys;
      while unvisited != {}
        invariant hits == old(hits) && misses == old(misses)
        invariant unvisited <= entries.Keys <= old(entries).Keys
        invariant forall k | k in entries :: entries[k] == old(entries)[k]
        invariant forall k | k in old(entries) && k !in unvisited :: k in entries <==> !StartsWith(k, prefix)
        decreases unvisited
      {
        var key :| key in unvisited;
        unvisited := unvisited - {key};
        if StartsWith(key, prefix) {
          entries := entries - {key};
        }
      }
      forall k | k in old(entries) ensures StartsWith(k, prefix) <==> prefix <= k {
        StartsWithIsPrefix(k, prefix);
      }
    }

    /** Whatever calls led here: the reads they answered, the reads they did not, and the keys still stored. */
    method GetStats() returns (hitCount: nat, missCount: nat, entryCount: nat)
      ensures hitCount == hits && missCount == misses && entryCount == |entries|
      ensures forall log | After(log) == Contents() ::
                && hitCount == Answered(log) % UINT64_SIZE
                && missCount == (Reads(log) - Answered(log)) % UINT64_SIZE
                && entryCount == |Stored(log)|
    {
      forall log | After(log) == Contents()
        ensures hits == Answered(log) % UINT64_SIZE && misses == (Reads(log) - Answered(log)) % UINT64_SIZE
        ensures |entries| == |Stored(log)|
      {
        CountersCountReads(log);
        StoredAreEntries(log);
      }
      return hits, misses, |entries|;
    }
  }

  // ---------- the log of calls ----------

  function After<V>(log: seq<Call<V>>): CacheState<V> {
    if log == [] then CacheState(map[], 0, 0) else Perform(After(log[..|log| - 1]), log[|log| - 1])
  }

  /** The call ends the life of an entry under `key` that expires at `expiresAt`. */
  predicate Removes<V>(c: Call<V>, key: string, expiresAt: int) {
    match c
    case Get(k, now) => k == key && expiresAt <= now
    case Set(k, _, _, _) => k == key
    case InvalidatePrefix(prefix) => StartsWith(key, prefix)
  }

  predicate IsSet<V>(c: Call<V>, key: string) {
    c.Set? && c.key == key
  }

  /** `log[i]` stores under `key` and no later call removed it. */
  predicate Survives<V>(log: seq<Call<V>>, key: string, i: int) {
    && 0 <= i < |log| && IsSet(log[i], key)
    && forall j | i < j < |log| :: !Removes(log[j], key, log[i].now + log[i].ttl)
  }

  /** One more call: it may remove what survived, and a store survives itself. */
  lemma SurvivalExtends<V>(log: seq<Call<V>>, c: Call<V>, key: string)
    ensures forall i | 0 <= i < |log| ::
              Survives(log + [c], key, i) <==> Survives(log, key, i) && !Removes(c, key, log[i].now + log[i].ttl)
    ensures Survives(log + [c], key, |log|) <==> IsSet(c, key)
  {
    var longer := log + [c];
    assert forall i | 0 <= i < |log| :: longer[i] == log[i];
    forall i | 0 <= i < |log| && Survives(longer, key, i)
      ensures Survives(log, key, i) && !Removes(c, key, log[i].now + log[i].ttl)
    {
      assert longer[|log|] == c;
    }
  }

  /** The entry under `key`, if any, is that of the store that survives. */
  ghost predicate HoldsSurvivor<V>(entries: map<string, Entry<V>>, log: seq<Call<V>>, key: string) {
    && (key in entries <==> exists i :: Survives(log, key, i))
    && forall i | Survives(log, key, i) ::
         key in entries && entries[key] == Entry(log[i].value, log[i].now + log[i].ttl)
  }

  lemma NextCallHoldsSurvivor<V>(s: CacheState<V>, log: seq<Call<V>>, c: Call<V>, key: string)
    requires HoldsSurvivor(s.entries, log, key)
    ensures HoldsSurvivor(Perform(s, c).entries, log + [c], key)
  {
    var longer, entries := log + [c], Perform(s, c).entries;
    SurvivalExtends(log, c, key);
    assert forall i | 0 <= i < |log| :: longer[i] == log[i];
    if IsSet(c, key) {
      assert Survives(longer, key, |log|);
    } else if i :| Survives(log, key, i) {
      assert s.entries[key] == Entry(log[i].value, log[i].now + log[i].ttl);
      assert key in entries <==> Survives(longer, key, i);
    }
  }

  lemma {:induction false} EntriesAreSurvivors<V>(log: seq<Call<V>>, key: string)
    ensures HoldsSurvivor(After(log).entries, log, key)
  {
    if log != [] {
      var before, c := log[..|log| - 1], log[|log| - 1];
      EntriesAreSurvivors(before, key);
      NextCallHoldsSurvivor(After(before), before, c, key);
      assert before + [c] == log;
    }
  }

  /** The keys under which some store survives. */
  function Stored<V>(log: seq<Call<V>>): set<string> {
    set i | 0 <= i < |log| && log[i].Set? && Survives(log, log[i].key, i) :: log[i].key
  }

  lemma StoredAreEntries<V>(log: seq<Call<V>>)
    ensures Stored(log) == After(log).entries.Keys
    ensures |Stored(log)| == |After(log).entries|
  {
    forall key ensures key in Stored(log) <==> key in After(log).entries {
      EntriesAreSurvivors(log, key);
      if i :| Survives(log, key, i) {
        assert log[i].Set? && log[i].key == key;
      }
    }
    assert |After(log).entries| == |After(log).entries.Keys|;
  }

  /** What a read answers, whatever the clock readings were. */
  lemma GetAnswersSurvivor<V>(log: seq<Call<V>>, key: string, now: int, value: V)
    ensures Lookup(After(log).entries, key, now) == Some(value) <==>
            exists i :: Survives(log, key, i) && log[i].value == value && now < log[i].now + log[i].ttl
  {
    EntriesAreSurvivors(log, key);
  }

  /** `log[i]` is the last store under `key` and no later invalidation covers the key. */
  predicate LastSet<V>(log: seq<Call<V>>, key: string, i: int) {
    && 0 <= i < |log| && IsSet(log[i], key)
    && forall j | i < j < |log| :: !IsSet(log[j], key) && !(log[j].InvalidatePrefix? && StartsWith(key, log[j].prefix))
  }

  /** With a monotone clock, a read answers the last store that was not invalidated since and has not expired. */
  lemma GetAnswersLastSet<V>(log: seq<Call<V>>, key: string, now: int, value: V)
    requires forall j | 0 <= j < |log| && log[j].Get? :: log[j].now <= now
    ensures Lookup(After(log).entries, key, now) == Some(value) <==>
            exists i :: LastSet(log, key, i) && log[i].value == value && now < log[i].now + log[i].ttl
  {
    GetAnswersSurvivor(log, key, now, value);
    if i :| LastSet(log, key, i) && log[i].value == value && now < log[i].now + log[i].ttl {
      assert Survives(log, key, i);
    }
    if i :| Survives(log, key, i) && log[i].value == value && now < log[i].now + log[i].ttl {
      assert LastSet(log, key, i);
    }
  }

  function Reads<V>(log: seq<Call<V>>): nat {
    if log == [] then 0 else Reads(log[..|log| - 1]) + if log[|log| - 1].Get? then 1 else 0
  }

  function Answered<V>(log: seq<Call<V>>): nat {
    if log == [] then 0
    else
      var c := log[|log| - 1];
      Answered(log[..|log| - 1])
      + if c.Get? && Lookup(After(log[..|log| - 1]).entries, c.key, c.now).Some? then 1 else 0
  }

  lemma NextCount(n: nat)
    ensures (n % UINT64_SIZE + 1) % UINT64_SIZE == (n + 1) % UINT64_SIZE
  {
  }

  /** Every read is counted once, as a hit when it was answered and as a miss otherwise, up to counter width. */
  lemma {:induction false} CountersCountReads<V>(log: seq<Call<V>>)
    ensures Answered(log) <= Reads(log)
    ensures After(log).hits == Answered(log) % 0x1_0000_0000_0000_0000
    ensures After(log).misses == (Reads(log) - Answered(log)) % 0x1_0000_0000_0000_0000
  {
    if log != [] {
      var before := log[..|log| - 1];
      CountersCountReads(before);
      NextCount(Answered(before));
      NextCount(Reads(before) - Answered(before));
    }
  }

  /** A hit was stored less than its time to live before the read, on the clocks the two calls read. */
  lemma HitIsYoungerThanTtl<V>(log: seq<Call<V>>, key: string, now: int)
    requires Lookup(After(log).entries, key, now).Some?
    ensures exists i :: Survives(log, key, i) && now - log[i].ttl < log[i].now
                        && Lookup(After(log).entries, key, now) == Some(log[i].value)
  {
    EntriesAreSurvivors(log, key);
  }
}

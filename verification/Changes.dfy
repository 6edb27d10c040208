/** Which writes of a run change the answer of a cached query: the exact condition, query by query. */
module Changes {
  import opened Basics
  import opened Strings
  import opened Database
  import opened History
  import opened Queries
  import opened Views

  /** The write creates or changes the row of this ride. */
  predicate Touches(op: Op, ride: int) {
    match op
    case CreateRide(id, _, _, _, _) => id == ride
    case AcceptRide(r, _) => r == ride
    case CompleteRide(r, _) => r == ride
    case _ => false
  }

  predicate TouchedBetween(log: seq<Op>, low: nat, high: nat, ride: int) {
    exists j :: low <= j < high <= |log| && Touches(log[j], ride)
  }

  predicate CreatesMatch(op: Op, mask: string, like: Like) {
    op.CreateUser? && like(op.fullName, mask)
  }

  // ---------- one row ----------

  lemma OneOpTouches(db: Tables, op: Op, ride: int)
    requires RowsWellFormed(db) && Enabled(db, op)
    ensures !Touches(op, ride) ==>
              (ride in Apply(db, op).rides <==> ride in db.rides)
              && (ride in db.rides ==> Apply(db, op).rides[ride] == db.rides[ride])
    ensures Touches(op, ride) ==>
              ride in Apply(db, op).rides
              && (ride in db.rides ==> Stage(db.rides[ride].status) < Stage(Apply(db, op).rides[ride].status))
  {
  }

  lemma {:induction false} UntouchedRideStays(history: seq<Tables>, log: seq<Op>, low: nat, high: nat, ride: int)
    requires Trace(history, log) && low <= high < |history| && !TouchedBetween(log, low, high, ride)
    ensures ride in history[high].rides <==> ride in history[low].rides
    ensures ride in history[low].rides ==> history[high].rides[ride] == history[low].rides[ride]
    decreases high
  {
    if low < high {
      assert !Touches(log[high - 1], ride);
      UntouchedRideStays(history, log, low, high - 1, ride);
      EveryVersionConsistent(history, log, high - 1);
      OneOpTouches(history[high - 1], log[high - 1], ride);
    }
  }

  /** A touched ride is not what it was: it is new, or further in its life. */
  lemma TouchedRideMoves(history: seq<Tables>, log: seq<Op>, low: nat, j: nat, high: nat, ride: int)
    requires Trace(history, log) && low <= j < high < |history| && Touches(log[j], ride)
    ensures ride in history[j + 1].rides && ride in history[high].rides
    ensures history[high].rides[ride].passengerId == history[j + 1].rides[ride].passengerId
    ensures ride in history[low].rides ==>
              Stage(history[low].rides[ride].status) < Stage(history[high].rides[ride].status)
  {
    EveryVersionConsistent(history, log, j);
    OneOpTouches(history[j], log[j], ride);
    RideEvolves(history, log, j + 1, high, ride);
    if ride in history[low].rides {
      RideEvolves(history, log, low, j, ride);
    }
  }

  function RowOf(db: Tables, ride: int): Option<Ride> {
    if ride in db.rides then Some(db.rides[ride]) else None
  }

  /** Two versions differ in a ride exactly when a write between them touched it. */
  lemma RideChangesExactly(history: seq<Tables>, log: seq<Op>, low: nat, high: nat, ride: int)
    requires Trace(history, log) && low <= high < |history|
    ensures RowOf(history[high], ride) != RowOf(history[low], ride) <==> TouchedBetween(log, low, high, ride)
  {
    if j :| low <= j < high && Touches(log[j], ride) {
      TouchedRideMoves(history, log, low, j, high, ride);
    } else {
      UntouchedRideStays(history, log, low, high, ride);
    }
  }

  // ---------- one query ----------

  /**
   Write j, committed between versions `low` and `high`, makes the two answers of the query differ. A ride created,
   accepted and completed between them was never seen on the active list, nor is it to be seen now.
   */
  ghost predicate Matters(history: seq<Tables>, log: seq<Op>, low: nat, high: nat, j: nat, q: Query, like: Like)
    requires |history| == |log| + 1 && low <= j < high < |history|
  {
    match q
    case ActiveRides =>
      exists r :: Touches(log[j], r) && (r in history[low].rides || !HasStatus(history[high], r, Completed))
    case RidesOf(userArg) =>
      && Stoi(userArg).Some?
      && exists r :: Touches(log[j], r) && r in history[j + 1].rides
                     && history[j + 1].rides[r].passengerId == Stoi(userArg).value
    case UserWithLogin(login) => CreatesUser(log[j], login)
    case UsersMatching(mask) => CreatesMatch(log[j], mask, like)
  }

  ghost predicate SomeWriteMatters(history: seq<Tables>, log: seq<Op>, low: nat, high: nat, q: Query, like: Like)
    requires |history| == |log| + 1 && low <= high < |history|
  {
    exists j :: low <= j < high && Matters(history, log, low, high, j, q, like)
  }

  lemma DifferingKey<K, V>(a: map<K, V>, b: map<K, V>) returns (k: K)
    requires a != b
    ensures k in a || k in b
    ensures k in a && k in b ==> a[k] != b[k]
  {
    if a.Keys <= b.Keys && b.Keys <= a.Keys {
      k :| k in a && a[k] != b[k];
    } else if a.Keys <= b.Keys {
      k :| k in b && k !in a;
    } else {
      k :| k in a && k !in b;
    }
  }

  lemma ActiveListChanges(history: seq<Tables>, log: seq<Op>, low: nat, high: nat, like: Like)
    requires Trace(history, log) && low <= high < |history|
    requires SelectActive(history[high].rides) != SelectActive(history[low].rides)
    ensures SomeWriteMatters(history, log, low, high, ActiveRides, like)
  {
    var r := DifferingKey(SelectActive(history[high].rides), SelectActive(history[low].rides));
    RideChangesExactly(history, log, low, high, r);
    assert TouchedBetween(log, low, high, r);
    var j :| low <= j < high && Touches(log[j], r);
    TouchedRideMoves(history, log, low, j, high, r);
    assert Matters(history, log, low, high, j, ActiveRides, like);
  }

  lemma ActiveListShows(history: seq<Tables>, log: seq<Op>, low: nat, high: nat, j: nat, like: Like)
    requires Trace(history, log) && low <= j < high < |history|
    requires Matters(history, log, low, high, j, ActiveRides, like)
    ensures SelectActive(history[high].rides) != SelectActive(history[low].rides)
  {
    var r :| Touches(log[j], r) && (r in history[low].rides || !HasStatus(history[high], r, Completed));
    TouchedRideMoves(history, log, low, j, high, r);
    EveryVersionConsistent(history, log, high);
    EveryVersionConsistent(history, log, low);
    var now, before := SelectActive(history[high].rides), SelectActive(history[low].rides);
    assert r in before ==> before[r] == ShowRide(history[low].rides[r]);
    assert r in now ==> now[r] == ShowRide(history[high].rides[r]);
  }

  lemma PassengerListChanges(history: seq<Tables>, log: seq<Op>, low: nat, high: nat, arg: string, like: Like)
    requires Trace(history, log) && low <= high < |history| && Stoi(arg).Some?
    requires SelectByPassenger(history[high].rides, Stoi(arg).value)
             != SelectByPassenger(history[low].rides, Stoi(arg).value)
    ensures SomeWriteMatters(history, log, low, high, RidesOf(arg), like)
  {
    var passenger := Stoi(arg).value;
    var r := DifferingKey(SelectByPassenger(history[high].rides, passenger),
                          SelectByPassenger(history[low].rides, passenger));
    RideChangesExactly(history, log, low, high, r);
    assert TouchedBetween(log, low, high, r);
    var j :| low <= j < high && Touches(log[j], r);
    TouchedRideMoves(history, log, low, j, high, r);
    if r in history[low].rides {
      RideEvolves(history, log, low, high, r);
    }
    assert Matters(history, log, low, high, j, RidesOf(arg), like);
  }

  lemma PassengerListShows(history: seq<Tables>, log: seq<Op>, low: nat, high: nat, j: nat, arg: string, like: Like)
    requires Trace(history, log) && low <= j < high < |history|
    requires Matters(history, log, low, high, j, RidesOf(arg), like)
    ensures SelectByPassenger(history[high].rides, Stoi(arg).value)
            != SelectByPassenger(history[low].rides, Stoi(arg).value)
  {
    var passenger := Stoi(arg).value;
    var r :| Touches(log[j], r) && r in history[j + 1].rides && history[j + 1].rides[r].passengerId == passenger;
    TouchedRideMoves(history, log, low, j, high, r);
    var now, before :=
      SelectByPassenger(history[high].rides, passenger), SelectByPassenger(history[low].rides, passenger);
    assert r in now && now[r] == ShowRide(history[high].rides[r]);
    assert r in before ==> before[r] == ShowRide(history[low].rides[r]);
  }

  lemma LoginChangesExactly(history: seq<Tables>, log: seq<Op>, low: nat, high: nat, login: string, like: Like)
    requires Trace(history, log) && low <= high < |history|
    ensures SelectByLogin(history[high].users, login) != SelectByLogin(history[low].users, login)
            <==> SomeWriteMatters(history, log, low, high, UserWithLogin(login), like)
  {
    var now, before := SelectByLogin(history[high].users, login), SelectByLogin(history[low].users, login);
    RowsPersist(history, log, low, high);
    if now != before {
      var u := DifferingKey(now, before);
      var j := NewUserWasCreated(history, log, low, high, u);
      assert Matters(history, log, low, high, j, UserWithLogin(login), like);
    }
    if SomeWriteMatters(history, log, low, high, UserWithLogin(login), like) {
      var j :| low <= j < high && Matters(history, log, low, high, j, UserWithLogin(login), like);
      CreatedUserIsNew(history, log, low, j, high);
      assert log[j].id in now && log[j].id !in before;
    }
  }

  lemma MaskChangesExactly(history: seq<Tables>, log: seq<Op>, low: nat, high: nat, mask: string, like: Like)
    requires Trace(history, log) && low <= high < |history|
    ensures SelectByMask(history[high].users, mask, like) != SelectByMask(history[low].users, mask, like)
            <==> SomeWriteMatters(history, log, low, high, UsersMatching(mask), like)
  {
    var now, before := SelectByMask(history[high].users, mask, like), SelectByMask(history[low].users, mask, like);
    RowsPersist(history, log, low, high);
    if now != before {
      var u := DifferingKey(now, before);
      var j := NewUserWasCreated(history, log, low, high, u);
      assert Matters(history, log, low, high, j, UsersMatching(mask), like);
    }
    if SomeWriteMatters(history, log, low, high, UsersMatching(mask), like) {
      var j :| low <= j < high && Matters(history, log, low, high, j, UsersMatching(mask), like);
      CreatedUserIsNew(history, log, low, j, high);
      assert log[j].id in now && log[j].id !in before;
    }
  }

  /** Between two versions of a run, a query's answer changed exactly when some write between them matters to it. */
  lemma AnswerChangesExactly(history: seq<Tables>, log: seq<Op>, low: nat, high: nat, q: Query, like: Like)
    requires Trace(history, log) && low <= high < |history|
    ensures Fresh(q, history[high], like) != Fresh(q, history[low], like)
            <==> SomeWriteMatters(history, log, low, high, q, like)
  {
    match q
    case ActiveRides =>
      if j :| low <= j < high && Matters(history, log, low, high, j, q, like) {
        ActiveListShows(history, log, low, high, j, like);
      } else if Fresh(q, history[high], like) != Fresh(q, history[low], like) {
        ActiveListChanges(history, log, low, high, like);
      }
    case RidesOf(arg) =>
      if j :| low <= j < high && Matters(history, log, low, high, j, q, like) {
        PassengerListShows(history, log, low, high, j, arg, like);
      } else if Fresh(q, history[high], like) != Fresh(q, history[low], like) {
        PassengerListChanges(history, log, low, high, arg, like);
      }
    case UserWithLogin(login) => LoginChangesExactly(history, log, low, high, login, like);
    case UsersMatching(mask) => MaskChangesExactly(history, log, low, high, mask, like);
  }

  /** A write that matters to a query invalidates the query's key. */
  lemma MatteringWritesCover(history: seq<Tables>, log: seq<Op>, low: nat, high: nat, j: nat, q: Query, like: Like)
    requires |history| == |log| + 1 && low <= j < high < |history| && Matters(history, log, low, high, j, q, like)
    ensures StartsWith(CacheKey(q), InvalidatedBy(log[j]))
  {
    PrefixesCoverKeys(q);
  }

  /** Once a login is found its answer is final: it is unique and users never change. */
  lemma FoundLoginIsFinal(history: seq<Tables>, log: seq<Op>, low: nat, high: nat, j: nat, login: string, like: Like)
    requires Trace(history, log) && low <= j < high < |history|
    requires Fresh(UserWithLogin(login), history[low], like).Found?
    ensures !Matters(history, log, low, high, j, UserWithLogin(login), like)
  {
    var rows := SelectByLogin(history[low].users, login);
    var u := SomeRow(rows);
    RowsPersist(history, log, low, j);
    assert u in history[j].users && history[j].users[u].login == login;
    assert Enabled(history[j], log[j]);
  }
}

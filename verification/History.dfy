/**
 Sequences of committed database versions. Version i+1 is version i after operation i of the log;
 version 0 has empty tables. What every version keeps, and what whole runs can and cannot contain.
 */
module History {
  import opened Database

  ghost predicate Trace(history: seq<Tables>, log: seq<Op>) {
    && |history| == |log| + 1
    && history[0] == EMPTY_TABLES
    && forall i | 0 <= i < |log| :: Enabled(history[i], log[i]) && history[i + 1] == Apply(history[i], log[i])
  }

  lemma TraceExtends(history: seq<Tables>, log: seq<Op>, op: Op)
    requires Trace(history, log) && Enabled(history[|log|], op)
    ensures Trace(history + [Apply(history[|log|], op)], log + [op])
  {
  }

  /** In every version accepted rides and busy drivers match one to one. */
  lemma {:induction false} EveryVersionConsistent(history: seq<Tables>, log: seq<Op>, i: nat)
    requires Trace(history, log) && i < |history|
    ensures Consistent(history[i])
  {
    if i > 0 {
      EveryVersionConsistent(history, log, i - 1);
      ApplyKeepsConsistent(history[i - 1], log[i - 1]);
    }
  }

  lemma EveryVersionConserves(history: seq<Tables>, log: seq<Op>, i: nat)
    requires Trace(history, log) && i < |history|
    ensures |BusyDrivers(history[i])| == |RidesWith(history[i], Accepted)|
    ensures |history[i].rides| ==
            |RidesWith(history[i], Searching)| + |RidesWith(history[i], Accepted)| + |RidesWith(history[i], Completed)|
    ensures RidesWith(history[i], Cancelled) == {}
  {
    EveryVersionConsistent(history, log, i);
    BusyMatchesAccepted(history[i]);
    StatusesPartitionRides(history[i]);
  }

  // ---------- the life cycle of a row ----------

  function Stage(status: RideStatus): nat {
    match status
    case Searching => 0
    case Accepted => 1
    case Completed => 2
    case Cancelled => 3
  }

  /** `later` is a possible future of `ride`: the status only advances and a driver once named stays. */
  predicate Evolves(ride: Ride, later: Ride) {
    && Stage(ride.status) <= Stage(later.status)
    && (ride.driverId.Some? ==> later.driverId == ride.driverId)
    && (ride.status == later.status ==> ride == later)
    && later == ride.(status := later.status, driverId := later.driverId, completedAt := later.completedAt)
  }

  lemma {:induction false} RideEvolves(history: seq<Tables>, log: seq<Op>, i: nat, j: nat, ride: int)
    requires Trace(history, log) && i <= j < |history| && ride in history[i].rides
    ensures ride in history[j].rides && Evolves(history[i].rides[ride], history[j].rides[ride])
    decreases j
  {
    if i < j {
      RideEvolves(history, log, i, j - 1, ride);
      NextVersionEvolves(history, log, j - 1, ride);
      EvolvesTransitively(history[i].rides[ride], history[j - 1].rides[ride], history[j].rides[ride]);
    }
  }

  lemma EvolvesTransitively(ride: Ride, later: Ride, latest: Ride)
    requires Evolves(ride, later) && Evolves(later, latest)
    ensures Evolves(ride, latest)
  {
  }

  lemma NextVersionEvolves(history: seq<Tables>, log: seq<Op>, i: nat, ride: int)
    requires Trace(history, log) && i < |log| && ride in history[i].rides
    ensures ride in history[i + 1].rides && Evolves(history[i].rides[ride], history[i + 1].rides[ride])
  {
    EveryVersionConsistent(history, log, i);
    OneOpEvolves(history[i], log[i], ride);
  }

  lemma OneOpEvolves(db: Tables, op: Op, ride: int)
    requires RowsWellFormed(db) && Enabled(db, op) && ride in db.rides
    ensures ride in Apply(db, op).rides && Evolves(db.rides[ride], Apply(db, op).rides[ride])
  {
  }

  /** Users never change, drivers only in their status, and no row ever disappears. */
  lemma {:induction false} RowsPersist(history: seq<Tables>, log: seq<Op>, i: nat, j: nat)
    requires Trace(history, log) && i <= j < |history|
    ensures forall u | u in history[i].users :: u in history[j].users && history[j].users[u] == history[i].users[u]
    ensures forall d | d in history[i].drivers ::
              d in history[j].drivers
              && history[j].drivers[d] == history[i].drivers[d].(status := history[j].drivers[d].status)
    decreases j
  {
    if i < j {
      RowsPersist(history, log, i, j - 1);
      assert history[j] == Apply(history[j - 1], log[j - 1]);
    }
  }

  /** A user row is the one its creation wrote. */
  lemma {:induction false} NewUserWasCreated(history: seq<Tables>, log: seq<Op>, low: nat, high: nat, user: int)
    returns (j: nat)
    requires Trace(history, log) && low <= high < |history|
    requires user in history[high].users && user !in history[low].users
    ensures low <= j < high && log[j].CreateUser? && log[j].id == user
    ensures history[high].users[user] == User(log[j].login, log[j].password, log[j].fullName)
    decreases high
  {
    assert history[high] == Apply(history[high - 1], log[high - 1]);
    if user in history[high - 1].users {
      j := NewUserWasCreated(history, log, low, high - 1, user);
    } else {
      j := high - 1;
    }
  }

  lemma CreatedUserIsNew(history: seq<Tables>, log: seq<Op>, low: nat, j: nat, high: nat)
    requires Trace(history, log) && low <= j < high < |history| && log[j].CreateUser?
    ensures log[j].id !in history[low].users && log[j].id in history[high].users
    ensures history[high].users[log[j].id] == User(log[j].login, log[j].password, log[j].fullName)
  {
    assert Enabled(history[j], log[j]) && history[j + 1] == Apply(history[j], log[j]);
    RowsPersist(history, log, low, j);
    RowsPersist(history, log, j + 1, high);
  }

  // ---------- exclusion between an acceptance and its completion ----------

  predicate Completes(op: Op, ride: int) {
    op.CompleteRide? && op.ride == ride
  }

  /** Once accepted and until completed, the ride holds its driver busy. */
  lemma {:induction false} CarriedUntilCompleted(history: seq<Tables>, log: seq<Op>, i: nat, j: nat)
    requires Trace(history, log) && i < j <= |log| && log[i].AcceptRide?
    requires forall k | i < k < j :: !Completes(log[k], log[i].ride)
    ensures Carries(history[j], log[i].ride, log[i].driver)
    decreases j
  {
    assert Enabled(history[j - 1], log[j - 1]) && history[j] == Apply(history[j - 1], log[j - 1]);
    if i + 1 < j {
      CarriedUntilCompleted(history, log, i, j - 1);
      assert !Completes(log[j - 1], log[i].ride);
    }
  }

  /** A ride is accepted at most once; a driver accepts again only after completing what it carries. */
  lemma AcceptancesExclude(history: seq<Tables>, log: seq<Op>, i: nat, j: nat)
    requires Trace(history, log) && i < j < |log| && log[i].AcceptRide? && log[j].AcceptRide?
    ensures log[i].ride != log[j].ride
    ensures log[i].driver == log[j].driver ==> exists k :: i < k < j && Completes(log[k], log[i].ride)
  {
    assert history[i + 1] == Apply(history[i], log[i]);
    assert Enabled(history[j], log[j]);
    RideEvolves(history, log, i + 1, j, log[i].ride);
    if forall k | i < k < j :: !Completes(log[k], log[i].ride) {
      CarriedUntilCompleted(history, log, i, j);
      EveryVersionConsistent(history, log, j);
      assert DriverIs(history[j], log[i].driver, Busy);
    }
  }

  lemma CompletedAtMostOnce(history: seq<Tables>, log: seq<Op>, i: nat, j: nat)
    requires Trace(history, log) && i < j < |log| && log[i].CompleteRide? && log[j].CompleteRide?
    ensures log[i].ride != log[j].ride
  {
    assert history[i + 1] == Apply(history[i], log[i]);
    assert Enabled(history[j], log[j]);
    RideEvolves(history, log, i + 1, j, log[i].ride);
  }

  /** A ride names a driver only because that driver accepted it. */
  lemma {:induction false} NamedDriverAccepted(history: seq<Tables>, log: seq<Op>, j: nat, ride: int) returns (i: nat)
    requires Trace(history, log) && j < |history|
    requires ride in history[j].rides && history[j].rides[ride].driverId.Some?
    ensures i < j && log[i] == AcceptRide(ride, history[j].rides[ride].driverId.value)
    decreases j
  {
    var before, op := history[j - 1], log[j - 1];
    assert Enabled(before, op) && history[j] == Apply(before, op);
    if op.AcceptRide? && op.ride == ride {
      i := j - 1;
    } else {
      i := NamedDriverAccepted(history, log, j - 1, ride);
    }
  }

  /** A completion has one earlier acceptance, and frees exactly the driver of that acceptance. */
  lemma CompletionFreesItsDriver(history: seq<Tables>, log: seq<Op>, j: nat) returns (i: nat)
    requires Trace(history, log) && j < |log| && log[j].CompleteRide?
    ensures i < j && log[i].AcceptRide? && log[i].ride == log[j].ride
    ensures forall k | 0 <= k < |log| && log[k].AcceptRide? && log[k].ride == log[j].ride :: k == i
    ensures DriverIs(history[j], log[i].driver, Busy)
    ensures history[j + 1].drivers ==
            history[j].drivers[log[i].driver := history[j].drivers[log[i].driver].(status := Online)]
  {
    var db := history[j];
    assert Enabled(db, log[j]) && history[j + 1] == Apply(db, log[j]);
    EveryVersionConsistent(history, log, j);
    i := NamedDriverAccepted(history, log, j, log[j].ride);
    assert Carries(db, log[j].ride, log[i].driver);
    forall k | 0 <= k < |log| && log[k].AcceptRide? && log[k].ride == log[j].ride ensures k == i {
      if k < i {
        AcceptancesExclude(history, log, k, i);
      } else if i < k {
        AcceptancesExclude(history, log, i, k);
      }
    }
  }
}

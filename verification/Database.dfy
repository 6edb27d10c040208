/**
 The three tables and the statements that change them, each as one atomic operation.
 A row's identity column is the key of the map that holds it.
 */
module Database {
  import opened Basics

  datatype DriverStatus = Online | Busy | Offline

  datatype RideStatus = Searching | Accepted | Completed | Cancelled

  datatype User = User(login: string, password: string, fullName: string)

  datatype Driver = Driver(userId: int, carModel: string, carNumber: string, licenseNumber: string,
                           status: DriverStatus)

  datatype Ride = Ride(passengerId: int, driverId: Option<int>, pickup: string, destination: string,
                       status: RideStatus, createdAt: int, completedAt: Option<int>)

  datatype Tables = Tables(users: map<int, User>, drivers: map<int, Driver>, rides: map<int, Ride>)

  const EMPTY_TABLES := Tables(map[], map[], map[])

  /** A statement together with everything the server or the identity sequence supplies for it. */
  datatype Op =
    | CreateUser(id: int, login: string, password: string, fullName: string)
    | CreateDriver(id: int, userId: int, carModel: string, carNumber: string, licenseNumber: string)
    | CreateRide(id: int, passengerId: int, pickup: string, destination: string, at: int)
    | AcceptRide(ride: int, driver: int)
    | CompleteRide(ride: int, at: int)

  predicate HasStatus(db: Tables, ride: int, status: RideStatus) {
    ride in db.rides && db.rides[ride].status == status
  }

  predicate DriverIs(db: Tables, driver: int, status: DriverStatus) {
    driver in db.drivers && db.drivers[driver].status == status
  }

  /** `COALESCE(driver_id, 0)`; identity columns start at 1, so 0 names no driver. */
  function CoalescedDriver(ride: Ride): int {
    match ride.driverId
    case Some(d) => d
    case None => 0
  }

  function AcceptedRow(ride: Ride, driver: int): Ride {
    ride.(driverId := Some(driver), status := Accepted)
  }

  function CompletedRow(ride: Ride, at: int): Ride {
    ride.(status := Completed, completedAt := Some(at))
  }

  /** The statement changes a row: no constraint refuses it and its WHERE clauses match. */
  predicate Enabled(db: Tables, op: Op) {
    match op
    case CreateUser(id, login, _, _) =>
      id > 0 && id !in db.users && forall u | u in db.users :: db.users[u].login != login
    case CreateDriver(id, userId, _, carNumber, licenseNumber) =>
      && id > 0 && id !in db.drivers && userId in db.users
      && forall d | d in db.drivers ::
           && db.drivers[d].userId != userId
           && db.drivers[d].carNumber != carNumber
           && db.drivers[d].licenseNumber != licenseNumber
    case CreateRide(id, passengerId, _, _, _) =>
      id > 0 && id !in db.rides && passengerId in db.users
    case AcceptRide(ride, driver) =>
      DriverIs(db, driver, Online) && HasStatus(db, ride, Searching)
    case CompleteRide(ride, _) =>
      HasStatus(db, ride, Accepted)
  }

  function SetDriverStatus(drivers: map<int, Driver>, driver: int, status: DriverStatus): map<int, Driver> {
    if driver in drivers then drivers[driver := drivers[driver].(status := status)] else drivers
  }

  function Apply(db: Tables, op: Op): Tables
    requires Enabled(db, op)
  {
    match op
    case CreateUser(id, login, password, fullName) =>
      db.(users := db.users[id := User(login, password, fullName)])
    case CreateDriver(id, userId, carModel, carNumber, licenseNumber) =>
      db.(drivers := db.drivers[id := Driver(userId, carModel, carNumber, licenseNumber, Online)])
    case CreateRide(id, passengerId, pickup, destination, at) =>
      db.(rides := db.rides[id := Ride(passengerId, None, pickup, destination, Searching, at, None)])
    case AcceptRide(ride, driver) =>
      db.(drivers := SetDriverStatus(db.drivers, driver, Busy),
          rides := db.rides[ride := AcceptedRow(db.rides[ride], driver)])
    case CompleteRide(ride, at) =>
      db.(drivers := SetDriverStatus(db.drivers, CoalescedDriver(db.rides[ride]), Online),
          rides := db.rides[ride := CompletedRow(db.rides[ride], at)])
  }

  // ---------- the matching between accepted rides and busy drivers ----------

  /** Ride `ride` is under way with driver `driver`. */
  predicate Carries(db: Tables, ride: int, driver: int) {
    ride in db.rides && db.rides[ride].status.Accepted? && db.rides[ride].driverId == Some(driver)
  }

  /** Foreign keys hold, no row is offline or cancelled, and a ride names a driver once it left `searching`. */
  ghost predicate RowsWellFormed(db: Tables) {
    && (forall d | d in db.drivers ::
          d > 0 && !db.drivers[d].status.Offline? && db.drivers[d].userId in db.users)
    && (forall r | r in db.rides ::
          && !db.rides[r].status.Cancelled?
          && db.rides[r].passengerId in db.users
          && (db.rides[r].status.Searching? <==> db.rides[r].driverId.None?)
          && (db.rides[r].driverId.Some? ==> db.rides[r].driverId.value in db.drivers)
          && (db.rides[r].status.Completed? <==> db.rides[r].completedAt.Some?))
  }

  /** Accepted rides and busy drivers are in bijection through `driver_id`. */
  ghost predicate Matched(db: Tables) {
    && (forall r, d | Carries(db, r, d) :: DriverIs(db, d, Busy))
    && (forall r, q, d | Carries(db, r, d) && Carries(db, q, d) :: r == q)
    && (forall d | DriverIs(db, d, Busy) :: exists r :: Carries(db, r, d))
  }

  /** The UNIQUE columns of the schema. */
  ghost predicate UniqueColumns(db: Tables) {
    && (forall u, v | u in db.users && v in db.users && db.users[u].login == db.users[v].login :: u == v)
    && (forall d, e | d in db.drivers && e in db.drivers && d != e ::
          && db.drivers[d].userId != db.drivers[e].userId
          && db.drivers[d].carNumber != db.drivers[e].carNumber
          && db.drivers[d].licenseNumber != db.drivers[e].licenseNumber)
  }

  ghost predicate Consistent(db: Tables) {
    RowsWellFormed(db) && UniqueColumns(db) && Matched(db)
  }

  lemma ApplyKeepsRowsWellFormed(db: Tables, op: Op)
    requires RowsWellFormed(db) && Enabled(db, op)
    ensures RowsWellFormed(Apply(db, op))
  {
  }

  lemma ApplyKeepsUniqueColumns(db: Tables, op: Op)
    requires UniqueColumns(db) && Enabled(db, op)
    ensures UniqueColumns(Apply(db, op))
  {
  }

  lemma ApplyKeepsMatched(db: Tables, op: Op)
    requires Consistent(db) && Enabled(db, op)
    ensures Matched(Apply(db, op))
  {
    var db' := Apply(db, op);
    forall d | DriverIs(db', d, Busy) ensures exists r :: Carries(db', r, d) {
      if op.AcceptRide? && op.driver == d {
        assert Carries(db', op.ride, d);
      } else {
        assert DriverIs(db, d, Busy);
        var r :| Carries(db, r, d);
        assert Carries(db', r, d);
      }
    }
    forall r, d | Carries(db', r, d)
      ensures DriverIs(db', d, Busy)
      ensures !(op.AcceptRide? && op.ride == r) ==> Carries(db, r, d)
    {
      if !(op.AcceptRide? && op.ride == r) {
        assert Carries(db, r, d);
        if op.CompleteRide? {
          assert Carries(db, op.ride, CoalescedDriver(db.rides[op.ride]));
        }
      }
    }
    forall r, q, d | Carries(db', r, d) && Carries(db', q, d) ensures r == q {
      if op.AcceptRide? && (op.ride == r || op.ride == q) {
        assert DriverIs(db, op.driver, Online);
      }
    }
  }

  lemma ApplyKeepsConsistent(db: Tables, op: Op)
    requires Consistent(db) && Enabled(db, op)
    ensures Consistent(Apply(db, op))
  {
    ApplyKeepsRowsWellFormed(db, op);
    ApplyKeepsUniqueColumns(db, op);
    ApplyKeepsMatched(db, op);
  }

  /**
   The matching must hold of the rows one starts from: an online driver that already carries a ride, as in the seed
   rows of data.sql, can accept a second one.
   */
  lemma OnlineCarrierAcceptsAgain(db: Tables, ride: int, other: int, driver: int)
    requires Carries(db, ride, driver) && DriverIs(db, driver, Online) && HasStatus(db, other, Searching)
    ensures Enabled(db, AcceptRide(other, driver)) && ride != other
    ensures Carries(Apply(db, AcceptRide(other, driver)), ride, driver)
    ensures Carries(Apply(db, AcceptRide(other, driver)), other, driver)
    ensures !Matched(Apply(db, AcceptRide(other, driver)))
  {
    var after := Apply(db, AcceptRide(other, driver));
    assert Carries(after, ride, driver) && Carries(after, other, driver);
  }

  // ---------- conservation ----------

  function BusyDrivers(db: Tables): set<int> {
    set d | d in db.drivers && db.drivers[d].status.Busy?
  }

  function RidesWith(db: Tables, status: RideStatus): set<int> {
    set r | r in db.rides && db.rides[r].status == status
  }

  /** Equally many rides and drivers, when every ride names its own driver and no driver is left over. */
  lemma {:induction false} BijectionCounts(rides: set<int>, drivers: set<int>, f: map<int, int>)
    requires f.Keys == rides
    requires forall r | r in rides :: f[r] in drivers
    requires forall r, q | r in rides && q in rides && f[r] == f[q] :: r == q
    requires forall d | d in drivers :: exists r :: r in rides && f[r] == d
    ensures |rides| == |drivers|
    decreases rides
  {
    if rides == {} {
      var d := if drivers == {} then 0 else Pick(drivers);
      assert d !in drivers;
    } else {
      var r := Pick(rides);
      var smaller := f - {r};
      forall d | d in drivers - {f[r]} ensures exists q :: q in rides - {r} && smaller[q] == d {
        var q :| q in rides && f[q] == d;
        assert q in rides - {r} && smaller[q] == d;
      }
      BijectionCounts(rides - {r}, drivers - {f[r]}, smaller);
    }
  }

  lemma BusyMatchesAccepted(db: Tables)
    requires Consistent(db)
    ensures |BusyDrivers(db)| == |RidesWith(db, Accepted)|
  {
    var accepted := RidesWith(db, Accepted);
    var f := map r | r in accepted :: CoalescedDriver(db.rides[r]);
    forall r | r in accepted ensures Carries(db, r, f[r]) && f[r] in BusyDrivers(db) {
      assert Carries(db, r, f[r]);
    }
    forall r, q | r in accepted && q in accepted && f[r] == f[q] ensures r == q {
      assert Carries(db, r, f[r]) && Carries(db, q, f[r]);
    }
    forall d | d in BusyDrivers(db) ensures exists r :: r in accepted && f[r] == d {
      assert DriverIs(db, d, Busy);
      var r :| Carries(db, r, d);
      assert r in accepted && f[r] == d;
    }
    BijectionCounts(accepted, BusyDrivers(db), f);
  }

  lemma StatusesPartitionRides(db: Tables)
    requires RowsWellFormed(db)
    ensures |db.rides| == |RidesWith(db, Searching)| + |RidesWith(db, Accepted)| + |RidesWith(db, Completed)|
    ensures RidesWith(db, Cancelled) == {}
  {
    var searching, accepted, completed :=
      RidesWith(db, Searching), RidesWith(db, Accepted), RidesWith(db, Completed);
    forall r | r in db.rides ensures r in searching || r in accepted || r in completed {
      assert !db.rides[r].status.Cancelled?;
    }
    assert db.rides.Keys == searching + accepted + completed;
    assert |searching + accepted| == |searching| + |accepted|;
    assert |searching + accepted + completed| == |searching + accepted| + |completed|;
    assert |db.rides| == |db.rides.Keys|;
  }
}

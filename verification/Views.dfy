/** What the read queries mean for a whole run: which earlier writes decide that a row is listed. */
module Views {
  import opened Basics
  import opened Database
  import opened History
  import opened Queries

  predicate CreatesRide(op: Op, ride: int) {
    op.CreateRide? && op.id == ride
  }

  predicate CreatesUser(op: Op, login: string) {
    op.CreateUser? && op.login == login
  }

  /** A ride exists from its creation on. */
  lemma {:induction false} RideFromLog(history: seq<Tables>, log: seq<Op>, i: nat, ride: int)
    requires Trace(history, log) && i < |history|
    ensures ride in history[i].rides <==> exists c :: 0 <= c < i && CreatesRide(log[c], ride)
  {
    if i > 0 {
      RideFromLog(history, log, i - 1, ride);
      assert history[i] == Apply(history[i - 1], log[i - 1]);
      assert ride in history[i].rides <==> ride in history[i - 1].rides || CreatesRide(log[i - 1], ride);
    }
  }

  /** It belongs to the passenger that created it. */
  lemma PassengerFromLog(history: seq<Tables>, log: seq<Op>, i: nat, c: nat, ride: int)
    requires Trace(history, log) && c < i < |history| && CreatesRide(log[c], ride)
    ensures ride in history[i].rides && history[i].rides[ride].passengerId == log[c].passengerId
  {
    assert history[c + 1] == Apply(history[c], log[c]);
    RideEvolves(history, log, c + 1, i, ride);
  }

  lemma OneOpCompletes(db: Tables, op: Op, ride: int)
    requires Enabled(db, op)
    ensures HasStatus(Apply(db, op), ride, Completed) <==> HasStatus(db, ride, Completed) || Completes(op, ride)
  {
  }

  /** It is completed from its completion on. */
  lemma {:induction false} CompletionFromLog(history: seq<Tables>, log: seq<Op>, i: nat, ride: int)
    requires Trace(history, log) && i < |history|
    ensures HasStatus(history[i], ride, Completed) <==> exists k :: 0 <= k < i && Completes(log[k], ride)
  {
    if i > 0 {
      CompletionFromLog(history, log, i - 1, ride);
      assert history[i] == Apply(history[i - 1], log[i - 1]);
      OneOpCompletes(history[i - 1], log[i - 1], ride);
    }
  }

  /** `status=active` lists exactly the rides that were created and not yet completed. */
  lemma ActiveMeansUnfinished(history: seq<Tables>, log: seq<Op>, i: nat, ride: int)
    requires Trace(history, log) && i < |history|
    ensures ride in SelectActive(history[i].rides) <==>
              && (exists c :: 0 <= c < i && CreatesRide(log[c], ride))
              && !(exists k :: 0 <= k < i && Completes(log[k], ride))
  {
    RideFromLog(history, log, i, ride);
    CompletionFromLog(history, log, i, ride);
    EveryVersionConsistent(history, log, i);
  }

  /** A passenger's history lists exactly the rides that passenger created. */
  lemma HistoryMeansCreated(history: seq<Tables>, log: seq<Op>, i: nat, ride: int, passenger: int)
    requires Trace(history, log) && i < |history|
    ensures ride in SelectByPassenger(history[i].rides, passenger) <==>
              exists c :: 0 <= c < i && CreatesRide(log[c], ride) && log[c].passengerId == passenger
  {
    RideFromLog(history, log, i, ride);
    forall c | 0 <= c < i && CreatesRide(log[c], ride)
      ensures ride in history[i].rides && history[i].rides[ride].passengerId == log[c].passengerId
    {
      PassengerFromLog(history, log, i, c, ride);
    }
  }

  predicate HasLogin(db: Tables, login: string) {
    exists u | u in db.users :: db.users[u].login == login
  }

  lemma OneOpAddsLogin(db: Tables, op: Op, login: string)
    requires Enabled(db, op)
    ensures HasLogin(Apply(db, op), login) <==> HasLogin(db, login) || CreatesUser(op, login)
  {
    var after := Apply(db, op);
    if CreatesUser(op, login) {
      assert op.id in after.users && after.users[op.id].login == login;
    }
    if u :| u in db.users && db.users[u].login == login {
      assert u in after.users && after.users[u].login == login;
    }
  }

  lemma {:induction false} LoginFromLog(history: seq<Tables>, log: seq<Op>, i: nat, login: string)
    requires Trace(history, log) && i < |history|
    ensures HasLogin(history[i], login) <==> exists c :: 0 <= c < i && CreatesUser(log[c], login)
  {
    if i > 0 {
      LoginFromLog(history, log, i - 1, login);
      assert history[i] == Apply(history[i - 1], log[i - 1]);
      OneOpAddsLogin(history[i - 1], log[i - 1], login);
    }
  }

  lemma AtMostOneRow(rows: map<int, UserView>)
    requires forall u, v | u in rows && v in rows :: u == v
    ensures |rows| <= 1
  {
    if rows.Keys != {} {
      var u := Pick(rows.Keys);
      forall v | v in rows.Keys ensures v in {u} {
      }
      assert rows.Keys <= {u};
      assert rows.Keys == {u};
    }
    assert |rows| == |rows.Keys|;
  }

  lemma SomeRow(rows: map<int, UserView>) returns (u: int)
    requires rows != map[]
    ensures u in rows
  {
    assert rows.Keys != {};
    u := Pick(rows.Keys);
  }

  /** A login is found exactly when some user was created with it, and then one user is found. */
  lemma LoginFindsOneUser(history: seq<Tables>, log: seq<Op>, i: nat, login: string, like: Like)
    requires Trace(history, log) && i < |history|
    ensures Fresh(UserWithLogin(login), history[i], like) == Missing
            <==> !exists c :: 0 <= c < i && CreatesUser(log[c], login)
    ensures |SelectByLogin(history[i].users, login)| <= 1
  {
    LoginFromLog(history, log, i, login);
    EveryVersionConsistent(history, log, i);
    var rows := SelectByLogin(history[i].users, login);
    AtMostOneRow(rows);
    if rows != map[] {
      var u := SomeRow(rows);
      assert u in history[i].users && history[i].users[u].login == login;
    } else {
      assert forall u | u in history[i].users && history[i].users[u].login == login :: u in rows;
    }
  }

  // ---------- the columns of a listed row ----------

  /** The ride's row as the log tells it: who ordered what and when, who accepted it, when it was completed. */
  ghost predicate RowTold(log: seq<Op>, i: nat, ride: int, row: Ride)
    requires i <= |log|
  {
    && (exists c :: 0 <= c < i
                    && log[c] == CreateRide(ride, row.passengerId, row.pickup, row.destination, row.createdAt))
    && (forall driver :: row.driverId == Some(driver) <==> exists a :: 0 <= a < i && log[a] == AcceptRide(ride, driver))
    && (forall at :: row.completedAt == Some(at) <==> exists k :: 0 <= k < i && log[k] == CompleteRide(ride, at))
    && (row.status == if row.completedAt.Some? then Completed else if row.driverId.Some? then Accepted else Searching)
  }

  /** What one operation does to a row's driver and completion. */
  lemma OneOpOnRow(db: Tables, op: Op, ride: int)
    requires RowsWellFormed(db) && Enabled(db, op) && ride in db.rides
    ensures ride in Apply(db, op).rides
    ensures var row, next := db.rides[ride], Apply(db, op).rides[ride];
            && next.passengerId == row.passengerId && next.pickup == row.pickup
            && next.destination == row.destination && next.createdAt == row.createdAt
            && next.driverId == (if op.AcceptRide? && op.ride == ride then Some(op.driver) else row.driverId)
            && next.completedAt == (if op.CompleteRide? && op.ride == ride then Some(op.at) else row.completedAt)
            && (op.AcceptRide? && op.ride == ride ==> row.driverId.None? && row.completedAt.None?)
            && (op.CompleteRide? && op.ride == ride ==> row.driverId.Some? && row.completedAt.None?)
            && next.status == if next.completedAt.Some? then Completed
                              else if next.driverId.Some? then Accepted else Searching
  {
  }

  /** One more operation on a row that was told so far. */
  lemma NextRowTold(history: seq<Tables>, log: seq<Op>, i: nat, ride: int)
    requires Trace(history, log) && i < |log| && ride in history[i].rides
    requires RowTold(log, i, ride, history[i].rides[ride])
    ensures ride in history[i + 1].rides && RowTold(log, i + 1, ride, history[i + 1].rides[ride])
  {
    EveryVersionConsistent(history, log, i);
    OneOpOnRow(history[i], log[i], ride);
    OneOpTold(log, i, ride, history[i].rides[ride], history[i + 1].rides[ride]);
  }

  lemma OneOpTold(log: seq<Op>, i: nat, ride: int, row: Ride, next: Ride)
    requires i < |log| && RowTold(log, i, ride, row)
    requires && next.passengerId == row.passengerId && next.pickup == row.pickup
             && next.destination == row.destination && next.createdAt == row.createdAt
    requires var op := log[i];
             && next.driverId == (if op.AcceptRide? && op.ride == ride then Some(op.driver) else row.driverId)
             && next.completedAt == (if op.CompleteRide? && op.ride == ride then Some(op.at) else row.completedAt)
             && (op.AcceptRide? && op.ride == ride ==> row.driverId.None?)
             && (op.CompleteRide? && op.ride == ride ==> row.completedAt.None?)
    requires next.status == if next.completedAt.Some? then Completed
                            else if next.driverId.Some? then Accepted else Searching
    ensures RowTold(log, i + 1, ride, next)
  {
    var op := log[i];
    var c :| 0 <= c < i && log[c] == CreateRide(ride, row.passengerId, row.pickup, row.destination, row.createdAt);
    assert log[c] == CreateRide(ride, next.passengerId, next.pickup, next.destination, next.createdAt);
    forall driver
      ensures next.driverId == Some(driver) <==> exists a :: 0 <= a < i + 1 && log[a] == AcceptRide(ride, driver)
    {
      if op.AcceptRide? && op.ride == ride && driver == op.driver {
        assert log[i] == AcceptRide(ride, driver);
      }
    }
    forall at
      ensures next.completedAt == Some(at) <==> exists k :: 0 <= k < i + 1 && log[k] == CompleteRide(ride, at)
    {
      if op.CompleteRide? && op.ride == ride && at == op.at {
        assert log[i] == CompleteRide(ride, at);
      }
    }
  }

  lemma NothingBeforeCreation(history: seq<Tables>, log: seq<Op>, i: nat, j: nat, ride: int)
    requires Trace(history, log) && j < i < |history| && ride !in history[i].rides
    ensures !(log[j].AcceptRide? && log[j].ride == ride) && !(log[j].CompleteRide? && log[j].ride == ride)
  {
    assert Enabled(history[j], log[j]);
    if ride in history[j].rides {
      RideEvolves(history, log, j, i, ride);
    }
  }

  lemma NewRowTold(history: seq<Tables>, log: seq<Op>, i: nat, ride: int)
    requires Trace(history, log) && i < |log| && ride !in history[i].rides && ride in history[i + 1].rides
    ensures RowTold(log, i + 1, ride, history[i + 1].rides[ride])
  {
    var op, row := log[i], history[i + 1].rides[ride];
    assert Enabled(history[i], op) && history[i + 1] == Apply(history[i], op);
    assert log[i] == CreateRide(ride, row.passengerId, row.pickup, row.destination, row.createdAt);
    forall j | 0 <= j < i + 1
      ensures !(log[j].AcceptRide? && log[j].ride == ride) && !(log[j].CompleteRide? && log[j].ride == ride)
    {
      if j < i {
        NothingBeforeCreation(history, log, i, j, ride);
      }
    }
  }

  /** In every version, every ride's row is what the log tells. */
  lemma {:induction false} RowFromLog(history: seq<Tables>, log: seq<Op>, i: nat, ride: int)
    requires Trace(history, log) && i < |history| && ride in history[i].rides
    ensures RowTold(log, i, ride, history[i].rides[ride])
    decreases i
  {
    if ride in history[i - 1].rides {
      RowFromLog(history, log, i - 1, ride);
      NextRowTold(history, log, i - 1, ride);
    } else {
      NewRowTold(history, log, i - 1, ride);
    }
  }

  predicate AcceptedBy(log: seq<Op>, i: nat, ride: int, driver: int) {
    exists a :: 0 <= a < i <= |log| && log[a] == AcceptRide(ride, driver)
  }

  predicate CompletedBy(log: seq<Op>, i: nat, ride: int) {
    exists k :: 0 <= k < i <= |log| && Completes(log[k], ride)
  }

  /** What a client is shown of a ride, as the log tells it. */
  ghost predicate ShownAsLogged(log: seq<Op>, i: nat, ride: int, view: RideView)
    requires i <= |log|
  {
    && (exists c :: 0 <= c < i && CreatesRide(log[c], ride)
                    && view.passengerId == log[c].passengerId
                    && view.pickup == log[c].pickup && view.destination == log[c].destination)
    && (if exists driver :: AcceptedBy(log, i, ride, driver) then AcceptedBy(log, i, ride, view.driverId)
        else view.driverId == 0)
    && (view.status == if CompletedBy(log, i, ride) then Completed
                       else if exists driver :: AcceptedBy(log, i, ride, driver) then Accepted else Searching)
  }

  lemma ToldRowIsShown(log: seq<Op>, i: nat, ride: int, row: Ride)
    requires i <= |log| && RowTold(log, i, ride, row)
    ensures ShownAsLogged(log, i, ride, ShowRide(row))
  {
    var c :| 0 <= c < i
             && log[c] == CreateRide(ride, row.passengerId, row.pickup, row.destination, row.createdAt);
    assert CreatesRide(log[c], ride);
    forall driver ensures AcceptedBy(log, i, ride, driver) <==> row.driverId == Some(driver) {
    }
    if CompletedBy(log, i, ride) {
      var k :| 0 <= k < i && Completes(log[k], ride);
      assert log[k] == CompleteRide(ride, log[k].at);
    }
    if row.completedAt.Some? {
      var k :| 0 <= k < i && log[k] == CompleteRide(ride, row.completedAt.value);
      assert Completes(log[k], ride);
    }
  }

  /** Each listed ride is shown with the columns of its creation, the driver of its acceptance, and its status. */
  lemma ListedRidesAreLogged(history: seq<Tables>, log: seq<Op>, i: nat, ride: int, passenger: int)
    requires Trace(history, log) && i < |history|
    ensures var rows := SelectActive(history[i].rides);
            ride in rows ==> ShownAsLogged(log, i, ride, rows[ride])
    ensures var rows := SelectByPassenger(history[i].rides, passenger);
            ride in rows ==> ShownAsLogged(log, i, ride, rows[ride])
  {
    if ride in history[i].rides {
      RowFromLog(history, log, i, ride);
      ToldRowIsShown(log, i, ride, history[i].rides[ride]);
    }
  }

  /** The creation of the user with this id. */
  predicate CreatesId(op: Op, user: int) {
    op.CreateUser? && op.id == user
  }

  /** A mask lists exactly the users created with a matching name, each with the login and name of its creation. */
  lemma MaskListsMatchingUsers(history: seq<Tables>, log: seq<Op>, i: nat, mask: string, like: Like, user: int)
    requires Trace(history, log) && i < |history|
    ensures var rows := SelectByMask(history[i].users, mask, like);
            && (user in rows <==>
                exists c :: 0 <= c < i && CreatesId(log[c], user) && like(log[c].fullName, mask))
            && forall c | 0 <= c < i && CreatesId(log[c], user) && user in rows ::
                 rows[user] == UserView(log[c].login, log[c].fullName)
  {
    UserFromLog(history, log, i, user);
  }

  /** A login lists exactly the user created with it, with the login and name of its creation. */
  lemma LoginListsItsUser(history: seq<Tables>, log: seq<Op>, i: nat, login: string, user: int)
    requires Trace(history, log) && i < |history|
    ensures var rows := SelectByLogin(history[i].users, login);
            && (user in rows <==> exists c :: 0 <= c < i && CreatesId(log[c], user) && log[c].login == login)
            && forall c | 0 <= c < i && CreatesId(log[c], user) && user in rows ::
                 rows[user] == UserView(login, log[c].fullName)
  {
    UserFromLog(history, log, i, user);
  }

  lemma UserFromLog(history: seq<Tables>, log: seq<Op>, i: nat, user: int)
    requires Trace(history, log) && i < |history|
    ensures user in history[i].users <==> exists c :: 0 <= c < i && CreatesId(log[c], user)
    ensures forall c | 0 <= c < i && CreatesId(log[c], user) ::
              && user in history[i].users
              && history[i].users[user] == User(log[c].login, log[c].password, log[c].fullName)
  {
    forall c | 0 <= c < i && CreatesId(log[c], user)
      ensures user in history[i].users
      ensures history[i].users[user] == User(log[c].login, log[c].password, log[c].fullName)
    {
      CreatedUserIsNew(history, log, 0, c, i);
    }
    if user in history[i].users {
      var c := NewUserWasCreated(history, log, 0, i, user);
      assert CreatesId(log[c], user);
    }
  }
}

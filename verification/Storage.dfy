/** The storage component run by one thread at a time: the tables behind it and the token table it keeps itself. */
module Storage {
  import opened Basics
  import opened Strings
  import opened Database
  import opened Tokens

  class TaxiStorage {
    var users: map<int, User>
    var drivers: map<int, Driver>
    var rides: map<int, Ride>
    var nextTokenId: int
    var tokens: map<string, int>
    /** The users that logged in, in order. */
    ghost var issued: seq<int>

    ghost function Db(): Tables
      reads this
    {
      Tables(users, drivers, rides)
    }

    ghost predicate Valid()
      reads this
    {
      tokens == TableAfter(issued) && nextTokenId == |issued| + 1
    }

    constructor ()
      ensures Valid() && Db() == EMPTY_TABLES && issued == []
    {
      users, drivers, rides := map[], map[], map[];
      nextTokenId, tokens, issued := 1, map[], [];
    }

    // `id` and `now` are what the identity sequence and the database clock supply.

    method CreateUser(id: int, login: string, password: string, fullName: string) returns (created: Option<User>)
      modifies this`users
      ensures var op := Op.CreateUser(id, login, password, fullName);
              && created == (if Enabled(old(Db()), op) then Some(User(login, password, fullName)) else None)
              && Db() == (if Enabled(old(Db()), op) then Apply(old(Db()), op) else old(Db()))
      ensures created.Some? <==>
                id > 0 && id !in old(users) && forall u | u in old(users) :: old(users)[u].login != login
      ensures created.Some? ==>
                created.value == User(login, password, fullName) && users == old(users)[id := created.value]
      ensures created.None? ==> users == old(users)
    {
      if id <= 0 || id in users || exists u | u in users :: users[u].login == login {
        return None;
      }
      var row := User(login, password, fullName);
      users := users[id := row];
      return Some(row);
    }

    method CreateDriver(id: int, userId: int, carModel: string, carNumber: string, licenseNumber: string)
      returns (created: Option<Driver>)
      modifies this`drivers
      ensures var op := Op.CreateDriver(id, userId, carModel, carNumber, licenseNumber);
              && created == (if Enabled(old(Db()), op)
                             then Some(Driver(userId, carModel, carNumber, licenseNumber, Online)) else None)
              && Db() == (if Enabled(old(Db()), op) then Apply(old(Db()), op) else old(Db()))
      ensures created.Some? <==>
                && id > 0 && id !in old(drivers) && userId in users
                && (forall d | d in old(drivers) :: old(drivers)[d].userId != userId)
                && (forall d | d in old(drivers) :: old(drivers)[d].carNumber != carNumber)
                && (forall d | d in old(drivers) :: old(drivers)[d].licenseNumber != licenseNumber)
      ensures created.Some? ==>
                && created.value == Driver(userId, carModel, carNumber, licenseNumber, Online)
                && drivers == old(drivers)[id := created.value]
      ensures created.None? ==> drivers == old(drivers)
    {
      var clash := exists d | d in drivers ::
          drivers[d].userId == userId || drivers[d].carNumber == carNumber || drivers[d].licenseNumber == licenseNumber;
      if id <= 0 || id in drivers || userId !in users || clash {
        return None;
      }
      var row := Driver(userId, carModel, carNumber, licenseNumber, Online);
      drivers := drivers[id := row];
      return Some(row);
    }

    method CreateRide(id: int, passengerId: int, pickup: string, destination: string, now: int)
      returns (created: Option<Ride>)
      modifies this`rides
      ensures var op := Op.CreateRide(id, passengerId, pickup, destination, now);
              && created == (if Enabled(old(Db()), op)
                             then Some(Ride(passengerId, None, pickup, destination, Searching, now, None)) else None)
              && Db() == (if Enabled(old(Db()), op) then Apply(old(Db()), op) else old(Db()))
      ensures created.Some? <==> id > 0 && id !in old(rides) && passengerId in users
      ensures created.Some? ==>
                && created.value == Ride(passengerId, None, pickup, destination, Searching, now, None)
                && rides == old(rides)[id := created.value]
      ensures created.None? ==> rides == old(rides)
    {
      if id <= 0 || id in rides || passengerId !in users {
        return None;
      }
      var row := Ride(passengerId, None, pickup, destination, Searching, now, None);
      rides := rides[id := row];
      return Some(row);
    }

    /** The driver may already be busy when the ride update matches nothing; only the rollback undoes it. */
    method AcceptRide(ride: int, driver: int) returns (accepted: Option<Ride>)
      modifies this`drivers, this`rides
      ensures var op := Op.AcceptRide(ride, driver);
              && accepted == (if Enabled(old(Db()), op) then Some(Apply(old(Db()), op).rides[ride]) else None)
              && Db() == (if Enabled(old(Db()), op) then Apply(old(Db()), op) else old(Db()))
      ensures accepted.Some? <==>
                && driver in old(drivers) && old(drivers)[driver].status == Online
                && ride in old(rides) && old(rides)[ride].status == Searching
      ensures accepted.Some? ==>
                && accepted.value == old(rides)[ride].(driverId := Some(driver), status := Accepted)
                && rides == old(rides)[ride := accepted.value]
                && drivers == old(drivers)[driver := old(drivers)[driver].(status := Busy)]
      ensures accepted.None? ==> rides == old(rides) && drivers == old(drivers)
    {
      var driversAtBegin, ridesAtBegin := drivers, rides;
      var updatedDriver := driver in drivers && drivers[driver].status.Online?;
      if updatedDriver {
        drivers := drivers[driver := drivers[driver].(status := Busy)];
      }
      accepted := None;
      if updatedDriver && ride in rides && rides[ride].status.Searching? {
        rides := rides[ride := rides[ride].(driverId := Some(driver), status := Accepted)];
        accepted := Some(rides[ride]);
      }
      if accepted.None? {
        drivers, rides := driversAtBegin, ridesAtBegin;
      }
    }

    method CompleteRide(ride: int, now: int) returns (completed: Option<Ride>)
      modifies this`drivers, this`rides
      ensures var op := Op.CompleteRide(ride, now);
              && completed == (if Enabled(old(Db()), op) then Some(Apply(old(Db()), op).rides[ride]) else None)
              && Db() == (if Enabled(old(Db()), op) then Apply(old(Db()), op) else old(Db()))
      ensures completed.Some? <==> ride in old(rides) && old(rides)[ride].status == Accepted
      ensures completed.Some? ==>
                && completed.value == old(rides)[ride].(status := Completed, completedAt := Some(now))
                && rides == old(rides)[ride := completed.value]
                && var driver := if completed.value.driverId.Some? then completed.value.driverId.value else 0;
                   drivers == if driver in old(drivers)
                              then old(drivers)[driver := old(drivers)[driver].(status := Online)] else old(drivers)
      ensures completed.None? ==> rides == old(rides) && drivers == old(drivers)
    {
      if ride !in rides || !rides[ride].status.Accepted? {
        return None;
      }
      rides := rides[ride := rides[ride].(status := Completed, completedAt := Some(now))];
      var driver := CoalescedDriver(rides[ride]);
      if driver in drivers {
        drivers := drivers[driver := drivers[driver].(status := Online)];
      }
      return Some(rides[ride]);
    }

    // ---------- tokens ----------

    /** `next_token_id_` is an `int`; incrementing past its maximum is undefined. */
    method Login(login: string, password: string) returns (token: Option<string>)
      requires Valid() && UniqueColumns(Db()) && nextTokenId < INT_MAX
      modifies this`nextTokenId, this`tokens, this`issued
      ensures Valid()
      ensures token.Some? <==> exists u :: u in users && users[u].login == login && users[u].password == password
      ensures token.None? ==> tokens == old(tokens) && issued == old(issued)
      ensures token.Some? ==> exists u :: u in users && users[u].login == login
                                          && token == Some("token-" + IntText(u) + "-" + IntText(|old(issued)| + 1))
                                          && issued == old(issued) + [u]
                                          && tokens == old(tokens)[token.value := u]
    {
      if !(exists u | u in users :: users[u].login == login) {
        return None;
      }
      var user :| user in users && users[user].login == login;
      if users[user].password != password {
        return None;
      }
      var text := MakeToken(user, nextTokenId);
      nextTokenId := nextTokenId + 1;
      tokens := tokens[text := user];
      assert tokens == TableAfter(issued + [user]) by {
        LoginExtendsTable(issued, user);
      }
      issued := issued + [user];
      assert user in users && users[user].login == login && users[user].password == password;
      return Some(text);
    }

    method IsTokenValid(token: string) returns (valid: bool)
      requires Valid()
      ensures valid <==> token in TokensOf(issued)
    {
      TokensAreForever(issued);
      return token in tokens;
    }
  }
}

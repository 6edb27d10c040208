/**
 The cached read queries: what each selects and shows, under which key its answer is cached and for how long, and
 which writes can change it. A body is the shown rows by id; their order and the JSON text are functions of the rows.
 */
module Queries {
  import opened Strings
  import opened Database

  /** Whether a full name contains a mask, by the rules of SQL `LIKE` and `lower`. */
  type Like = (string, string) -> bool

  datatype Query =
    | ActiveRides
    | RidesOf(userArg: string)
    | UserWithLogin(login: string)
    | UsersMatching(mask: string)

  /** What a client sees of a row, besides its id; the driver of a ride without one is shown as 0. */
  datatype RideView = RideView(passengerId: int, driverId: int, pickup: string, destination: string,
                               status: RideStatus)

  datatype UserView = UserView(login: string, fullName: string)

  datatype Body =
    | RideList(rides: map<int, RideView>)
    | OneUser(user: map<int, UserView>)
    | UserList(users: map<int, UserView>)

  function ShowRide(ride: Ride): RideView {
    RideView(ride.passengerId, CoalescedDriver(ride), ride.pickup, ride.destination, ride.status)
  }

  function ShowUser(user: User): UserView {
    UserView(user.login, user.fullName)
  }

  /** `Fault`: the handler throws before it reaches the database. */
  datatype Answer = Found(body: Body) | Missing | Fault

  function CacheKey(q: Query): string {
    match q
    case ActiveRides => "rides:active"
    case RidesOf(userArg) => "rides:history:" + userArg
    case UserWithLogin(login) => "users:login:" + login
    case UsersMatching(mask) => "users:name_mask:" + mask
  }

  function Ttl(q: Query): int {
    if q.ActiveRides? then 15 else 60
  }

  function SelectActive(rides: map<int, Ride>): map<int, RideView> {
    map r | r in rides && (rides[r].status.Searching? || rides[r].status.Accepted?) :: ShowRide(rides[r])
  }

  function SelectByPassenger(rides: map<int, Ride>, passenger: int): map<int, RideView> {
    map r | r in rides && rides[r].passengerId == passenger :: ShowRide(rides[r])
  }

  function SelectByLogin(users: map<int, User>, login: string): map<int, UserView> {
    map u | u in users && users[u].login == login :: ShowUser(users[u])
  }

  function SelectByMask(users: map<int, User>, mask: string, like: Like): map<int, UserView> {
    map u | u in users && like(users[u].fullName, mask) :: ShowUser(users[u])
  }

  /** The uncached answer. */
  function Fresh(q: Query, db: Tables, like: Like): Answer {
    match q
    case ActiveRides => Found(RideList(SelectActive(db.rides)))
    case RidesOf(userArg) =>
      (match Stoi(userArg)
       case None => Fault
       case Some(user) => Found(RideList(SelectByPassenger(db.rides, user))))
    case UserWithLogin(login) =>
      var rows := SelectByLogin(db.users, login);
      if rows == map[] then Missing else Found(OneUser(rows))
    case UsersMatching(mask) => Found(UserList(SelectByMask(db.users, mask, like)))
  }

  /** The prefix a successful write invalidates. */
  function InvalidatedBy(op: Op): string {
    match op
    case CreateUser(_, _, _, _) => "users:"
    case CreateDriver(_, _, _, _, _) => "drivers:"
    case _ => "rides:"
  }

  lemma KeysAreDistinct(p: Query, q: Query)
    requires CacheKey(p) == CacheKey(q)
    ensures p == q
  {
    var a, b := CacheKey(p), CacheKey(q);
    assert a[0] == b[0] && a[6] == b[6];
    match p
    case ActiveRides =>
    case RidesOf(userArg) => assert a[14..] == userArg && b[14..] == q.userArg;
    case UserWithLogin(login) => assert a[12..] == login && b[12..] == q.login;
    case UsersMatching(mask) => assert a[16..] == mask && b[16..] == q.mask;
  }

  predicate OnRides(q: Query) {
    q.ActiveRides? || q.RidesOf?
  }

  lemma PrefixesCoverKeys(q: Query)
    ensures StartsWith(CacheKey(q), "rides:") <==> OnRides(q)
    ensures StartsWith(CacheKey(q), "users:") <==> !OnRides(q)
    ensures !StartsWith(CacheKey(q), "drivers:")
  {
    var key := CacheKey(q);
    StartsWithIsPrefix(key, "rides:");
    StartsWithIsPrefix(key, "users:");
    StartsWithIsPrefix(key, "drivers:");
    assert key[..6] == if OnRides(q) then "rides:" else "users:";
    assert key[0] != 'd';
  }

  /** A write changes no cached query outside the prefix it invalidates. */
  lemma WritesStayInTheirPrefix(q: Query, db: Tables, op: Op, like: Like)
    requires Enabled(db, op) && !StartsWith(CacheKey(q), InvalidatedBy(op))
    ensures Fresh(q, Apply(db, op), like) == Fresh(q, db, like)
  {
    PrefixesCoverKeys(q);
  }
}

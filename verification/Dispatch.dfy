/**
 Accepting and completing rides while any number of transactions are in flight.

 A transaction runs one statement at the Read Committed level of PostgreSQL: it takes a snapshot of the
 committed version, picks its candidate rows there, then locks them one at a time, rechecks each on its newest
 committed version (section 13.2.1 of the PostgreSQL manual), writes new row versions only it can see, and finally
 commits or rolls back. Accepting goes driver first, ride second; completing goes ride first, driver second.
 Sub-statements of one WITH share the snapshot and speak only through RETURNING (section 7.8.4).
 */
module Dispatch {
  import opened Basics
  import opened Database
  import opened History

  type TxId = nat

  datatype Row = DriverRow(driver: int) | RideRow(ride: int)

  datatype Request = Accept(ride: int, driver: int) | Complete(ride: int, at: int)

  datatype Phase =
    | Begun                                  // no snapshot yet
    | First                                  // about to lock the first candidate row
    | Second                                 // first row rewritten, about to lock the second
    | Returned                               // the statement returned a row
    | NoRow                                  // the statement returned nothing
    | Committed(index: nat, row: Ride)       // the log index of its effect and the ride handed to the client
    | RolledBack(version: nat)               // the committed version when it gave up

  /** `drivers` and `rides` are row versions written but not committed; `locks` are the row locks held. */
  datatype Tx = Tx(request: Request, begunAt: nat, phase: Phase, snapshot: nat,
                   locks: set<Row>, drivers: map<int, Driver>, rides: map<int, Ride>)

  /** `owners[i]` is the transaction whose commit is `log[i]`; single-row inserts have no owner here. */
  datatype State = State(history: seq<Tables>, log: seq<Op>, owners: seq<Option<TxId>>, txs: map<TxId, Tx>)

  const INITIAL := State([EMPTY_TABLES], [], [], map[])

  function Spec(request: Request): Op {
    match request
    case Accept(ride, driver) => AcceptRide(ride, driver)
    case Complete(ride, at) => CompleteRide(ride, at)
  }

  /** `retain`: a row whose recheck fails may or may not stay locked until the transaction ends. */
  datatype Label =
    | Insert(op: Op)
    | Begin(id: TxId, request: Request)
    | Snapshot(id: TxId)
    | LockFirst(id: TxId, retain: bool)
    | LockSecond(id: TxId, retain: bool)
    | Finish(id: TxId)

  function Current(s: State): Tables
    requires |s.history| > 0
  {
    s.history[|s.history| - 1]
  }

  /** The row a transaction must lock next, if any. */
  function Wanted(tx: Tx): Option<Row> {
    match (tx.phase, tx.request)
    case (First, Accept(_, driver)) => Some(DriverRow(driver))
    case (First, Complete(ride, _)) => Some(RideRow(ride))
    case (Second, Accept(ride, _)) => Some(RideRow(ride))
    case (Second, Complete(ride, _)) =>
      if ride in tx.rides then Some(DriverRow(CoalescedDriver(tx.rides[ride]))) else None
    case _ => None
  }

  predicate WaitsFor(s: State, t: TxId, u: TxId) {
    && t in s.txs && u in s.txs && t != u
    && Wanted(s.txs[t]).Some? && Wanted(s.txs[t]).value in s.txs[u].locks
  }

  predicate Blocked(s: State, t: TxId) {
    exists u | u in s.txs :: WaitsFor(s, t, u)
  }

  predicate Finished(tx: Tx) {
    tx.phase.Committed? || tx.phase.RolledBack?
  }

  // ---------- the steps of one transaction ----------

  /** The WHERE clause of the first UPDATE matches a row. */
  predicate FirstCandidate(db: Tables, request: Request) {
    match request
    case Accept(_, driver) => DriverIs(db, driver, Online)
    case Complete(ride, _) => HasStatus(db, ride, Accepted)
  }

  /** Take the snapshot and look the first row up in it. */
  function TakeSnapshot(tx: Tx, db: Tables, version: nat): Tx {
    tx.(snapshot := version, phase := if FirstCandidate(db, tx.request) then First else NoRow)
  }

  function GiveUp(tx: Tx, row: Row, retain: bool): Tx {
    tx.(phase := NoRow, locks := if retain then tx.locks + {row} else tx.locks)
  }

  /** Lock, recheck and rewrite the first row; the second row is looked up in the snapshot. */
  function RewriteFirst(tx: Tx, db: Tables, snap: Tables, retain: bool): Tx {
    match tx.request
    case Accept(ride, driver) =>
      if DriverIs(db, driver, Online) then
        tx.(locks := tx.locks + {DriverRow(driver)},
            drivers := tx.drivers[driver := db.drivers[driver].(status := Busy)],
            phase := if HasStatus(snap, ride, Searching) then Second else NoRow)
      else GiveUp(tx, DriverRow(driver), retain)
    case Complete(ride, at) =>
      if HasStatus(db, ride, Accepted) then
        tx.(locks := tx.locks + {RideRow(ride)},
            rides := tx.rides[ride := CompletedRow(db.rides[ride], at)],
            phase := if CoalescedDriver(db.rides[ride]) in snap.drivers then Second else Returned)
      else GiveUp(tx, RideRow(ride), retain)
  }

  /** Lock, recheck and rewrite the second row. A completion returns its ride whether or not a driver matched. */
  function RewriteSecond(tx: Tx, db: Tables, retain: bool): Tx {
    match tx.request
    case Accept(ride, driver) =>
      if HasStatus(db, ride, Searching) then
        tx.(locks := tx.locks + {RideRow(ride)},
            rides := tx.rides[ride := AcceptedRow(db.rides[ride], driver)],
            phase := Returned)
      else GiveUp(tx, RideRow(ride), retain)
    case Complete(ride, _) =>
      var driver := if ride in tx.rides then CoalescedDriver(tx.rides[ride]) else 0;
      if driver in db.drivers then
        tx.(locks := tx.locks + {DriverRow(driver)},
            drivers := tx.drivers[driver := db.drivers[driver].(status := Online)],
            phase := Returned)
      else tx.(phase := Returned)
  }

  /** The committed tables once the transaction's own row versions become visible. */
  function Install(db: Tables, tx: Tx): Tables {
    db.(drivers := db.drivers + tx.drivers, rides := db.rides + tx.rides)
  }

  function Release(tx: Tx, phase: Phase): Tx {
    tx.(phase := phase, locks := {}, drivers := map[], rides := map[])
  }

  // ---------- the transition system ----------

  predicate CanStep(s: State, l: Label) {
    && |s.history| > 0
    && match l
       case Insert(op) => !op.AcceptRide? && !op.CompleteRide? && Enabled(Current(s), op)
       case Begin(id, _) => id !in s.txs
       case Snapshot(id) => id in s.txs && s.txs[id].phase.Begun?
       case LockFirst(id, _) =>
         id in s.txs && s.txs[id].phase.First? && !Blocked(s, id) && s.txs[id].snapshot < |s.history|
       case LockSecond(id, _) => id in s.txs && s.txs[id].phase.Second? && !Blocked(s, id)
       case Finish(id) =>
         && id in s.txs
         && ((s.txs[id].phase.Returned? && s.txs[id].request.ride in s.txs[id].rides) || s.txs[id].phase.NoRow?)
  }

  function Update(s: State, id: TxId, tx: Tx): State {
    s.(txs := s.txs[id := tx])
  }

  function Step(s: State, l: Label): State
    requires CanStep(s, l)
  {
    match l
    case Insert(op) =>
      s.(history := s.history + [Apply(Current(s), op)], log := s.log + [op], owners := s.owners + [None])
    case Begin(id, request) =>
      Update(s, id, Tx(request, |s.history| - 1, Begun, 0, {}, map[], map[]))
    case Snapshot(id) =>
      Update(s, id, TakeSnapshot(s.txs[id], Current(s), |s.history| - 1))
    case LockFirst(id, retain) =>
      Update(s, id, RewriteFirst(s.txs[id], Current(s), s.history[s.txs[id].snapshot], retain))
    case LockSecond(id, retain) =>
      Update(s, id, RewriteSecond(s.txs[id], Current(s), retain))
    case Finish(id) =>
      var tx := s.txs[id];
      if tx.phase.Returned? then
        State(s.history + [Install(Current(s), tx)], s.log + [Spec(tx.request)], s.owners + [Some(id)],
              s.txs[id := Release(tx, Committed(|s.log|, tx.rides[tx.request.ride]))])
      else
        Update(s, id, Release(tx, RolledBack(|s.history| - 1)))
  }

  /** The state after a run of labels, when every label was possible in its turn. */
  function RunFrom(s: State, labels: seq<Label>): Option<State>
    decreases |labels|
  {
    if labels == [] then Some(s)
    else if CanStep(s, labels[0]) then RunFrom(Step(s, labels[0]), labels[1..])
    else None
  }

  ghost predicate Reachable(s: State) {
    exists labels :: RunFrom(INITIAL, labels) == Some(s)
  }

  // ---------- the invariant ----------

  /** At some committed version between `from` and `to` the request was refused by the atomic operation. */
  ghost predicate RefusedBetween(history: seq<Tables>, request: Request, from: nat, to: nat) {
    exists v :: from <= v <= to && v < |history| && !Enabled(history[v], Spec(request))
  }

  /** What a transaction holds and knows in each phase, with respect to the newest committed version. */
  ghost predicate TxOk(history: seq<Tables>, log: seq<Op>, owners: seq<Option<TxId>>, id: TxId, tx: Tx)
    requires 0 < |history| == |log| + 1 == |owners| + 1
  {
    var db := history[|history| - 1];
    && tx.begunAt < |history|
    && (tx.phase.First? || tx.phase.Second? || tx.phase.Returned? || tx.phase.Committed? ==>
          tx.begunAt <= tx.snapshot < |history|)
    && match tx.phase
       case Begun => tx.locks == {} && tx.drivers == map[] && tx.rides == map[]
       case First =>
         && tx.locks == {} && tx.drivers == map[] && tx.rides == map[]
         && FirstCandidate(history[tx.snapshot], tx.request)
       case Second => Enabled(history[tx.snapshot], Spec(tx.request)) && HoldsFirst(db, tx)
       case Returned => Enabled(history[tx.snapshot], Spec(tx.request)) && HoldsBoth(db, tx)
       case NoRow => RefusedBetween(history, tx.request, tx.begunAt, |history| - 1)
       case Committed(i, row) =>
         && tx.locks == {}
         && tx.snapshot <= i < |log| && log[i] == Spec(tx.request) && owners[i] == Some(id)
         && Enabled(history[tx.snapshot], Spec(tx.request))
         && tx.request.ride in history[i + 1].rides && row == history[i + 1].rides[tx.request.ride]
       case RolledBack(v) =>
         tx.locks == {} && v < |history| && RefusedBetween(history, tx.request, tx.begunAt, v)
  }

  ghost predicate HoldsFirst(db: Tables, tx: Tx) {
    match tx.request
    case Accept(ride, driver) =>
      && tx.locks == {DriverRow(driver)} && tx.rides == map[]
      && DriverIs(db, driver, Online)
      && tx.drivers == map[driver := db.drivers[driver].(status := Busy)]
    case Complete(ride, at) =>
      && tx.locks == {RideRow(ride)} && tx.drivers == map[]
      && HasStatus(db, ride, Accepted)
      && tx.rides == map[ride := CompletedRow(db.rides[ride], at)]
  }

  ghost predicate HoldsBoth(db: Tables, tx: Tx) {
    && Enabled(db, Spec(tx.request))
    && var ride := tx.request.ride;
       match tx.request
       case Accept(_, driver) =>
         && tx.locks == {DriverRow(driver), RideRow(ride)}
         && tx.drivers == map[driver := db.drivers[driver].(status := Busy)]
         && tx.rides == map[ride := AcceptedRow(db.rides[ride], driver)]
       case Complete(_, at) =>
         var driver := CoalescedDriver(db.rides[ride]);
         && driver in db.drivers
         && tx.locks == {RideRow(ride), DriverRow(driver)}
         && tx.drivers == map[driver := db.drivers[driver].(status := Online)]
         && tx.rides == map[ride := CompletedRow(db.rides[ride], at)]
  }

  ghost predicate TxsOk(s: State)
    requires 0 < |s.history| == |s.log| + 1 == |s.owners| + 1
  {
    forall t | t in s.txs :: TxOk(s.history, s.log, s.owners, t, s.txs[t])
  }

  ghost predicate LocksExclusive(s: State) {
    forall t, u | t in s.txs && u in s.txs && t != u :: s.txs[t].locks !! s.txs[u].locks
  }

  ghost predicate OwnersCommitted(s: State) {
    forall i | 0 <= i < |s.owners| && s.owners[i].Some? ::
      && s.owners[i].value in s.txs
      && s.txs[s.owners[i].value].phase.Committed?
      && s.txs[s.owners[i].value].phase.index == i
  }

  ghost predicate OnlyInsertsUnowned(s: State)
    requires |s.log| == |s.owners|
  {
    forall i | 0 <= i < |s.log| && (s.log[i].AcceptRide? || s.log[i].CompleteRide?) :: s.owners[i].Some?
  }

  ghost predicate Inv(s: State) {
    && |s.history| == |s.log| + 1 == |s.owners| + 1
    && Trace(s.history, s.log)
    && LocksExclusive(s)
    && OwnersCommitted(s)
    && OnlyInsertsUnowned(s)
    && TxsOk(s)
  }

  // ---------- every step keeps the invariant ----------

  /** Extending the history leaves a transaction's facts alone when the rows it locked did not change. */
  lemma TxOkFrame(s: State, db: Tables, op: Op, owner: Option<TxId>, t: TxId)
    requires 0 < |s.history| == |s.log| + 1 == |s.owners| + 1
    requires t in s.txs && TxOk(s.history, s.log, s.owners, t, s.txs[t])
    requires forall d | DriverRow(d) in s.txs[t].locks && d in Current(s).drivers ::
               d in db.drivers && db.drivers[d] == Current(s).drivers[d]
    requires forall r | RideRow(r) in s.txs[t].locks && r in Current(s).rides ::
               r in db.rides && db.rides[r] == Current(s).rides[r]
    ensures TxOk(s.history + [db], s.log + [op], s.owners + [owner], t, s.txs[t])
  {
    var tx := s.txs[t];
    var history := s.history + [db];
    assert forall i | 0 <= i < |s.history| :: history[i] == s.history[i];
    if tx.phase.NoRow? || tx.phase.RolledBack? {
      var to := if tx.phase.NoRow? then |s.history| - 1 else tx.phase.version;
      var v :| tx.begunAt <= v <= to && v < |s.history| && !Enabled(s.history[v], Spec(tx.request));
      assert !Enabled(history[v], Spec(tx.request));
      assert RefusedBetween(history, tx.request, tx.begunAt, to);
    }
  }

  lemma UpdateKeepsInv(s: State, id: TxId, tx: Tx)
    requires Inv(s)
    requires TxOk(s.history, s.log, s.owners, id, tx)
    requires id in s.txs ==> !s.txs[id].phase.Committed?
    requires forall u | u in s.txs && u != id :: s.txs[u].locks !! tx.locks
    ensures Inv(Update(s, id, tx))
  {
  }

  lemma InsertKeepsInv(s: State, op: Op)
    requires Inv(s) && CanStep(s, Insert(op))
    ensures Inv(Step(s, Insert(op)))
  {
    var s' := Step(s, Insert(op));
    forall t | t in s'.txs ensures TxOk(s'.history, s'.log, s'.owners, t, s'.txs[t]) {
      TxOkFrame(s, Apply(Current(s), op), op, None, t);
    }
  }

  lemma SnapshotKeepsInv(s: State, id: TxId)
    requires Inv(s) && CanStep(s, Snapshot(id))
    ensures Inv(Step(s, Snapshot(id)))
  {
    assert TxOk(s.history, s.log, s.owners, id, s.txs[id]);
    var tx := TakeSnapshot(s.txs[id], Current(s), |s.history| - 1);
    if tx.phase.NoRow? {
      assert !Enabled(s.history[|s.history| - 1], Spec(tx.request));
    }
    UpdateKeepsInv(s, id, tx);
  }

  /** The driver a completion will free exists already in its snapshot. */
  lemma SnapshotKnowsTheDriver(s: State, snapshot: nat, ride: int)
    requires Inv(s) && snapshot < |s.history|
    requires HasStatus(s.history[snapshot], ride, Accepted)
    ensures ride in Current(s).rides
    ensures CoalescedDriver(Current(s).rides[ride]) in s.history[snapshot].drivers
    ensures CoalescedDriver(Current(s).rides[ride]) in Current(s).drivers
  {
    EveryVersionConsistent(s.history, s.log, snapshot);
    RideEvolves(s.history, s.log, snapshot, |s.history| - 1, ride);
    RowsPersist(s.history, s.log, snapshot, |s.history| - 1);
  }

  lemma UnblockedRowIsFree(s: State, id: TxId, row: Row)
    requires id in s.txs && Wanted(s.txs[id]) == Some(row) && !Blocked(s, id)
    ensures forall u | u in s.txs && u != id :: row !in s.txs[u].locks
  {
    forall u | u in s.txs && u != id ensures row !in s.txs[u].locks {
      assert !WaitsFor(s, id, u);
    }
  }

  /** Rewriting the first row either ends the statement or leaves the transaction holding that row. */
  lemma FirstRewritten(tx: Tx, db: Tables, snap: Tables, retain: bool)
    requires tx.locks == {} && tx.drivers == map[] && tx.rides == map[] && FirstCandidate(snap, tx.request)
    requires tx.request.Complete? && HasStatus(db, tx.request.ride, Accepted) ==>
               CoalescedDriver(db.rides[tx.request.ride]) in snap.drivers
    ensures var tx' := RewriteFirst(tx, db, snap, retain);
            && tx'.request == tx.request && tx'.begunAt == tx.begunAt && tx'.snapshot == tx.snapshot
            && (tx'.phase.NoRow? || tx'.phase.Second?)
            && (tx'.phase.Second? ==> HoldsFirst(db, tx') && Enabled(snap, Spec(tx.request)))
  {
  }

  lemma RewrittenFirstIsOk(s: State, id: TxId, retain: bool)
    requires Inv(s) && CanStep(s, LockFirst(id, retain))
    ensures TxOk(s.history, s.log, s.owners, id, Step(s, LockFirst(id, retain)).txs[id])
  {
    var tx := s.txs[id];
    assert TxOk(s.history, s.log, s.owners, id, tx);
    var snap := s.history[tx.snapshot];
    if tx.request.Complete? {
      SnapshotKnowsTheDriver(s, tx.snapshot, tx.request.ride);
    }
    FirstRewritten(tx, Current(s), snap, retain);
    if RewriteFirst(tx, Current(s), snap, retain).phase.NoRow? {
      FirstFailureIsJustified(s, tx, retain);
    }
  }

  /** Either the newest version refuses the request, or the snapshot did because its ride was not searching. */
  lemma FirstFailureIsJustified(s: State, tx: Tx, retain: bool)
    requires 0 < |s.history| && tx.begunAt <= tx.snapshot < |s.history|
    requires RewriteFirst(tx, Current(s), s.history[tx.snapshot], retain).phase.NoRow?
    ensures RefusedBetween(s.history, tx.request, tx.begunAt, |s.history| - 1)
  {
    var last := |s.history| - 1;
    var v := if Enabled(s.history[last], Spec(tx.request)) then tx.snapshot else last;
    assert !Enabled(s.history[v], Spec(tx.request));
  }

  lemma LockFirstKeepsInv(s: State, id: TxId, retain: bool)
    requires Inv(s) && CanStep(s, LockFirst(id, retain))
    ensures Inv(Step(s, LockFirst(id, retain)))
  {
    var tx := s.txs[id];
    assert TxOk(s.history, s.log, s.owners, id, tx);
    UnblockedRowIsFree(s, id, Wanted(tx).value);
    RewrittenFirstIsOk(s, id, retain);
    UpdateKeepsInv(s, id, Step(s, LockFirst(id, retain)).txs[id]);
  }

  lemma AcceptedRideHasDriver(s: State, ride: int)
    requires Inv(s) && HasStatus(Current(s), ride, Accepted)
    ensures CoalescedDriver(Current(s).rides[ride]) in Current(s).drivers
  {
    EveryVersionConsistent(s.history, s.log, |s.history| - 1);
  }

  /** Rewriting the second row leaves the transaction holding both, unless an acceptance no longer finds its ride. */
  lemma SecondRewritten(tx: Tx, db: Tables, retain: bool)
    requires HoldsFirst(db, tx)
    requires tx.request.Complete? ==> CoalescedDriver(db.rides[tx.request.ride]) in db.drivers
    ensures var tx' := RewriteSecond(tx, db, retain);
            && tx'.request == tx.request && tx'.begunAt == tx.begunAt && tx'.snapshot == tx.snapshot
            && (tx'.phase.Returned? || tx'.phase.NoRow?)
            && (tx'.phase.Returned? ==> HoldsBoth(db, tx'))
            && (tx'.phase.NoRow? ==> !Enabled(db, Spec(tx.request)))
  {
  }

  lemma RewrittenSecondIsOk(s: State, id: TxId, retain: bool)
    requires Inv(s) && CanStep(s, LockSecond(id, retain))
    ensures TxOk(s.history, s.log, s.owners, id, Step(s, LockSecond(id, retain)).txs[id])
  {
    var tx := s.txs[id];
    assert TxOk(s.history, s.log, s.owners, id, tx);
    if tx.request.Complete? {
      AcceptedRideHasDriver(s, tx.request.ride);
    }
    SecondRewritten(tx, Current(s), retain);
    if RewriteSecond(tx, Current(s), retain).phase.NoRow? {
      assert !Enabled(s.history[|s.history| - 1], Spec(tx.request));
    }
  }

  lemma SecondLocksWanted(s: State, id: TxId, retain: bool)
    requires Inv(s) && CanStep(s, LockSecond(id, retain))
    ensures Wanted(s.txs[id]).Some?
    ensures Step(s, LockSecond(id, retain)).txs[id].locks <= s.txs[id].locks + {Wanted(s.txs[id]).value}
  {
    assert TxOk(s.history, s.log, s.owners, id, s.txs[id]);
  }

  lemma LockSecondKeepsInv(s: State, id: TxId, retain: bool)
    requires Inv(s) && CanStep(s, LockSecond(id, retain))
    ensures Inv(Step(s, LockSecond(id, retain)))
  {
    SecondLocksWanted(s, id, retain);
    UnblockedRowIsFree(s, id, Wanted(s.txs[id]).value);
    RewrittenSecondIsOk(s, id, retain);
    UpdateKeepsInv(s, id, Step(s, LockSecond(id, retain)).txs[id]);
  }

  /** The row versions a transaction installs are those its atomic operation would write at that moment. */
  lemma InstallIsApply(db: Tables, tx: Tx)
    requires HoldsBoth(db, tx)
    ensures Install(db, tx) == Apply(db, Spec(tx.request))
  {
  }

  lemma OthersSurviveCommit(s: State, id: TxId, t: TxId)
    requires Inv(s) && CanStep(s, Finish(id)) && s.txs[id].phase.Returned? && t in s.txs && t != id
    ensures var tx := s.txs[id];
            TxOk(s.history + [Install(Current(s), tx)], s.log + [Spec(tx.request)], s.owners + [Some(id)], t, s.txs[t])
  {
    var tx := s.txs[id];
    assert TxOk(s.history, s.log, s.owners, id, tx) && TxOk(s.history, s.log, s.owners, t, s.txs[t]);
    assert s.txs[t].locks !! tx.locks;
    TxOkFrame(s, Install(Current(s), tx), Spec(tx.request), Some(id), t);
  }

  lemma CommittedIsOk(s: State, id: TxId)
    requires Inv(s) && CanStep(s, Finish(id)) && s.txs[id].phase.Returned?
    ensures var tx := s.txs[id];
            TxOk(s.history + [Install(Current(s), tx)], s.log + [Spec(tx.request)], s.owners + [Some(id)], id,
                 Release(tx, Committed(|s.log|, tx.rides[tx.request.ride])))
  {
    assert TxOk(s.history, s.log, s.owners, id, s.txs[id]);
  }

  lemma CommitKeepsTxsOk(s: State, id: TxId)
    requires Inv(s) && CanStep(s, Finish(id)) && s.txs[id].phase.Returned?
    ensures |Step(s, Finish(id)).history| == |s.log| + 2 == |Step(s, Finish(id)).owners| + 1
    ensures TxsOk(Step(s, Finish(id)))
  {
    var s' := Step(s, Finish(id));
    CommittedIsOk(s, id);
    forall t | t in s'.txs ensures TxOk(s'.history, s'.log, s'.owners, t, s'.txs[t]) {
      if t != id {
        OthersSurviveCommit(s, id, t);
      }
    }
  }

  lemma CommitExtendsTrace(s: State, id: TxId)
    requires Inv(s) && CanStep(s, Finish(id)) && s.txs[id].phase.Returned?
    ensures Trace(Step(s, Finish(id)).history, Step(s, Finish(id)).log)
  {
    assert TxOk(s.history, s.log, s.owners, id, s.txs[id]);
    InstallIsApply(Current(s), s.txs[id]);
    TraceExtends(s.history, s.log, Spec(s.txs[id].request));
  }

  lemma CommitKeepsInv(s: State, id: TxId)
    requires Inv(s) && CanStep(s, Finish(id)) && s.txs[id].phase.Returned?
    ensures Inv(Step(s, Finish(id)))
  {
    CommitExtendsTrace(s, id);
    CommitKeepsTxsOk(s, id);
    assert OwnersCommitted(Step(s, Finish(id)));
  }

  lemma RollbackKeepsInv(s: State, id: TxId)
    requires Inv(s) && CanStep(s, Finish(id)) && s.txs[id].phase.NoRow?
    ensures Inv(Step(s, Finish(id)))
  {
    assert TxOk(s.history, s.log, s.owners, id, s.txs[id]);
    UpdateKeepsInv(s, id, Release(s.txs[id], RolledBack(|s.history| - 1)));
  }

  lemma StepKeepsInv(s: State, l: Label)
    requires Inv(s) && CanStep(s, l)
    ensures Inv(Step(s, l))
  {
    match l
    case Insert(op) => InsertKeepsInv(s, op);
    case Begin(id, request) => UpdateKeepsInv(s, id, Tx(request, |s.history| - 1, Begun, 0, {}, map[], map[]));
    case Snapshot(id) => SnapshotKeepsInv(s, id);
    case LockFirst(id, retain) => LockFirstKeepsInv(s, id, retain);
    case LockSecond(id, retain) => LockSecondKeepsInv(s, id, retain);
    case Finish(id) =>
      if s.txs[id].phase.Returned? {
        CommitKeepsInv(s, id);
      } else {
        RollbackKeepsInv(s, id);
      }
  }

  lemma {:induction false} RunKeepsInv(s: State, labels: seq<Label>)
    requires Inv(s) && RunFrom(s, labels).Some?
    ensures Inv(RunFrom(s, labels).value)
    decreases |labels|
  {
    if labels != [] {
      StepKeepsInv(s, labels[0]);
      RunKeepsInv(Step(s, labels[0]), labels[1..]);
    }
  }

  lemma ReachableInv(s: State)
    requires Reachable(s)
    ensures Inv(s)
  {
    var labels :| RunFrom(INITIAL, labels) == Some(s);
    RunKeepsInv(INITIAL, labels);
  }

  lemma {:induction false} RunsCompose(s: State, first: seq<Label>, second: seq<Label>)
    requires RunFrom(s, first).Some?
    ensures RunFrom(s, first + second) == RunFrom(RunFrom(s, first).value, second)
    decreases |first|
  {
    if first == [] {
      assert first + second == second;
    } else {
      assert (first + second)[1..] == first[1..] + second;
      RunsCompose(Step(s, first[0]), first[1..], second);
    }
  }
}

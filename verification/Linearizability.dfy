/**
 What a client of the dispatch protocol can rely on: concurrent acceptances and completions act as the atomic
 operations in commit order, refusals are justified, drivers and rides stay matched, and no wait lasts for ever.
 */
module Linearizability {
  import opened Basics
  import opened Database
  import opened History
  import opened Dispatch

  // ---------- agreement with the atomic operations ----------

  /** The committed tables are the atomic operations in commit order, and each commit is one request's. */
  lemma CommitsAreAtomic(s: State)
    requires Reachable(s)
    ensures Trace(s.history, s.log)
    ensures |s.owners| == |s.log|
    ensures forall i | 0 <= i < |s.log| && (s.log[i].AcceptRide? || s.log[i].CompleteRide?) ::
              && s.owners[i].Some? && s.owners[i].value in s.txs
              && Spec(s.txs[s.owners[i].value].request) == s.log[i]
              && s.txs[s.owners[i].value].phase.Committed?
              && s.txs[s.owners[i].value].phase.index == i
  {
    ReachableInv(s);
    forall i | 0 <= i < |s.log| && s.owners[i].Some?
      ensures Spec(s.txs[s.owners[i].value].request) == s.log[i]
    {
      var t := s.owners[i].value;
      assert TxOk(s.history, s.log, s.owners, t, s.txs[t]);
    }
  }

  /**
   A successful call took effect once, between its begin and its return, and returned the row it wrote. The atomic
   operation was possible both on the call's snapshot and where it took effect.
   */
  lemma SuccessTakesEffectOnce(s: State, t: TxId)
    requires Reachable(s) && t in s.txs && s.txs[t].phase.Committed?
    ensures var tx := s.txs[t]; var i := tx.phase.index;
            && |s.history| == |s.log| + 1
            && tx.begunAt <= tx.snapshot <= i < |s.log| == |s.owners|
            && Enabled(s.history[tx.snapshot], Spec(tx.request)) && Enabled(s.history[i], Spec(tx.request))
            && s.log[i] == Spec(tx.request) && s.owners[i] == Some(t)
            && (forall j | 0 <= j < |s.owners| && s.owners[j] == Some(t) :: j == i)
            && tx.request.ride in s.history[i].rides
            && tx.phase.row == (match tx.request
                                case Accept(ride, driver) => AcceptedRow(s.history[i].rides[ride], driver)
                                case Complete(ride, at) => CompletedRow(s.history[i].rides[ride], at))
  {
    ReachableInv(s);
    var tx := s.txs[t];
    assert TxOk(s.history, s.log, s.owners, t, tx);
    assert s.history[tx.phase.index + 1] == Apply(s.history[tx.phase.index], s.log[tx.phase.index]);
  }

  /** A refused call wrote nothing, and some version during the call did refuse the atomic operation. */
  lemma RefusalIsJustified(s: State, t: TxId)
    requires Reachable(s) && t in s.txs && s.txs[t].phase.RolledBack?
    ensures forall i | 0 <= i < |s.owners| :: s.owners[i] != Some(t)
    ensures exists v :: s.txs[t].begunAt <= v <= s.txs[t].phase.version && v < |s.history|
                        && !Enabled(s.history[v], Spec(s.txs[t].request))
  {
    ReachableInv(s);
    assert TxOk(s.history, s.log, s.owners, t, s.txs[t]);
  }

  /** The statement snapshot showed the row as one the statement has to rewrite. */
  predicate SnapshotWants(snap: Tables, request: Request, row: Row) {
    match (row, request)
    case (DriverRow(d), Accept(_, driver)) => d == driver && DriverIs(snap, d, Online)
    case (RideRow(r), Accept(ride, driver)) => r == ride && Enabled(snap, AcceptRide(ride, driver))
    case (RideRow(r), Complete(ride, _)) => r == ride && HasStatus(snap, r, Accepted)
    case (DriverRow(d), Complete(ride, _)) => DriverIs(snap, d, Busy) && Carries(snap, ride, d)
  }

  /** A transaction only ever waits for rows that its own snapshot showed as matching. */
  lemma OnlySnapshotRowsAreAwaited(s: State, t: TxId)
    requires Reachable(s) && t in s.txs && Wanted(s.txs[t]).Some?
    ensures var tx := s.txs[t];
            && tx.begunAt <= tx.snapshot < |s.history|
            && SnapshotWants(s.history[tx.snapshot], tx.request, Wanted(tx).value)
  {
    ReachableInv(s);
    if s.txs[t].phase.First? {
      FirstRowIsWanted(s, t);
    } else {
      SecondRowIsWanted(s, t);
    }
  }

  /**
   The order of the locks. An acceptance asks for its driver holding nothing, then for its ride holding the driver,
   whose row it has made busy where nobody else sees it. A completion asks for its ride holding nothing, then for a
   driver holding the ride.
   */
  lemma LocksAreOrdered(s: State, t: TxId)
    requires Reachable(s) && t in s.txs && Wanted(s.txs[t]).Some?
    ensures var tx, wanted := s.txs[t], Wanted(s.txs[t]).value;
            match tx.request
            case Accept(ride, driver) =>
              || (wanted == DriverRow(driver) && tx.locks == {})
              || (&& wanted == RideRow(ride) && tx.locks == {DriverRow(driver)}
                  && driver in tx.drivers && tx.drivers[driver].status == Busy
                  && |s.history| > 0 && DriverIs(Current(s), driver, Online))
            case Complete(ride, _) =>
              || (wanted == RideRow(ride) && tx.locks == {})
              || (wanted.DriverRow? && tx.locks == {RideRow(ride)})
  {
    ReachableInv(s);
    if s.txs[t].phase.First? {
      assert TxOk(s.history, s.log, s.owners, t, s.txs[t]);
    } else {
      SecondPhaseHolds(s, t);
    }
  }

  lemma FirstRowIsWanted(s: State, t: TxId)
    requires Inv(s) && t in s.txs && s.txs[t].phase.First?
    ensures var tx := s.txs[t];
            && tx.begunAt <= tx.snapshot < |s.history|
            && SnapshotWants(s.history[tx.snapshot], tx.request, Wanted(tx).value)
  {
    assert TxOk(s.history, s.log, s.owners, t, s.txs[t]);
  }

  lemma SecondPhaseHolds(s: State, t: TxId)
    requires Inv(s) && t in s.txs && s.txs[t].phase.Second?
    ensures var tx := s.txs[t];
            && tx.begunAt <= tx.snapshot < |s.history|
            && Enabled(s.history[tx.snapshot], Spec(tx.request)) && HoldsFirst(Current(s), tx)
  {
    assert TxOk(s.history, s.log, s.owners, t, s.txs[t]);
  }

  lemma FreedDriverIsNamed(db: Tables, tx: Tx)
    requires tx.phase.Second? && tx.request.Complete? && HoldsFirst(db, tx)
    ensures Wanted(tx) == Some(DriverRow(CoalescedDriver(db.rides[tx.request.ride])))
  {
  }

  lemma SecondRowIsWanted(s: State, t: TxId)
    requires Inv(s) && t in s.txs && s.txs[t].phase.Second?
    ensures var tx := s.txs[t];
            && Wanted(tx).Some? && tx.begunAt <= tx.snapshot < |s.history|
            && SnapshotWants(s.history[tx.snapshot], tx.request, Wanted(tx).value)
  {
    SecondPhaseHolds(s, t);
    if s.txs[t].request.Complete? {
      FreedDriverIsNamed(Current(s), s.txs[t]);
      CarrierSinceSnapshot(s, s.txs[t].snapshot, s.txs[t].request.ride);
    }
  }

  /** A ride accepted both then and now was carried then by the driver it names now. */
  lemma CarrierSinceSnapshot(s: State, snapshot: nat, ride: int)
    requires Inv(s) && snapshot < |s.history| && HasStatus(s.history[snapshot], ride, Accepted)
    ensures ride in Current(s).rides
    ensures var driver := CoalescedDriver(Current(s).rides[ride]);
            Carries(s.history[snapshot], ride, driver) && DriverIs(s.history[snapshot], driver, Busy)
  {
    EveryVersionConsistent(s.history, s.log, snapshot);
    RideEvolves(s.history, s.log, snapshot, |s.history| - 1, ride);
    assert Carries(s.history[snapshot], ride, CoalescedDriver(Current(s).rides[ride]));
  }

  // ---------- matching and exclusion ----------

  lemma DriversStayMatched(s: State, v: nat)
    requires Reachable(s) && v < |s.history|
    ensures Consistent(s.history[v])
    ensures |BusyDrivers(s.history[v])| == |RidesWith(s.history[v], Accepted)|
    ensures |s.history[v].rides| == |RidesWith(s.history[v], Searching)| + |RidesWith(s.history[v], Accepted)|
                                    + |RidesWith(s.history[v], Completed)|
    ensures RidesWith(s.history[v], Cancelled) == {}
  {
    ReachableInv(s);
    EveryVersionConsistent(s.history, s.log, v);
    EveryVersionConserves(s.history, s.log, v);
  }

  /** No ride is accepted twice, and a driver accepts again only after a commit that completed its earlier ride. */
  lemma AcceptancesDoNotOverlap(s: State, t: TxId, u: TxId)
    requires Reachable(s) && t in s.txs && u in s.txs && t != u
    requires s.txs[t].phase.Committed? && s.txs[t].request.Accept?
    requires s.txs[u].phase.Committed? && s.txs[u].request.Accept?
    requires s.txs[t].phase.index <= s.txs[u].phase.index
    ensures s.txs[t].request.ride != s.txs[u].request.ride
    ensures s.txs[t].request.driver == s.txs[u].request.driver ==>
              exists w :: w in s.txs && s.txs[w].phase.Committed? && s.txs[w].request.Complete?
                          && s.txs[w].request.ride == s.txs[t].request.ride
                          && s.txs[t].phase.index < s.txs[w].phase.index < s.txs[u].phase.index
  {
    SuccessTakesEffectOnce(s, t);
    SuccessTakesEffectOnce(s, u);
    CommitsAreAtomic(s);
    var i, j := s.txs[t].phase.index, s.txs[u].phase.index;
    assert s.owners[i] == Some(t) && s.owners[j] == Some(u);
    AcceptancesExclude(s.history, s.log, i, j);
    if s.txs[t].request.driver == s.txs[u].request.driver {
      var k :| i < k < j && Completes(s.log[k], s.log[i].ride);
      assert Spec(s.txs[s.owners[k].value].request) == s.log[k];
    }
  }

  // ---------- waiting ----------

  /** How many more waits can follow one another behind a transaction. */
  function WaitRank(tx: Tx): nat {
    match tx.phase
    case First => 3
    case Second => if tx.request.Accept? then 2 else 1
    case _ => 0
  }

  /** The driver of a ride being completed is busy, so no acceptance that passed its check on it can hold it. */
  lemma WaitsDescend(s: State, t: TxId, u: TxId)
    requires Inv(s) && WaitsFor(s, t, u)
    ensures WaitRank(s.txs[u]) < WaitRank(s.txs[t])
  {
    var db := Current(s);
    assert TxOk(s.history, s.log, s.owners, t, s.txs[t]) && TxOk(s.history, s.log, s.owners, u, s.txs[u]);
    if s.txs[t].phase.Second? && s.txs[t].request.Complete? {
      EveryVersionConsistent(s.history, s.log, |s.history| - 1);
      var ride := s.txs[t].request.ride;
      assert Carries(db, ride, CoalescedDriver(db.rides[ride]));
    }
  }

  ghost predicate WaitChain(s: State, chain: seq<TxId>) {
    && (forall i | 0 <= i < |chain| :: chain[i] in s.txs)
    && forall i, j | 0 <= i < j < |chain| && j == i + 1 :: WaitsFor(s, chain[i], chain[j])
  }

  lemma {:induction false} ChainsDescend(s: State, chain: seq<TxId>, i: nat)
    requires Inv(s) && WaitChain(s, chain) && i < |chain|
    ensures WaitRank(s.txs[chain[i]]) + i <= WaitRank(s.txs[chain[0]])
  {
    if i > 0 {
      ChainsDescend(s, chain, i - 1);
      WaitsDescend(s, chain[i - 1], chain[i]);
    }
  }

  /** The wait-for graph has no cycle, and no chain of waits has more than three links. */
  lemma NoDeadlock(s: State, chain: seq<TxId>)
    requires Reachable(s) && |chain| > 0 && WaitChain(s, chain)
    ensures !WaitsFor(s, chain[|chain| - 1], chain[0])
    ensures |chain| <= 4
  {
    ReachableInv(s);
    ChainsDescend(s, chain, |chain| - 1);
    NoWaitUpwards(s, chain[|chain| - 1], chain[0]);
  }

  lemma NoWaitUpwards(s: State, t: TxId, u: TxId)
    requires Inv(s) && t in s.txs && u in s.txs && WaitRank(s.txs[t]) <= WaitRank(s.txs[u])
    ensures !WaitsFor(s, t, u)
  {
    if WaitsFor(s, t, u) {
      WaitsDescend(s, t, u);
    }
  }

  predicate Advances(l: Label, t: TxId) {
    match l
    case Snapshot(id) => id == t
    case LockFirst(id, _) => id == t
    case LockSecond(id, _) => id == t
    case Finish(id) => id == t
    case _ => false
  }

  lemma UnblockedCanStep(s: State, t: TxId) returns (l: Label)
    requires Inv(s) && t in s.txs && !Finished(s.txs[t]) && !Blocked(s, t)
    ensures Advances(l, t) && CanStep(s, l)
  {
    assert TxOk(s.history, s.log, s.owners, t, s.txs[t]);
    match s.txs[t].phase
    case Begun => l := Snapshot(t);
    case First => l := LockFirst(t, false);
    case Second => l := LockSecond(t, false);
    case _ => l := Finish(t);
  }

  lemma HoldersAreUnfinished(s: State, t: TxId, u: TxId)
    requires Inv(s) && WaitsFor(s, t, u)
    ensures !Finished(s.txs[u])
  {
    assert TxOk(s.history, s.log, s.owners, u, s.txs[u]);
  }

  lemma ChainPrepend(s: State, t: TxId, chain: seq<TxId>)
    requires WaitChain(s, chain) && chain != [] && WaitsFor(s, t, chain[0])
    ensures WaitChain(s, [t] + chain)
  {
  }

  /** While a transaction is unfinished, the waits that start with it lead to one that can move. */
  lemma {:induction false} SomeoneCanStep(s: State, t: TxId) returns (chain: seq<TxId>, l: Label)
    requires Inv(s) && t in s.txs && !Finished(s.txs[t])
    ensures chain != [] && chain[0] == t && WaitChain(s, chain)
    ensures !Finished(s.txs[chain[|chain| - 1]]) && Advances(l, chain[|chain| - 1]) && CanStep(s, l)
    decreases WaitRank(s.txs[t])
  {
    if Blocked(s, t) {
      var holder :| holder in s.txs && WaitsFor(s, t, holder);
      HoldersAreUnfinished(s, t, holder);
      WaitsDescend(s, t, holder);
      var rest;
      rest, l := SomeoneCanStep(s, holder);
      ChainPrepend(s, t, rest);
      chain := [t] + rest;
    } else {
      chain := [t];
      l := UnblockedCanStep(s, t);
    }
  }

  // ---------- every transaction can finish ----------

  function StepsLeft(tx: Tx): nat {
    match tx.phase
    case Begun => 4
    case First => 3
    case Second => 2
    case Returned => 1
    case NoRow => 1
    case _ => 0
  }

  function WithAtLeast(s: State, n: nat): set<TxId> {
    set t | t in s.txs && StepsLeft(s.txs[t]) >= n
  }

  function TotalLeft(s: State): nat {
    |WithAtLeast(s, 1)| + |WithAtLeast(s, 2)| + |WithAtLeast(s, 3)| + |WithAtLeast(s, 4)|
  }

  lemma SubsetIsSmaller<T>(a: set<T>, b: set<T>)
    requires a <= b
    ensures |a| <= |b|
    ensures a != b ==> |a| < |b|
  {
    assert b == a + (b - a);
    assert |b| == |a| + |b - a|;
  }

  lemma AdvancingTouchesOne(s: State, t: TxId, l: Label)
    requires Advances(l, t) && CanStep(s, l)
    ensures t in s.txs && Step(s, l).txs == s.txs[t := Step(s, l).txs[t]]
    ensures StepsLeft(Step(s, l).txs[t]) < StepsLeft(s.txs[t]) <= 4
    ensures Step(s, l).txs[t].request == s.txs[t].request && Step(s, l).txs[t].begunAt == s.txs[t].begunAt
  {
  }

  lemma AdvancingLeavesLess(s: State, t: TxId, l: Label)
    requires Advances(l, t) && CanStep(s, l)
    ensures TotalLeft(Step(s, l)) < TotalLeft(s)
    ensures Step(s, l).txs.Keys == s.txs.Keys
  {
    AdvancingTouchesOne(s, t, l);
    LessWorkCounts(s, Step(s, l), t);
  }

  lemma LessWorkCounts(s: State, s': State, t: TxId)
    requires t in s.txs && t in s'.txs && s'.txs == s.txs[t := s'.txs[t]]
    requires StepsLeft(s'.txs[t]) < StepsLeft(s.txs[t]) <= 4
    ensures TotalLeft(s') < TotalLeft(s)
  {
    var n := StepsLeft(s.txs[t]);
    assert t in WithAtLeast(s, n) && t !in WithAtLeast(s', n);
    SubsetIsSmaller(WithAtLeast(s', 1), WithAtLeast(s, 1));
    SubsetIsSmaller(WithAtLeast(s', 2), WithAtLeast(s, 2));
    SubsetIsSmaller(WithAtLeast(s', 3), WithAtLeast(s, 3));
    SubsetIsSmaller(WithAtLeast(s', 4), WithAtLeast(s, 4));
  }

  ghost predicate IsAdvance(l: Label) {
    exists t :: Advances(l, t)
  }

  ghost predicate OnlyAdvances(labels: seq<Label>) {
    forall i | 0 <= i < |labels| :: IsAdvance(labels[i])
  }

  lemma RunPrepend(s: State, l: Label, labels: seq<Label>)
    requires CanStep(s, l)
    ensures RunFrom(s, [l] + labels) == RunFrom(Step(s, l), labels)
  {
    assert ([l] + labels)[1..] == labels;
  }

  /** From every reachable state the transactions in flight can all be brought to their end. */
  lemma {:induction false} AllCanFinish(s: State) returns (labels: seq<Label>, end: State)
    requires Inv(s)
    ensures RunFrom(s, labels) == Some(end) && OnlyAdvances(labels)
    ensures end.txs.Keys == s.txs.Keys
    ensures forall t | t in end.txs :: Finished(end.txs[t])
    decreases TotalLeft(s)
  {
    if forall t | t in s.txs :: Finished(s.txs[t]) {
      labels, end := [], s;
    } else {
      var t :| t in s.txs && !Finished(s.txs[t]);
      var chain, l := SomeoneCanStep(s, t);
      var u := chain[|chain| - 1];
      StepKeepsInv(s, l);
      AdvancingLeavesLess(s, u, l);
      var rest;
      rest, end := AllCanFinish(Step(s, l));
      RunPrepend(s, l, rest);
      labels := [l] + rest;
      AdvancePrepend(u, l, rest);
    }
  }

  /** How many of the steps are steps of this call. */
  function StepsOf(labels: seq<Label>, t: TxId): nat {
    if labels == [] then 0 else (if Advances(labels[0], t) then 1 else 0) + StepsOf(labels[1..], t)
  }

  lemma AdvancesOne(l: Label, t: TxId, u: TxId)
    requires Advances(l, t) && Advances(l, u)
    ensures t == u
  {
  }

  lemma {:induction false} StepsUseUp(s: State, labels: seq<Label>, end: State, t: TxId)
    requires RunFrom(s, labels) == Some(end) && OnlyAdvances(labels) && t in s.txs
    ensures t in end.txs && StepsOf(labels, t) + StepsLeft(end.txs[t]) <= StepsLeft(s.txs[t])
    decreases |labels|
  {
    if labels != [] {
      assert IsAdvance(labels[0]);
      var u :| Advances(labels[0], u);
      AdvancingTouchesOne(s, u, labels[0]);
      if Advances(labels[0], t) {
        AdvancesOne(labels[0], t, u);
      }
      StepsUseUp(Step(s, labels[0]), labels[1..], end, t);
    }
  }

  /**
   However steps are scheduled, a call takes at most four, and none once it has finished; and a schedule that cannot
   go on has finished all.
   */
  lemma EveryScheduleEnds(s: State, labels: seq<Label>, end: State)
    requires Reachable(s) && RunFrom(s, labels) == Some(end) && OnlyAdvances(labels)
    ensures forall t | t in s.txs :: StepsOf(labels, t) <= if Finished(s.txs[t]) then 0 else 4
    ensures |labels| <= 4 * |WithAtLeast(s, 1)|
    ensures forall t :: t in WithAtLeast(s, 1) <==> t in s.txs && !Finished(s.txs[t])
    ensures (forall l | IsAdvance(l) :: !CanStep(end, l)) ==> forall t | t in end.txs :: Finished(end.txs[t])
  {
    forall t | t in s.txs ensures StepsOf(labels, t) <= if Finished(s.txs[t]) then 0 else 4 {
      CallUsesUp(s, labels, end, t);
    }
    assert |labels| <= 4 * |WithAtLeast(s, 1)| by {
      AdvancingUsesUp(s, labels, end);
      TotalIsAtMostFourEach(s);
    }
    ReachableContinues(s, labels, end);
    if forall l | IsAdvance(l) :: !CanStep(end, l) {
      StuckIsFinished(end);
    }
  }

  lemma CallUsesUp(s: State, labels: seq<Label>, end: State, t: TxId)
    requires RunFrom(s, labels) == Some(end) && OnlyAdvances(labels) && t in s.txs
    ensures StepsOf(labels, t) <= if Finished(s.txs[t]) then 0 else 4
  {
    StepsUseUp(s, labels, end, t);
  }

  lemma StuckIsFinished(s: State)
    requires Reachable(s) && forall l | IsAdvance(l) :: !CanStep(s, l)
    ensures forall t | t in s.txs :: Finished(s.txs[t])
  {
    ReachableInv(s);
    forall t | t in s.txs ensures Finished(s.txs[t]) {
      if !Finished(s.txs[t]) {
        StepRemains(s, t);
      }
    }
  }

  lemma TotalIsAtMostFourEach(s: State)
    ensures TotalLeft(s) <= 4 * |WithAtLeast(s, 1)|
  {
    SubsetIsSmaller(WithAtLeast(s, 2), WithAtLeast(s, 1));
    SubsetIsSmaller(WithAtLeast(s, 3), WithAtLeast(s, 1));
    SubsetIsSmaller(WithAtLeast(s, 4), WithAtLeast(s, 1));
  }

  lemma StepRemains(s: State, t: TxId)
    requires Inv(s) && t in s.txs && !Finished(s.txs[t])
    ensures exists l :: IsAdvance(l) && CanStep(s, l)
  {
    var chain, l := SomeoneCanStep(s, t);
    assert IsAdvance(l);
  }

  lemma {:induction false} AdvancingUsesUp(s: State, labels: seq<Label>, end: State)
    requires RunFrom(s, labels) == Some(end) && OnlyAdvances(labels)
    ensures |labels| + TotalLeft(end) <= TotalLeft(s)
    decreases |labels|
  {
    if labels != [] {
      assert IsAdvance(labels[0]);
      var t :| Advances(labels[0], t);
      AdvancingLeavesLess(s, t, labels[0]);
      AdvancingUsesUp(Step(s, labels[0]), labels[1..], end);
    }
  }

  lemma AdvancePrepend(t: TxId, l: Label, labels: seq<Label>)
    requires Advances(l, t) && OnlyAdvances(labels)
    ensures OnlyAdvances([l] + labels)
  {
    assert IsAdvance(l);
  }

  lemma ReachableContinues(s: State, labels: seq<Label>, end: State)
    requires Reachable(s) && RunFrom(s, labels) == Some(end)
    ensures Reachable(end)
  {
    var before :| RunFrom(INITIAL, before) == Some(s);
    RunsCompose(INITIAL, before, labels);
  }

  /** Runs without new requests only add commits of the transactions that were in flight. */
  ghost predicate OnlyInFlightCommits(s: State, end: State) {
    && s.history <= end.history && s.log <= end.log && s.owners <= end.owners
    && end.txs.Keys == s.txs.Keys
    && (forall t | t in s.txs ::
          && end.txs[t].request == s.txs[t].request && end.txs[t].begunAt == s.txs[t].begunAt
          && (Finished(s.txs[t]) ==> Finished(end.txs[t])))
    && forall i | |s.owners| <= i < |end.owners| ::
         end.owners[i].Some? && end.owners[i].value in s.txs && !Finished(s.txs[end.owners[i].value])
  }

  lemma {:induction false} AdvancingOnlyCommits(s: State, labels: seq<Label>, end: State)
    requires RunFrom(s, labels) == Some(end) && OnlyAdvances(labels)
    ensures OnlyInFlightCommits(s, end)
    decreases |labels|
  {
    if labels != [] {
      assert IsAdvance(labels[0]);
      var t :| Advances(labels[0], t);
      var next := Step(s, labels[0]);
      AdvancingTouchesOne(s, t, labels[0]);
      assert OnlyInFlightCommits(s, next);
      AdvancingOnlyCommits(next, labels[1..], end);
    }
  }

  /** A request that runs with no other in flight finishes, and succeeds exactly when the atomic operation would. */
  lemma AloneDecidesExactly(s: State, id: TxId, request: Request) returns (labels: seq<Label>, end: State)
    requires Reachable(s) && id !in s.txs && forall t | t in s.txs :: Finished(s.txs[t])
    ensures RunFrom(s, [Begin(id, request)] + labels) == Some(end) && id in end.txs && |s.history| > 0
    ensures end.txs[id].phase.Committed? <==> Enabled(Current(s), Spec(request))
    ensures end.txs[id].phase.RolledBack? <==> !Enabled(Current(s), Spec(request))
  {
    ReachableInv(s);
    var begun := Step(s, Begin(id, request));
    StepKeepsInv(s, Begin(id, request));
    labels, end := AllCanFinish(begun);
    RunPrepend(s, Begin(id, request), labels);
    ReachableContinues(s, [Begin(id, request)] + labels, end);
    AdvancingOnlyCommits(begun, labels, end);
    AloneHasNoRival(s, id, request, begun, end);
  }

  /** When all others had finished, the only commit a run can add is that of the one request in flight. */
  lemma OnlyOwnCommits(begun: State, id: TxId, end: State, i: nat)
    requires forall t | t in begun.txs && t != id :: Finished(begun.txs[t])
    requires OnlyInFlightCommits(begun, end) && OwnersCommitted(end) && |begun.owners| <= i < |end.owners|
    ensures end.owners[i] == Some(id) && i == |begun.owners|
  {
    var n := |begun.owners|;
    assert end.owners[i].Some? && end.owners[i].value == id;
    assert end.owners[n].Some? && end.owners[n].value == id;
  }

  lemma AloneHasNoRival(s: State, id: TxId, request: Request, begun: State, end: State)
    requires Inv(s) && id !in s.txs && forall t | t in s.txs :: Finished(s.txs[t])
    requires begun == Step(s, Begin(id, request))
    requires Reachable(end) && OnlyInFlightCommits(begun, end) && Finished(end.txs[id])
    ensures end.txs[id].phase.Committed? <==> Enabled(Current(s), Spec(request))
  {
    var tx := end.txs[id];
    ReachableInv(end);
    assert end.history[|s.log|] == Current(s);
    if tx.phase.Committed? {
      SuccessTakesEffectOnce(end, id);
      OnlyOwnCommits(begun, id, end, tx.phase.index);
      CommitWasEnabled(end, |s.log|);
    } else {
      NoCommitAdded(begun, id, end);
      RefusedByOnlyVersion(end, id, |s.log|);
    }
  }

  lemma RefusedByOnlyVersion(s: State, t: TxId, version: nat)
    requires Reachable(s) && t in s.txs && s.txs[t].phase.RolledBack? && s.txs[t].begunAt == version
    requires |s.history| == version + 1
    ensures !Enabled(s.history[version], Spec(s.txs[t].request))
  {
    RefusalIsJustified(s, t);
  }

  lemma NoCommitAdded(begun: State, id: TxId, end: State)
    requires forall t | t in begun.txs && t != id :: Finished(begun.txs[t])
    requires OnlyInFlightCommits(begun, end) && Inv(end) && id in end.txs && end.txs[id].phase.RolledBack?
    ensures |end.owners| == |begun.owners|
  {
    if |begun.owners| < |end.owners| {
      OnlyOwnCommits(begun, id, end, |begun.owners|);
    }
  }

  lemma CommitWasEnabled(s: State, i: nat)
    requires Inv(s) && i < |s.log|
    ensures Enabled(s.history[i], s.log[i])
  {
  }
}

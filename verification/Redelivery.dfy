/**
 At-least-once delivery. The queue has one consumer with a prefetch of one and requeues what was not acknowledged, so
 a repeated delivery is taken to follow directly on the delivery it repeats (section 4.7 of AMQP 0-9-1).
 */
module Redelivery {
  import opened Basics
  import opened ReadModel

  function Copies<T>(e: T, n: nat): seq<T> {
    seq(n, i => e)
  }

  /** The deliveries when item i of `once` is delivered `counts[i]` times in place. */
  function Repeated<T>(once: seq<T>, counts: seq<nat>): seq<T>
    requires |once| == |counts|
  {
    if once == [] then []
    else
      var n := |once| - 1;
      Repeated(once[..n], counts[..n]) + Copies(once[n], counts[n])
  }

  ghost predicate EachDelivered(counts: seq<nat>) {
    forall i | 0 <= i < |counts| :: counts[i] >= 1
  }

  /** How often each of one ride's own events was delivered. */
  function ProjectCounts(once: seq<Event>, counts: seq<nat>, ride: string): seq<nat>
    requires |once| == |counts|
  {
    if once == [] then []
    else
      var n := |once| - 1;
      ProjectCounts(once[..n], counts[..n], ride) + if Touches(once[n], ride) then [counts[n]] else []
  }

  lemma {:induction false} ProjectionsAlign(once: seq<Event>, counts: seq<nat>, ride: string)
    requires |once| == |counts|
    ensures |ProjectCounts(once, counts, ride)| == |Project(once, ride)|
    ensures EachDelivered(counts) ==> EachDelivered(ProjectCounts(once, counts, ride))
  {
    if once != [] {
      var n := |once| - 1;
      ProjectionsAlign(once[..n], counts[..n], ride);
    }
  }

  lemma {:induction false} ProjectAppends(a: seq<Event>, b: seq<Event>, ride: string)
    ensures Project(a + b, ride) == Project(a, ride) + Project(b, ride)
    decreases |b|
  {
    if b == [] {
      assert a + b == a;
    } else {
      var n := |b| - 1;
      assert (a + b)[..|a + b| - 1] == a + b[..n];
      ProjectAppends(a, b[..n], ride);
    }
  }

  lemma {:induction false} ProjectCopies(e: Event, n: nat, ride: string)
    ensures Project(Copies(e, n), ride) == if Touches(e, ride) then Copies(e, n) else []
  {
    if n > 0 {
      assert Copies(e, n)[..n - 1] == Copies(e, n - 1);
      ProjectCopies(e, n - 1, ride);
    }
  }

  lemma {:induction false} RepetitionProjects(once: seq<Event>, counts: seq<nat>, ride: string)
    requires |once| == |counts|
    ensures |ProjectCounts(once, counts, ride)| == |Project(once, ride)|
    ensures Project(Repeated(once, counts), ride) == Repeated(Project(once, ride), ProjectCounts(once, counts, ride))
  {
    ProjectionsAlign(once, counts, ride);
    if once != [] {
      var n := |once| - 1;
      RepetitionProjects(once[..n], counts[..n], ride);
      ProjectAppends(Repeated(once[..n], counts[..n]), Copies(once[n], counts[n]), ride);
      ProjectCopies(once[n], counts[n], ride);
      ProjectionsAlign(once[..n], counts[..n], ride);
      if Touches(once[n], ride) {
        var own, ownCounts := Project(once, ride), ProjectCounts(once, counts, ride);
        assert own[..|own| - 1] == Project(once[..n], ride);
        assert ownCounts[..|ownCounts| - 1] == ProjectCounts(once[..n], counts[..n], ride);
      } else {
        assert Project(once, ride) == Project(once[..n], ride);
        assert ProjectCounts(once, counts, ride) == ProjectCounts(once[..n], counts[..n], ride);
      }
    }
  }

  // ---------- one ride ----------

  /** The life of a ride so far: created, then accepted, then completed. */
  predicate Legal(history: seq<Event>) {
    && |history| <= 3
    && (|history| > 0 ==> history[0].kind.Created?)
    && (|history| > 1 ==> history[1].kind.Accepted?)
    && (|history| > 2 ==> history[2].kind.Completed?)
  }

  /** The payloads of the events merged in order, later ones winning. */
  function Merged(events: seq<Event>): Record {
    if events == [] then map[] else Merged(events[..|events| - 1]) + events[|events| - 1].payload
  }

  /** The record stands in the section of the ride's last event, and in no other. */
  function Standing(history: seq<Event>, entries: Record): Slots {
    match |history|
    case 0 => Slots(None, None, None)
    case 1 => Slots(Some(entries), None, None)
    case 2 => Slots(None, Some(entries), None)
    case _ => Slots(None, None, Some(entries))
  }

  /**
   How many of the last payloads survive: a second delivery of an acceptance or completion finds its predecessor's
   record gone and starts again from the bare payload.
   */
  function Surviving(counts: seq<nat>): nat {
    if |counts| <= 1 then |counts|
    else if counts[|counts| - 1] > 1 then 1
    else 1 + Surviving(counts[..|counts| - 1])
  }

  lemma {:induction false} SurvivingRange(counts: seq<nat>)
    ensures Surviving(counts) <= |counts| && (counts != [] ==> Surviving(counts) >= 1)
  {
    if |counts| > 1 {
      SurvivingRange(counts[..|counts| - 1]);
    }
  }

  lemma {:induction false} AllSurviveExactly(counts: seq<nat>)
    ensures (forall i | 1 <= i < |counts| :: counts[i] <= 1) <==> Surviving(counts) == |counts|
  {
    if |counts| > 1 {
      SurvivingRange(counts[..|counts| - 1]);
      AllSurviveExactly(counts[..|counts| - 1]);
    }
  }

  /** Delivering an event a third time in a row changes nothing beyond the second. */
  lemma {:induction false} RepetitionSettles(events: seq<Event>, e: Event, n: nat)
    requires n >= 1
    ensures var first := Shift(FoldSlots(events), e);
            FoldSlots(events + Copies(e, n)) == if n == 1 then first else Shift(first, e)
  {
    var all := events + Copies(e, n);
    assert all[..|all| - 1] == events + Copies(e, n - 1);
    if n == 1 {
      assert events + Copies(e, 0) == events;
    } else {
      RepetitionSettles(events, e, n - 1);
    }
  }

  lemma MergedAppends(events: seq<Event>, e: Event)
    ensures Merged(events + [e]) == Merged(events) + e.payload
  {
    assert (events + [e])[..|events|] == events;
  }

  /** The last k events, and the ones before them. */
  function Tail(events: seq<Event>, k: nat): (tail: seq<Event>)
    requires k <= |events|
    ensures |tail| == k
  {
    events[|events| - k..]
  }

  function Lost(events: seq<Event>, k: nat): seq<Event>
    requires k <= |events|
  {
    events[..|events| - k]
  }

  lemma TailGrows(before: seq<Event>, e: Event, k: nat)
    requires k <= |before|
    ensures Tail(before + [e], k + 1) == Tail(before, k) + [e]
  {
  }

  lemma MergedTailGrows(before: seq<Event>, e: Event, k: nat)
    requires k <= |before|
    ensures Merged(Tail(before + [e], k + 1)) == Merged(Tail(before, k)) + e.payload
  {
    TailGrows(before, e, k);
    MergedAppends(Tail(before, k), e);
  }

  lemma MergedBare(before: seq<Event>, e: Event)
    ensures Merged(Tail(before + [e], 1)) == e.payload
  {
    MergedTailGrows(before, e, 0);
    assert Tail(before, 0) == [];
    assert map[] + e.payload == e.payload;
  }

  /** The first delivery of the next event merges, the second keeps the bare payload. */
  lemma NextEventShifts(before: seq<Event>, e: Event, entries: Record)
    requires Legal(before + [e]) && (before == [] ==> entries == map[])
    ensures Shift(Standing(before, entries), e) == Standing(before + [e], entries + e.payload)
    ensures Shift(Standing(before + [e], entries + e.payload), e) == Standing(before + [e], e.payload)
  {
    assert (before + [e])[|before|] == e;
    assert map[] + e.payload == e.payload;
  }

  /** The deliveries put a ride with this history in the section of its last event, the last k payloads merged. */
  predicate Leaves(deliveries: seq<Event>, history: seq<Event>, k: nat) {
    k <= |history| && FoldSlots(deliveries) == Standing(history, Merged(Tail(history, k)))
  }

  lemma LastEventDelivered(before: seq<Event>, deliveries: seq<Event>, e: Event, count: nat, k: nat)
    requires Legal(before + [e]) && count >= 1 && (before == [] <==> k == 0) && Leaves(deliveries, before, k)
    ensures Leaves(deliveries + Copies(e, count), before + [e], if count > 1 then 1 else k + 1)
  {
    RepetitionSettles(deliveries, e, count);
    NextEventShifts(before, e, Merged(Tail(before, k)));
    MergedBare(before, e);
    MergedTailGrows(before, e, k);
  }

  lemma OneMoreRepeated<T>(before: seq<T>, earlier: seq<nat>, e: T, count: nat)
    requires |before| == |earlier|
    ensures Repeated(before + [e], earlier + [count]) == Repeated(before, earlier) + Copies(e, count)
  {
    assert (before + [e])[..|before|] == before && (earlier + [count])[..|earlier|] == earlier;
  }

  lemma OneMoreSurvives(earlier: seq<nat>, count: nat)
    ensures Surviving(earlier + [count]) == if count > 1 then 1 else Surviving(earlier) + 1
  {
    assert (earlier + [count])[..|earlier|] == earlier;
  }

  lemma NextEventLeaves(before: seq<Event>, earlier: seq<nat>, e: Event, count: nat)
    requires |before| == |earlier| && count >= 1 && Legal(before + [e])
    requires Leaves(Repeated(before, earlier), before, Surviving(earlier))
    ensures Leaves(Repeated(before + [e], earlier + [count]), before + [e], Surviving(earlier + [count]))
  {
    var deliveries, k := Repeated(before, earlier), Surviving(earlier);
    assert before == [] <==> k == 0 by {
      SurvivingRange(earlier);
    }
    LastEventDelivered(before, deliveries, e, count, k);
    assert Surviving(earlier + [count]) == (if count > 1 then 1 else k + 1) by {
      OneMoreSurvives(earlier, count);
    }
    assert Repeated(before + [e], earlier + [count]) == deliveries + Copies(e, count) by {
      OneMoreRepeated(before, earlier, e, count);
    }
  }

  lemma FrontAndLast<T>(s: seq<T>)
    requires s != []
    ensures s[..|s| - 1] + [s[|s| - 1]] == s
  {
  }

  /** A ride's record after redeliveries: the section of its last event, the last payloads merged. */
  lemma {:induction false} RideAfterRedelivery(history: seq<Event>, counts: seq<nat>)
    requires |history| == |counts| && EachDelivered(counts) && Legal(history)
    ensures Leaves(Repeated(history, counts), history, Surviving(counts))
  {
    if history != [] {
      var n := |history| - 1;
      RideAfterRedelivery(history[..n], counts[..n]);
      FrontAndLast(history);
      FrontAndLast(counts);
      NextEventLeaves(history[..n], counts[..n], history[n], counts[n]);
    }
  }

  // ---------- any stream ----------

  ghost predicate Submap(a: Record, b: Record) {
    a.Keys <= b.Keys && forall k | k in a :: b[k] == a[k]
  }

  lemma MergeAssociates(a: Record, b: Record, c: Record)
    ensures (a + b) + c == a + (b + c)
  {
  }

  lemma {:induction false} MergedSplits(early: seq<Event>, late: seq<Event>)
    ensures Merged(early + late) == Merged(early) + Merged(late)
    decreases |late|
  {
    if late == [] {
      assert early + late == early;
      assert Merged(early) + map[] == Merged(early);
    } else {
      var n := |late| - 1;
      MergedSplits(early, late[..n]);
      MergedAppends(early + late[..n], late[n]);
      assert early + late == early + late[..n] + [late[n]];
      MergeAssociates(Merged(early), Merged(late[..n]), late[n].payload);
    }
  }

  lemma RightBiased(a: Record, b: Record)
    ensures Submap(b, a + b)
    ensures b == a + b <==> a.Keys <= b.Keys
  {
    if b == a + b {
      assert (a + b).Keys == a.Keys + b.Keys;
    }
  }

  lemma LastPayloadStays(kept: seq<Event>)
    requires kept != []
    ensures Submap(kept[|kept| - 1].payload, Merged(kept))
  {
    RightBiased(Merged(kept[..|kept| - 1]), kept[|kept| - 1].payload);
  }

  lemma MergedFromTail(own: seq<Event>, k: nat)
    requires k <= |own|
    ensures Merged(own) == Merged(Lost(own, k)) + Merged(Tail(own, k))
  {
    LostAndTail(own, k);
    MergedSplits(Lost(own, k), Tail(own, k));
  }

  lemma LostAndTail(own: seq<Event>, k: nat)
    requires k <= |own|
    ensures Lost(own, k) + Tail(own, k) == own
  {
  }

  lemma LastPayloadsMerge(own: seq<Event>, k: nat)
    requires 1 <= k <= |own|
    ensures var kept := Merged(Tail(own, k));
            && Submap(own[|own| - 1].payload, kept)
            && Submap(kept, Merged(own))
            && (kept == Merged(own) <==> Merged(Lost(own, k)).Keys <= kept.Keys)
  {
    MergedFromTail(own, k);
    RightBiased(Merged(Lost(own, k)), Merged(Tail(own, k)));
    LastPayloadStays(Tail(own, k));
    assert Tail(own, k)[k - 1] == own[|own| - 1];
  }

  /**
   Whatever the redeliveries, each ride with a legal history stands in the section it would stand in had every event
   come once. Its record is a merge of the last k >= 1 payloads: it extends the last one and is contained in the
   exactly-once record, and it is that record exactly when the lost payloads bring no key of their own.
   */
  lemma RedeliveryCharacterised(once: seq<Event>, counts: seq<nat>, ride: string)
    requires |once| == |counts| && EachDelivered(counts)
    requires Legal(Project(once, ride)) && Project(once, ride) != []
    ensures var own := Project(once, ride);
            var k := Surviving(ProjectCounts(once, counts, ride));
            && 1 <= k <= |own|
            && SlotsOf(Fold(once), ride) == Standing(own, Merged(own))
            && SlotsOf(Fold(Repeated(once, counts)), ride) == Standing(own, Merged(Tail(own, k)))
            && Submap(own[|own| - 1].payload, Merged(Tail(own, k)))
            && Submap(Merged(Tail(own, k)), Merged(own))
            && (Merged(Tail(own, k)) == Merged(own) <==> Merged(Lost(own, k)).Keys <= Merged(Tail(own, k)).Keys)
  {
    var k := SlotsAfterRedelivery(once, counts, ride);
    ExactlyOnce(once, ride);
    LastPayloadsMerge(Project(once, ride), k);
  }

  lemma SlotsAfterRedelivery(once: seq<Event>, counts: seq<nat>, ride: string) returns (k: nat)
    requires |once| == |counts| && EachDelivered(counts) && Legal(Project(once, ride))
    ensures k == Surviving(ProjectCounts(once, counts, ride)) <= |Project(once, ride)|
    ensures Project(once, ride) != [] ==> k >= 1
    ensures var own := Project(once, ride);
            SlotsOf(Fold(Repeated(once, counts)), ride) == Standing(own, Merged(Tail(own, k)))
  {
    ProjectionsAlign(once, counts, ride);
    RepetitionProjects(once, counts, ride);
    SurvivingRange(ProjectCounts(once, counts, ride));
    k := Surviving(ProjectCounts(once, counts, ride));
    RideDependsOnItsEvents(Repeated(once, counts), ride);
    RideAfterRedelivery(Project(once, ride), ProjectCounts(once, counts, ride));
  }

  lemma ExactlyOnce(once: seq<Event>, ride: string)
    requires Legal(Project(once, ride))
    ensures SlotsOf(Fold(once), ride) == Standing(Project(once, ride), Merged(Project(once, ride)))
  {
    RideDependsOnItsEvents(once, ride);
    RideDeliveredOnce(Project(once, ride));
  }

  lemma RideDeliveredOnce(own: seq<Event>)
    requires Legal(own)
    ensures FoldSlots(own) == Standing(own, Merged(own))
  {
    var ones := seq(|own|, i => 1);
    RideAfterRedelivery(own, ones);
    assert Surviving(ones) == |own| by {
      AllSurviveExactly(ones);
    }
    assert Repeated(own, ones) == own by {
      RepeatedOnce(own);
    }
    WholeTail(own);
  }

  lemma WholeTail(own: seq<Event>)
    ensures Tail(own, |own|) == own
  {
  }

  lemma {:induction false} RepeatedOnce(events: seq<Event>)
    ensures Repeated(events, seq(|events|, i => 1)) == events
  {
    if events != [] {
      var n := |events| - 1;
      assert seq(|events|, i => 1)[..n] == seq(n, i => 1);
      RepeatedOnce(events[..n]);
    }
  }

  /** When acceptance and completion were delivered once, repeated creations are invisible. */
  lemma OnlyCreationsRepeated(once: seq<Event>, counts: seq<nat>, ride: string)
    requires |once| == |counts| && EachDelivered(counts) && Legal(Project(once, ride))
    requires forall i | 0 <= i < |once| && Touches(once[i], ride) && !once[i].kind.Created? :: counts[i] == 1
    ensures SlotsOf(Fold(Repeated(once, counts)), ride) == SlotsOf(Fold(once), ride)
  {
    var own := Project(once, ride);
    var k := SlotsAfterRedelivery(once, counts, ride);
    ExactlyOnce(once, ride);
    AllSurvive(once, counts, ride);
    WholeTail(own);
  }

  lemma AllSurvive(once: seq<Event>, counts: seq<nat>, ride: string)
    requires |once| == |counts| && EachDelivered(counts) && Legal(Project(once, ride))
    requires forall i | 0 <= i < |once| && Touches(once[i], ride) && !once[i].kind.Created? :: counts[i] == 1
    ensures Surviving(ProjectCounts(once, counts, ride)) == |Project(once, ride)|
  {
    var own, ownCounts := Project(once, ride), ProjectCounts(once, counts, ride);
    LaterCountsAreOne(once, counts, ride);
    LegalStartsOnce(own);
    AllSurviveExactly(ownCounts);
  }

  lemma LegalStartsOnce(own: seq<Event>)
    requires Legal(own)
    ensures forall i | 1 <= i < |own| :: !own[i].kind.Created?
  {
  }

  lemma {:induction false} LaterCountsAreOne(once: seq<Event>, counts: seq<nat>, ride: string)
    requires |once| == |counts|
    requires forall i | 0 <= i < |once| && Touches(once[i], ride) && !once[i].kind.Created? :: counts[i] == 1
    ensures |ProjectCounts(once, counts, ride)| == |Project(once, ride)|
    ensures forall i | 0 <= i < |Project(once, ride)| && !Project(once, ride)[i].kind.Created? ::
              ProjectCounts(once, counts, ride)[i] == 1
  {
    ProjectionsAlign(once, counts, ride);
    if once != [] {
      var n := |once| - 1;
      ProjectionsAlign(once[..n], counts[..n], ride);
      LaterCountsAreOne(once[..n], counts[..n], ride);
    }
  }

  lemma FoldAppends(events: seq<Event>, e: Event)
    ensures FoldSlots(events + [e]) == Shift(FoldSlots(events), e)
  {
    assert (events + [e])[..|events|] == events;
  }

  lemma FoldOfTwo(created: Event, accepted: Event)
    requires created.kind.Created? && accepted.kind.Accepted?
    ensures FoldSlots([created, accepted]) == Slots(None, Some(created.payload + accepted.payload), None)
  {
    FoldAppends([], created);
    FoldAppends([created], accepted);
    assert [] + [created] == [created] && [created] + [accepted] == [created, accepted];
  }

  lemma FoldOfThree(created: Event, accepted: Event)
    requires created.kind.Created? && accepted.kind.Accepted?
    ensures FoldSlots([created, accepted, accepted]) == Slots(None, Some(accepted.payload), None)
  {
    FoldOfTwo(created, accepted);
    FoldAppends([created, accepted], accepted);
    assert [created, accepted] + [accepted] == [created, accepted, accepted];
    assert map[] + accepted.payload == accepted.payload;
  }

  /**
   In place, a redelivered acceptance loses what only the creation had said: each key of the creation's payload that
   the acceptance does not repeat is in the record after one delivery and gone after two.
   */
  lemma RedeliveredAcceptanceLosesKey(created: Event, accepted: Event, key: string)
    requires created.kind.Created? && accepted.kind.Accepted? && created.ride == accepted.ride
    requires key in created.payload && key !in accepted.payload
    ensures var once := SlotsOf(Fold([created, accepted]), created.ride);
            once.accepted.Some? && key in once.accepted.value
    ensures var twice := SlotsOf(Fold([created, accepted, accepted]), created.ride);
            twice == Slots(None, Some(accepted.payload), None) && key !in twice.accepted.value
  {
    var ride := created.ride;
    OwnEventsOnly([created, accepted], ride);
    OwnEventsOnly([created, accepted, accepted], ride);
    FoldOfTwo(created, accepted);
    FoldOfThree(created, accepted);
  }

  lemma OwnEventsOnly(events: seq<Event>, ride: string)
    requires forall i | 0 <= i < |events| :: Touches(events[i], ride)
    ensures SlotsOf(Fold(events), ride) == FoldSlots(events)
  {
    RideDependsOnItsEvents(events, ride);
    ProjectKeepsAll(events, ride);
  }

  lemma {:induction false} ProjectKeepsAll(events: seq<Event>, ride: string)
    requires forall i | 0 <= i < |events| :: Touches(events[i], ride)
    ensures Project(events, ride) == events
  {
    if events != [] {
      ProjectKeepsAll(events[..|events| - 1], ride);
    }
  }

  /** Not in place, redelivery is not harmless: a creation that comes back after the acceptance leaves two records. */
  lemma LateRedeliveryLeavesTwo(created: Event, accepted: Event)
    requires created.kind.Created? && accepted.kind.Accepted?
    ensures FoldSlots([created, accepted, created])
            == Slots(Some(created.payload), Some(created.payload + accepted.payload), None)
  {
    FoldOfTwo(created, accepted);
    FoldAppends([created, accepted], created);
    assert [created, accepted] + [created] == [created, accepted, created];
  }

  // ---------- streams of messages ----------

  /** How often each message that reaches the save was delivered. */
  function SavedCounts(once: seq<Message>, counts: seq<nat>): seq<nat>
    requires |once| == |counts|
  {
    if once == [] then []
    else
      var n := |once| - 1;
      SavedCounts(once[..n], counts[..n]) + if OutcomeOf(once[n]).Effective? then [counts[n]] else []
  }

  lemma {:induction false} SavedAlign(once: seq<Message>, counts: seq<nat>)
    requires |once| == |counts|
    ensures |SavedCounts(once, counts)| == |SavedEvents(once)|
    ensures EachDelivered(counts) ==> EachDelivered(SavedCounts(once, counts))
  {
    if once != [] {
      SavedAlign(once[..|once| - 1], counts[..|once| - 1]);
    }
  }

  lemma {:induction false} SavedAppends(a: seq<Message>, b: seq<Message>)
    ensures SavedEvents(a + b) == SavedEvents(a) + SavedEvents(b)
    decreases |b|
  {
    if b == [] {
      assert a + b == a;
    } else {
      var n := |b| - 1;
      assert (a + b)[..|a + b| - 1] == a + b[..n];
      SavedAppends(a, b[..n]);
    }
  }

  lemma {:induction false} SavedCopies(message: Message, n: nat)
    ensures SavedEvents(Copies(message, n))
            == match OutcomeOf(message) case Effective(e) => Copies(e, n) case _ => []
  {
    if n > 0 {
      assert Copies(message, n)[..n - 1] == Copies(message, n - 1);
      SavedCopies(message, n - 1);
    }
  }

  lemma SavedOfOneMore(before: seq<Message>, message: Message)
    ensures SavedEvents(before + [message])
            == SavedEvents(before) + match OutcomeOf(message) case Effective(e) => [e] case _ => []
  {
    assert (before + [message])[..|before|] == before;
  }

  lemma CountsOfOneMore(before: seq<Message>, earlier: seq<nat>, message: Message, count: nat)
    requires |before| == |earlier|
    ensures SavedCounts(before + [message], earlier + [count])
            == SavedCounts(before, earlier) + if OutcomeOf(message).Effective? then [count] else []
  {
    assert (before + [message])[..|before|] == before && (earlier + [count])[..|earlier|] == earlier;
  }

  lemma NothingAdded<T>(s: seq<T>)
    ensures s + [] == s
  {
  }

  lemma SavedOfRepeatedNext(before: seq<Message>, earlier: seq<nat>, message: Message, count: nat)
    requires |before| == |earlier| && |SavedCounts(before, earlier)| == |SavedEvents(before)|
    requires SavedEvents(Repeated(before, earlier)) == Repeated(SavedEvents(before), SavedCounts(before, earlier))
    ensures |SavedCounts(before + [message], earlier + [count])| == |SavedEvents(before + [message])|
    ensures SavedEvents(Repeated(before + [message], earlier + [count]))
            == Repeated(SavedEvents(before + [message]), SavedCounts(before + [message], earlier + [count]))
  {
    assert SavedEvents(Repeated(before + [message], earlier + [count]))
        == SavedEvents(Repeated(before, earlier)) + SavedEvents(Copies(message, count)) by {
      OneMoreRepeated(before, earlier, message, count);
      SavedAppends(Repeated(before, earlier), Copies(message, count));
    }
    SavedCopies(message, count);
    SavedOfOneMore(before, message);
    CountsOfOneMore(before, earlier, message, count);
    if OutcomeOf(message).Effective? {
      OneMoreRepeated(SavedEvents(before), SavedCounts(before, earlier), OutcomeOf(message).event, count);
    } else {
      NothingAdded(SavedEvents(before));
      NothingAdded(SavedCounts(before, earlier));
      NothingAdded(SavedEvents(Repeated(before, earlier)));
    }
  }

  /** The saved events of redelivered messages are the redelivered saved events. */
  lemma {:induction false} SavedOfRepeated(once: seq<Message>, counts: seq<nat>)
    requires |once| == |counts|
    ensures |SavedCounts(once, counts)| == |SavedEvents(once)|
    ensures SavedEvents(Repeated(once, counts)) == Repeated(SavedEvents(once), SavedCounts(once, counts))
  {
    if once != [] {
      var n := |once| - 1;
      SavedOfRepeated(once[..n], counts[..n]);
      SavedOfRepeatedNext(once[..n], counts[..n], once[n], counts[n]);
      FrontAndLast(once);
      FrontAndLast(counts);
    }
  }

  /** What is stored after these messages, for one ride. */
  function StoredFor(messages: seq<Message>, ride: string): Slots {
    SlotsOf(Loaded(DeliverAll(messages)), ride)
  }

  /** The characterisation, for messages: what the file holds of a ride after deliveries of whatever messages came. */
  lemma RedeliveredMessages(once: seq<Message>, counts: seq<nat>, ride: string)
    requires |once| == |counts| && EachDelivered(counts)
    requires Legal(Project(SavedEvents(once), ride)) && Project(SavedEvents(once), ride) != []
    ensures |SavedCounts(once, counts)| == |SavedEvents(once)|
    ensures var own := Project(SavedEvents(once), ride);
            var k := Surviving(ProjectCounts(SavedEvents(once), SavedCounts(once, counts), ride));
            && 1 <= k <= |own|
            && StoredFor(once, ride) == Standing(own, Merged(own))
            && StoredFor(Repeated(once, counts), ride) == Standing(own, Merged(Tail(own, k)))
            && Submap(own[|own| - 1].payload, Merged(Tail(own, k)))
            && Submap(Merged(Tail(own, k)), Merged(own))
            && (Merged(Tail(own, k)) == Merged(own) <==> Merged(Lost(own, k)).Keys <= Merged(Tail(own, k)).Keys)
  {
    SavedAlign(once, counts);
    SavedOfRepeated(once, counts);
    RedeliveryCharacterised(SavedEvents(once), SavedCounts(once, counts), ride);
    StoredForFold(once, ride);
    StoredForFold(Repeated(once, counts), ride);
  }

  lemma StoredForFold(messages: seq<Message>, ride: string)
    ensures StoredFor(messages, ride) == SlotsOf(Fold(SavedEvents(messages)), ride)
  {
    StoredIsFoldOfSaved(messages);
  }

  /**
   A creation message and an acceptance message of the same ride: a key that only the creation carries is stored with
   the accepted ride, and gone once the acceptance has been delivered a second time.
   */
  lemma RedeliveredMessageLosesKey(created: Message, accepted: Message, ride: string, order: Record, taken: Record,
                                   key: string)
    requires RideMessage(created, "ride.created", ride, order)
    requires RideMessage(accepted, "ride.accepted", ride, taken)
    requires key in order && key !in taken
    ensures StoredFor([created, accepted], ride) == Slots(None, Some(order + taken), None) && key in order + taken
    ensures StoredFor([created, accepted, accepted], ride) == Slots(None, Some(taken), None)
  {
    RideMessageIsEvent(created, "ride.created", ride, order);
    RideMessageIsEvent(accepted, "ride.accepted", ride, taken);
    var order', taken' := OutcomeOf(created).event, OutcomeOf(accepted).event;
    StoredOfTwo(created, accepted, order', taken', ride);
    StoredOfThree(created, accepted, order', taken', ride);
    FoldOfTwo(order', taken');
    FoldOfThree(order', taken');
  }

  lemma SavedOfTwo(first: Message, second: Message, e: Event, f: Event)
    requires OutcomeOf(first) == Effective(e) && OutcomeOf(second) == Effective(f)
    ensures SavedEvents([first, second]) == [e, f]
  {
    assert SavedEvents([first]) == [e] by {
      SavedOfOneMore([], first);
      assert [] + [first] == [first];
    }
    SavedOfOneMore([first], second);
    assert [first] + [second] == [first, second];
  }

  lemma SavedOfThree(first: Message, second: Message, e: Event, f: Event)
    requires OutcomeOf(first) == Effective(e) && OutcomeOf(second) == Effective(f)
    ensures SavedEvents([first, second, second]) == [e, f, f]
  {
    SavedOfTwo(first, second, e, f);
    SavedOfOneMore([first, second], second);
    assert [first, second] + [second] == [first, second, second];
  }

  lemma StoredOfTwo(first: Message, second: Message, e: Event, f: Event, ride: string)
    requires OutcomeOf(first) == Effective(e) && OutcomeOf(second) == Effective(f)
    requires Touches(e, ride) && Touches(f, ride)
    ensures StoredFor([first, second], ride) == FoldSlots([e, f])
  {
    assert SavedEvents([first, second]) == [e, f] by {
      SavedOfTwo(first, second, e, f);
    }
    StoredForFold([first, second], ride);
    OwnEventsOnly([e, f], ride);
  }

  lemma StoredOfThree(first: Message, second: Message, e: Event, f: Event, ride: string)
    requires OutcomeOf(first) == Effective(e) && OutcomeOf(second) == Effective(f)
    requires Touches(e, ride) && Touches(f, ride)
    ensures StoredFor([first, second, second], ride) == FoldSlots([e, f, f])
  {
    assert SavedEvents([first, second, second]) == [e, f, f] by {
      SavedOfThree(first, second, e, f);
    }
    StoredForFold([first, second, second], ride);
    OwnEventsOnly([e, f, f], ride);
  }
}

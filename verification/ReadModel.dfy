/**
 The event consumer and the read model it keeps in a file. Messages are handled one at a time; a message is
 acknowledged after it is processed and requeued when processing raises.
 */
module ReadModel {
  import opened Basics
  import opened Strings

  /** A value inside a payload. `Other` is any further JSON value, told apart by the text Python's `str` gives it. */
  datatype Json = Null | Bool(b: bool) | Int(n: int) | Text(s: string) | Other(text: string)

  type Record = map<string, Json>

  datatype Field = Dict(entries: Record) | Value(value: Json)

  /** A message body; `NotADict` when it does not decode, does not parse or is no dictionary. */
  datatype Message = NotADict | Document(fields: map<string, Field>)

  function PyStr(j: Json): string {
    match j
    case Null => "None"
    case Bool(b) => if b then "True" else "False"
    case Int(n) => IntText(n)
    case Text(s) => s
    case Other(text) => text
  }

  datatype Summary = Summary(eventType: string, eventId: Field, occurredAt: Field)

  datatype Model = Model(active: map<string, Record>, accepted: map<string, Record>, completed: map<string, Record>,
                         lastEvents: seq<Summary>)

  const EMPTY_MODEL := Model(map[], map[], map[], [])

  const KEPT_EVENTS := 20

  datatype Kind = Created | Accepted | Completed | NoRide

  /** A ride event that can be applied to the model. */
  datatype Event = Event(kind: Kind, ride: string, payload: Record, summary: Summary)

  datatype Outcome = Raises | Ignored | Effective(event: Event)

  function KindOf(eventType: string): Kind {
    if eventType == "ride.created" then Created
    else if eventType == "ride.accepted" then Accepted
    else if eventType == "ride.completed" then Completed
    else NoRide
  }

  function HasRideId(payload: Field): bool {
    payload.Dict? && "ride_id" in payload.entries
  }

  /** A Python dictionary value used where its text is needed; a nested dictionary counts as `Other`. */
  function RideKey(payload: Record): string
    requires "ride_id" in payload
  {
    PyStr(payload["ride_id"])
  }

  function OutcomeOf(message: Message): Outcome {
    if message.NotADict? || "event_type" !in message.fields || "payload" !in message.fields then Raises
    else
      var fields := message.fields;
      match fields["event_type"]
      case Value(Text(eventType)) =>
        if !("ride." <= eventType) then Ignored
        else
          var kind, payload := KindOf(eventType), fields["payload"];
          if (kind != NoRide && !HasRideId(payload)) || "event_id" !in fields || "occurred_at" !in fields then Raises
          else
            var summary := Summary(eventType, fields["event_id"], fields["occurred_at"]);
            if kind == NoRide then Effective(Event(NoRide, "", map[], summary))
            else Effective(Event(kind, RideKey(payload.entries), payload.entries, summary))
      case _ => Raises
  }

  function RecordIn(section: map<string, Record>, ride: string): Record {
    if ride in section then section[ride] else map[]
  }

  function LastN<T>(s: seq<T>, n: nat): seq<T> {
    if |s| <= n then s else s[|s| - n..]
  }

  function ApplyEvent(m: Model, e: Event): Model {
    var moved := match e.kind
      case Created => m.(active := m.active[e.ride := e.payload])
      case Accepted =>
        m.(active := m.active - {e.ride}, accepted := m.accepted[e.ride := RecordIn(m.active, e.ride) + e.payload])
      case Completed =>
        m.(accepted := m.accepted - {e.ride},
           completed := m.completed[e.ride := RecordIn(m.accepted, e.ride) + e.payload])
      case NoRide => m;
    moved.(lastEvents := LastN(m.lastEvents + [e.summary], KEPT_EVENTS))
  }

  function Loaded(stored: Option<Model>): Model {
    match stored
    case Some(m) => m
    case None => EMPTY_MODEL
  }

  function Deliver(stored: Option<Model>, message: Message): Option<Model> {
    match OutcomeOf(message)
    case Effective(event) => Some(ApplyEvent(Loaded(stored), event))
    case _ => stored
  }

  // ---------- what a delivery does, message by message ----------

  /** The text under which a ride is filed: Python's `str` of the identifier. */
  ghost predicate NamesRide(id: Json, ride: string) {
    match id
    case Int(n) => ride == IntText(n)
    case Text(s) => ride == s
    case Bool(b) => ride == if b then "True" else "False"
    case Null => ride == "None"
    case Other(text) => ride == text
  }

  /** A complete message of this type about this ride. */
  ghost predicate RideMessage(message: Message, eventType: string, ride: string, payload: Record) {
    && message.Document?
    && "event_type" in message.fields && message.fields["event_type"] == Value(Text(eventType))
    && "payload" in message.fields && message.fields["payload"] == Dict(payload)
    && "ride_id" in payload && NamesRide(payload["ride_id"], ride)
    && "event_id" in message.fields && "occurred_at" in message.fields
  }

  /** The last 20 summaries, the newest naming this message. */
  ghost predicate Noted(before: seq<Summary>, message: Message, eventType: string, after: seq<Summary>) {
    && message.Document? && "event_id" in message.fields && "occurred_at" in message.fields
    && var all := before + [Summary(eventType, message.fields["event_id"], message.fields["occurred_at"])];
       after == if |all| > 20 then all[|all| - 20..] else all
  }

  /** A complete ride message enters or moves its ride, the record merged with the payload, and is noted. */
  ghost predicate Moved(was: Model, message: Message, eventType: string, ride: string, payload: Record, now: Model) {
    && Noted(was.lastEvents, message, eventType, now.lastEvents)
    && if eventType == "ride.created" then
         && now.active == was.active[ride := payload]
         && now.accepted == was.accepted && now.completed == was.completed
       else if eventType == "ride.accepted" then
         && now.active == was.active - {ride}
         && now.accepted
            == was.accepted[ride := (if ride in was.active then was.active[ride] else map[]) + payload]
         && now.completed == was.completed
       else
         && now.active == was.active
         && now.accepted == was.accepted - {ride}
         && now.completed
            == was.completed[ride := (if ride in was.accepted then was.accepted[ride] else map[]) + payload]
  }

  predicate MovesRides(eventType: string) {
    eventType == "ride.created" || eventType == "ride.accepted" || eventType == "ride.completed"
  }

  /** The consumer can process the message without raising. */
  ghost predicate Processable(message: Message) {
    && message.Document? && "event_type" in message.fields && "payload" in message.fields
    && exists eventType ::
         && message.fields["event_type"] == Value(Text(eventType))
         && ("ride." <= eventType ==> "event_id" in message.fields && "occurred_at" in message.fields)
         && (MovesRides(eventType) ==>
               message.fields["payload"].Dict? && "ride_id" in message.fields["payload"].entries)
  }

  /** How handling a message changes the model, and whether it is acknowledged. */
  ghost predicate Handled(before: Option<Model>, message: Message, after: Option<Model>, acked: bool) {
    var was := if before.Some? then before.value else Model(map[], map[], map[], []);
    && (acked <==> Processable(message))
    && (!acked ==> after == before)
    && (forall eventType, ride, payload | MovesRides(eventType) && RideMessage(message, eventType, ride, payload) ::
          acked && after.Some? && Moved(was, message, eventType, ride, payload, after.value))
    && (acked ==> forall eventType | message.fields["event_type"] == Value(Text(eventType)) ::
          && (!("ride." <= eventType) ==> after == before)
          && ("ride." <= eventType && !MovesRides(eventType) ==>
                && after.Some? && Noted(was.lastEvents, message, eventType, after.value.lastEvents)
                && after.value == was.(lastEvents := after.value.lastEvents))
          && (MovesRides(eventType) ==> exists ride, payload :: RideMessage(message, eventType, ride, payload)))
  }

  lemma ProcessableExactly(message: Message)
    ensures OutcomeOf(message) != Raises <==> Processable(message)
  {
    if OutcomeOf(message) != Raises {
      var eventType := message.fields["event_type"].value.s;
      assert message.fields["event_type"] == Value(Text(eventType));
    }
  }

  lemma CompleteRideMessage(message: Message, eventType: string)
    requires Processable(message) && message.fields["event_type"] == Value(Text(eventType)) && MovesRides(eventType)
    ensures exists ride, payload :: RideMessage(message, eventType, ride, payload)
  {
    var payload := message.fields["payload"].entries;
    assert RideMessage(message, eventType, PyStr(payload["ride_id"]), payload);
  }

  /** A complete ride message is the event of its type, ride and payload. */
  lemma RideMessageIsEvent(message: Message, eventType: string, ride: string, payload: Record)
    requires RideMessage(message, eventType, ride, payload) && MovesRides(eventType)
    ensures var kind := if eventType == "ride.created" then Created
                        else if eventType == "ride.accepted" then Accepted else Completed;
            var summary := Summary(eventType, message.fields["event_id"], message.fields["occurred_at"]);
            OutcomeOf(message) == Effective(Event(kind, ride, payload, summary))
  {
  }

  lemma RideMessageMoves(stored: Option<Model>, message: Message, eventType: string, ride: string, payload: Record)
    requires RideMessage(message, eventType, ride, payload) && MovesRides(eventType)
    ensures Deliver(stored, message).Some?
    ensures var was := if stored.Some? then stored.value else Model(map[], map[], map[], []);
            Moved(was, message, eventType, ride, payload, Deliver(stored, message).value)
  {
    RideMessageIsEvent(message, eventType, ride, payload);
  }

  lemma OtherMessagesMoveNothing(stored: Option<Model>, message: Message, eventType: string)
    requires Processable(message) && message.fields["event_type"] == Value(Text(eventType)) && !MovesRides(eventType)
    ensures !("ride." <= eventType) ==> Deliver(stored, message) == stored
    ensures var was := if stored.Some? then stored.value else Model(map[], map[], map[], []);
            var now := Deliver(stored, message);
            "ride." <= eventType ==>
              && now.Some? && Noted(was.lastEvents, message, eventType, now.value.lastEvents)
              && now.value == was.(lastEvents := now.value.lastEvents)
  {
  }

  lemma DeliveryIsHandled(stored: Option<Model>, message: Message)
    ensures Handled(stored, message, Deliver(stored, message), OutcomeOf(message) != Raises)
  {
    ProcessableExactly(message);
    forall eventType, ride, payload | MovesRides(eventType) && RideMessage(message, eventType, ride, payload)
      ensures OutcomeOf(message) != Raises && Deliver(stored, message).Some?
      ensures var was := if stored.Some? then stored.value else Model(map[], map[], map[], []);
              Moved(was, message, eventType, ride, payload, Deliver(stored, message).value)
    {
      RideMessageIsEvent(message, eventType, ride, payload);
      RideMessageMoves(stored, message, eventType, ride, payload);
    }
    if Processable(message) {
      var eventType := message.fields["event_type"].value.s;
      if MovesRides(eventType) {
        CompleteRideMessage(message, eventType);
      } else {
        OtherMessagesMoveNothing(stored, message, eventType);
      }
    }
  }

  class Consumer {
    /** The read-model file; absent before the first save. */
    var stored: Option<Model>

    constructor ()
      ensures stored == None
    {
      stored := None;
    }

    /** `saved` is false when the update raises, which can happen after entries were popped from the loaded copy. */
    method UpdateReadModel(eventType: string, fields: map<string, Field>) returns (saved: bool)
      requires "payload" in fields && "event_type" in fields && fields["event_type"] == Value(Text(eventType))
      requires "ride." <= eventType
      modifies this
      ensures saved <==> OutcomeOf(Document(fields)) != Raises
      ensures stored == Deliver(old(stored), Document(fields))
    {
      var model := Loaded(stored);
      var active, accepted, completed, lastEvents := model.active, model.accepted, model.completed, model.lastEvents;
      var payload := fields["payload"];
      if eventType == "ride.created" {
        if !HasRideId(payload) { return false; }
        var ride := PyStr(payload.entries["ride_id"]);
        active := active[ride := payload.entries];
      } else if eventType == "ride.accepted" {
        if !HasRideId(payload) { return false; }
        var ride := PyStr(payload.entries["ride_id"]);
        var entry := if ride in active then active[ride] else map[];
        active := active - {ride};
        entry := entry + payload.entries;
        accepted := accepted[ride := entry];
      } else if eventType == "ride.completed" {
        if !HasRideId(payload) { return false; }
        var ride := PyStr(payload.entries["ride_id"]);
        var entry := if ride in accepted then accepted[ride] else map[];
        accepted := accepted - {ride};
        entry := entry + payload.entries;
        completed := completed[ride := entry];
      }
      if "event_id" !in fields || "occurred_at" !in fields {
        return false;
      }
      lastEvents := lastEvents + [Summary(eventType, fields["event_id"], fields["occurred_at"])];
      if |lastEvents| > KEPT_EVENTS {
        lastEvents := lastEvents[|lastEvents| - KEPT_EVENTS..];
      }
      stored := Some(Model(active, accepted, completed, lastEvents));
      return true;
    }

    /** True acknowledges the message, false returns it to the queue. */
    method HandleMessage(message: Message) returns (acked: bool)
      modifies this
      ensures acked <==> OutcomeOf(message) != Raises
      ensures stored == Deliver(old(stored), message)
      ensures Handled(old(stored), message, stored, acked)
    {
      DeliveryIsHandled(stored, message);
      if message.NotADict? || "event_type" !in message.fields || "payload" !in message.fields {
        return false;
      }
      var eventType := message.fields["event_type"];
      if !eventType.Value? || !eventType.value.Text? {
        return false;
      }
      if "ride." <= eventType.value.s {
        acked := UpdateReadModel(eventType.value.s, message.fields);
        assert Document(message.fields) == message;
      } else {
        acked := true;
      }
    }
  }

  // ---------- what is stored is the fold over the saved events ----------

  function Fold(events: seq<Event>): Model {
    if events == [] then EMPTY_MODEL else ApplyEvent(Fold(events[..|events| - 1]), events[|events| - 1])
  }

  function DeliverAll(messages: seq<Message>): Option<Model> {
    if messages == [] then None else Deliver(DeliverAll(messages[..|messages| - 1]), messages[|messages| - 1])
  }

  /** The events of the deliveries that reached the save. */
  function SavedEvents(messages: seq<Message>): seq<Event> {
    if messages == [] then []
    else
      SavedEvents(messages[..|messages| - 1])
      + match OutcomeOf(messages[|messages| - 1]) case Effective(e) => [e] case _ => []
  }

  function Summaries(events: seq<Event>): seq<Summary> {
    seq(|events|, i requires 0 <= i < |events| => events[i].summary)
  }

  lemma {:induction false} LastEventsAreTheLast(events: seq<Event>)
    ensures Fold(events).lastEvents == LastN(Summaries(events), KEPT_EVENTS)
  {
    if events != [] {
      var before, newest := events[..|events| - 1], events[|events| - 1].summary;
      LastEventsAreTheLast(before);
      assert Summaries(events) == Summaries(before) + [newest];
    }
  }

  lemma {:induction false} StoredIsFoldOfSaved(messages: seq<Message>)
    ensures DeliverAll(messages) == if SavedEvents(messages) == [] then None else Some(Fold(SavedEvents(messages)))
    ensures Loaded(DeliverAll(messages)).lastEvents == LastN(Summaries(SavedEvents(messages)), KEPT_EVENTS)
  {
    LastEventsAreTheLast(SavedEvents(messages));
    if messages != [] {
      var before := messages[..|messages| - 1];
      StoredIsFoldOfSaved(before);
      var saved := SavedEvents(messages);
      if OutcomeOf(messages[|messages| - 1]).Effective? {
        assert saved[..|saved| - 1] == SavedEvents(before);
      } else {
        assert saved == SavedEvents(before);
      }
    }
  }

  // ---------- rides are independent of each other ----------

  /** Where one ride's record stands in the three sections. */
  datatype Slots = Slots(active: Option<Record>, accepted: Option<Record>, completed: Option<Record>)

  function Slot(section: map<string, Record>, ride: string): Option<Record> {
    if ride in section then Some(section[ride]) else None
  }

  function SlotsOf(m: Model, ride: string): Slots {
    Slots(Slot(m.active, ride), Slot(m.accepted, ride), Slot(m.completed, ride))
  }

  function OrEmpty(r: Option<Record>): Record {
    match r
    case Some(entries) => entries
    case None => map[]
  }

  function Shift(slots: Slots, e: Event): Slots {
    match e.kind
    case Created => slots.(active := Some(e.payload))
    case Accepted => slots.(active := None, accepted := Some(OrEmpty(slots.active) + e.payload))
    case Completed => slots.(accepted := None, completed := Some(OrEmpty(slots.accepted) + e.payload))
    case NoRide => slots
  }

  function FoldSlots(events: seq<Event>): Slots {
    if events == [] then Slots(None, None, None)
    else Shift(FoldSlots(events[..|events| - 1]), events[|events| - 1])
  }

  predicate Touches(e: Event, ride: string) {
    e.kind != NoRide && e.ride == ride
  }

  function Project(events: seq<Event>, ride: string): seq<Event> {
    if events == [] then []
    else
      Project(events[..|events| - 1], ride)
      + if Touches(events[|events| - 1], ride) then [events[|events| - 1]] else []
  }

  lemma EventShiftsItsRide(m: Model, e: Event, ride: string)
    ensures SlotsOf(ApplyEvent(m, e), ride)
            == if Touches(e, ride) then Shift(SlotsOf(m, ride), e) else SlotsOf(m, ride)
  {
  }

  /** A ride's record is decided by its own events alone. */
  lemma {:induction false} RideDependsOnItsEvents(events: seq<Event>, ride: string)
    ensures SlotsOf(Fold(events), ride) == FoldSlots(Project(events, ride))
  {
    if events != [] {
      var before, e := events[..|events| - 1], events[|events| - 1];
      RideDependsOnItsEvents(before, ride);
      var own := Project(events, ride);
      EventShiftsItsRide(Fold(before), e, ride);
      if Touches(e, ride) {
        assert own[..|own| - 1] == Project(before, ride);
      } else {
        assert own == Project(before, ride);
      }
    }
  }

  /** Event sequences with the same events for each ride, in the same order, give the same three sections. */
  lemma ReorderingAcrossRidesIsHarmless(one: seq<Event>, other: seq<Event>)
    requires forall ride :: Project(one, ride) == Project(other, ride)
    ensures Fold(one).active == Fold(other).active
    ensures Fold(one).accepted == Fold(other).accepted
    ensures Fold(one).completed == Fold(other).completed
  {
    forall ride ensures SlotsOf(Fold(one), ride) == SlotsOf(Fold(other), ride) {
      RideDependsOnItsEvents(one, ride);
      RideDependsOnItsEvents(other, ride);
    }
    assert forall ride :: Slot(Fold(one).active, ride) == SlotsOf(Fold(one), ride).active;
    assert forall ride :: Slot(Fold(one).accepted, ride) == SlotsOf(Fold(one), ride).accepted;
    assert forall ride :: Slot(Fold(one).completed, ride) == SlotsOf(Fold(one), ride).completed;
    SameSlotsSameSection(Fold(one).active, Fold(other).active);
    SameSlotsSameSection(Fold(one).accepted, Fold(other).accepted);
    SameSlotsSameSection(Fold(one).completed, Fold(other).completed);
  }

  lemma SameSlotsSameSection(a: map<string, Record>, b: map<string, Record>)
    requires forall ride :: Slot(a, ride) == Slot(b, ride)
    ensures a == b
  {
    forall ride ensures ride in a <==> ride in b {
      assert Slot(a, ride) == Slot(b, ride);
    }
    forall ride | ride in a ensures a[ride] == b[ride] {
      assert Slot(a, ride) == Slot(b, ride);
    }
  }
}

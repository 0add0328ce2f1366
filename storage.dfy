/** An in-memory stand-in for the database the handlers reach through the
    Prisma client: two tables keyed by generated ids, the writes the handlers
    issue, and the error kinds those writes fail with.

    A write receives the raw request body spread into its `data` argument.
    Before it touches a table, the client checks that argument: a key that is
    not a scalar column of the table, a column value of the wrong JSON type,
    or an invalid Date is rejected (an error without a code, `Other` here).
    Then the table rules apply: updating or deleting a missing id fails with
    `NotFound` (code P2025); a clash on the generated id or on the pair
    (email, eventId) of a participant fails with `Duplicate` (code P2002); a
    participant whose eventId names no event fails with `Other` (a foreign
    key violation). The schema itself is not part of this model: the
    uniqueness of (email, eventId) and the referential rule on event
    deletion are assumptions about it. */
module Storage {
  import opened Js

  type Id = string

  /** A JavaScript Date: milliseconds since the epoch. */
  datatype Date = Date(epochMillis: int)

  datatype Event = Event(name: string, description: Option<string>, date: Date, location: string, capacity: int)

  datatype Participant = Participant(name: string, email: string, phone: Option<string>, eventId: Id)

  datatype StoreError = NotFound | Duplicate | Other

  datatype Result<+T> = Ok(value: T) | Err(error: StoreError)

  /** The contents of the two tables. */
  datatype Db = Db(events: map<Id, Event>, participants: map<Id, Participant>)

  /** What a write returns, and the tables after it. */
  datatype Written<+T> = Written(result: Result<T>, db: Db)

  /** What the schema does to the participants of a deleted event. */
  datatype DeleteRule = Cascade | Restrict

  /** The participants of an event, as `include: { participants: true }` loads them. */
  function ParticipantsOf(db: Db, eventId: Id): map<Id, Participant> {
    map pid | pid in db.participants && db.participants[pid].eventId == eventId :: db.participants[pid]
  }

  /** How many participants an event has. */
  function Count(db: Db, eventId: Id): nat {
    |ParticipantsOf(db, eventId)|
  }

  /** Every participant belongs to an existing event. */
  ghost predicate ReferencesIntact(db: Db) {
    forall pid :: pid in db.participants ==> db.participants[pid].eventId in db.events
  }

  /** No two participants of one event share an email. */
  ghost predicate EmailsUniquePerEvent(db: Db) {
    forall a, b ::
      a in db.participants && b in db.participants && a != b &&
      db.participants[a].eventId == db.participants[b].eventId
      ==> db.participants[a].email != db.participants[b].email
  }

  /** What the database's own constraints keep true. */
  ghost predicate Consistent(db: Db) {
    ReferencesIntact(db) && EmailsUniquePerEvent(db)
  }

  /** No event holds more participants than its capacity. The database does
      not enforce this; only the registration handler checks it. */
  ghost predicate WithinCapacity(db: Db) {
    forall eid :: eid in db.events ==> Count(db, eid) <= db.events[eid].capacity
  }

  /** Some participant other than `self` already has this (email, eventId). */
  predicate EmailTaken(db: Db, self: Id, eventId: Id, email: string) {
    exists other :: other in db.participants && other != self &&
      db.participants[other].eventId == eventId && db.participants[other].email == email
  }

  // ---------------------------------------------------------------------
  // Turning a raw body into column values

  /** The `date` argument of an event write: `new Date(...)` (`None` for
      an invalid Date) or `undefined` (leave the column as it is). */
  datatype DateArg = NewDate(parsed: Option<Date>) | Undefined

  /** The column values a write sets; `None` leaves a column out. */
  datatype EventData = EventData(
    name: Option<string>, description: Option<string>, date: Option<Date>,
    location: Option<string>, capacity: Option<int>)

  datatype ParticipantData = ParticipantData(
    name: Option<string>, email: Option<string>, phone: Option<string>, eventId: Option<Id>)

  const EventColumns: set<string> := {"name", "description", "date", "location", "capacity"}
  const ParticipantColumns: set<string> := {"name", "email", "phone", "eventId"}

  predicate TextColumn(body: Record, key: string) {
    key !in body || body[key].JString?
  }

  predicate IntColumn(body: Record, key: string) {
    key !in body || (body[key].JNumber? && IsInteger(body[key].n))
  }

  function TextOf(body: Record, key: string): Option<string>
    requires TextColumn(body, key)
  {
    if key in body then Some(body[key].s) else None
  }

  function IntOf(body: Record, key: string): Option<int>
    requires IntColumn(body, key)
  {
    if key in body then Some(body[key].n.Floor) else None
  }

  /** The client-side check of `data: { ...body, date }` for an event. The
      `date` key of the body is always replaced by the explicit argument. */
  predicate EventDataOk(body: Record, date: DateArg) {
    && (forall k :: k in body ==> k in EventColumns)
    && TextColumn(body, "name") && TextColumn(body, "description")
    && TextColumn(body, "location") && IntColumn(body, "capacity")
    && date != NewDate(None)
  }

  function EventDataOf(body: Record, date: DateArg): (d: Option<EventData>)
    ensures d.Some? <==> EventDataOk(body, date)
    ensures d.Some? ==> d.value.date == (if date.NewDate? then date.parsed else None)
    ensures d.Some? ==> forall k :: k in body ==> k in EventColumns
  {
    if EventDataOk(body, date) then
      Some(EventData(TextOf(body, "name"), TextOf(body, "description"),
        if date.NewDate? then date.parsed else None,
        TextOf(body, "location"), IntOf(body, "capacity")))
    else None
  }

  /** The client-side check of `data: { ...body }` for a participant. */
  predicate ParticipantDataOk(body: Record) {
    && (forall k :: k in body ==> k in ParticipantColumns)
    && TextColumn(body, "name") && TextColumn(body, "email")
    && TextColumn(body, "phone") && TextColumn(body, "eventId")
  }

  function ParticipantDataOf(body: Record): (d: Option<ParticipantData>)
    ensures d.Some? <==> ParticipantDataOk(body)
  {
    if ParticipantDataOk(body) then
      Some(ParticipantData(TextOf(body, "name"), TextOf(body, "email"),
        TextOf(body, "phone"), TextOf(body, "eventId")))
    else None
  }

  /** The body's own `date` key never reaches the table: whatever it holds,
      the write data are those of the explicit `date` argument. */
  lemma BodyDateIsIgnored(body: Record, date: DateArg, v: Json)
    ensures EventDataOf(body["date" := v], date) == EventDataOf(body, date)
  {
    var b := body["date" := v];
    assert forall k :: k != "date" ==> (k in b <==> k in body);
    assert forall k :: k != "date" && k in body ==> b[k] == body[k];
  }

  function Override<T>(current: T, given: Option<T>): T {
    if given.Some? then given.value else current
  }

  /** An event with the given columns overwritten and the others kept. */
  function PatchEvent(e: Event, d: EventData): (e': Event)
    ensures d.name.None? && d.description.None? && d.date.None? && d.location.None? && d.capacity.None? ==> e' == e
  {
    Event(Override(e.name, d.name),
      if d.description.Some? then d.description else e.description,
      Override(e.date, d.date), Override(e.location, d.location), Override(e.capacity, d.capacity))
  }

  function PatchParticipant(p: Participant, d: ParticipantData): (p': Participant)
    ensures d.name.None? && d.email.None? && d.phone.None? && d.eventId.None? ==> p' == p
  {
    Participant(Override(p.name, d.name), Override(p.email, d.email),
      if d.phone.Some? then d.phone else p.phone, Override(p.eventId, d.eventId))
  }

  // ---------------------------------------------------------------------
  // The writes, on table contents

  /** `prisma.event.create` with the generated id `id`. */
  function CreateEventIn(db: Db, id: Id, body: Record, date: DateArg): (w: Written<Event>)
    ensures w.result.Err? ==> w.db == db && w.result.error != NotFound
    ensures w.result.Ok? ==> id !in db.events && w.db == db.(events := db.events[id := w.result.value])
    ensures w.result.Ok? <==>
      EventDataOk(body, date) && date.NewDate? && id !in db.events &&
      "name" in body && "location" in body && "capacity" in body
    ensures Consistent(db) ==> Consistent(w.db)
  {
    match EventDataOf(body, date)
    case None => Written(Err(Other), db)
    case Some(d) =>
      if d.name.None? || d.date.None? || d.location.None? || d.capacity.None? then Written(Err(Other), db)
      else if id in db.events then Written(Err(Duplicate), db)
      else
        var e := Event(d.name.value, d.description, d.date.value, d.location.value, d.capacity.value);
        Written(Ok(e), db.(events := db.events[id := e]))
  }

  /** `prisma.event.update({ where: { id }, data })`. */
  function UpdateEventIn(db: Db, id: Id, body: Record, date: DateArg): (w: Written<Event>)
    ensures w.result.Err? ==> w.db == db && w.result.error != Duplicate
    ensures w.result == Err(NotFound) <==> EventDataOk(body, date) && id !in db.events
    ensures w.result.Ok? ==> id in db.events && w.db == db.(events := db.events[id := w.result.value])
    ensures w.result.Ok? <==> EventDataOk(body, date) && id in db.events
    ensures w.result.Ok? ==> w.result.value == PatchEvent(db.events[id], EventDataOf(body, date).value)
    ensures Consistent(db) ==> Consistent(w.db)
  {
    match EventDataOf(body, date)
    case None => Written(Err(Other), db)
    case Some(d) =>
      if id !in db.events then Written(Err(NotFound), db)
      else
        var e := PatchEvent(db.events[id], d);
        Written(Ok(e), db.(events := db.events[id := e]))
  }

  /** The participants left when the participants of `eventId` are removed. */
  function ParticipantsNotOf(db: Db, eventId: Id): map<Id, Participant> {
    map pid | pid in db.participants && db.participants[pid].eventId != eventId :: db.participants[pid]
  }

  /** `prisma.event.delete({ where: { id } })`, under the schema's rule for
      the event's participants: removed with it, or a refusal while any is left. */
  function DeleteEventIn(db: Db, id: Id, rule: DeleteRule): (w: Written<Event>)
    ensures w.result.Err? ==> w.db == db && w.result.error != Duplicate
    ensures w.result == Err(NotFound) <==> id !in db.events
    ensures w.result.Ok? ==>
      id in db.events && w.db.events == db.events - {id} &&
      w.db.participants == ParticipantsNotOf(db, id)
    ensures w.result.Ok? && rule == Restrict ==> w.db.participants == db.participants
    ensures w.result.Ok? <==> id in db.events && (rule == Cascade || ParticipantsOf(db, id) == map[])
    ensures w.result.Ok? ==> w.result.value == db.events[id]
    ensures Consistent(db) ==> Consistent(w.db)
  {
    if id !in db.events then Written(Err(NotFound), db)
    else if rule == Restrict && ParticipantsOf(db, id) != map[] then Written(Err(Other), db)
    else
      var kept := ParticipantsNotOf(db, id);
      assert rule == Restrict ==> kept == db.participants by {
        if rule == Restrict {
          forall pid | pid in db.participants ensures db.participants[pid].eventId != id {
            assert pid !in ParticipantsOf(db, id);
          }
        }
      }
      Written(Ok(db.events[id]), Db(db.events - {id}, kept))
  }

  /** `prisma.participant.create` with the generated id `id`. */
  function CreateParticipantIn(db: Db, id: Id, body: Record): (w: Written<Participant>)
    ensures w.result.Err? ==> w.db == db && w.result.error != NotFound
    ensures w.result.Ok? ==>
      id !in db.participants && w.db == db.(participants := db.participants[id := w.result.value])
    ensures w.result.Ok? ==> !EmailTaken(db, id, w.result.value.eventId, w.result.value.email)
    ensures w.result == Err(Duplicate) <==>
      ParticipantDataOk(body) && "name" in body && "email" in body && "eventId" in body &&
      (id in db.participants || EmailTaken(db, id, body["eventId"].s, body["email"].s))
    ensures Consistent(db) ==> Consistent(w.db)
  {
    match ParticipantDataOf(body)
    case None => Written(Err(Other), db)
    case Some(d) =>
      if d.name.None? || d.email.None? || d.eventId.None? then Written(Err(Other), db)
      else
        var p := Participant(d.name.value, d.email.value, d.phone, d.eventId.value);
        if id in db.participants || EmailTaken(db, id, p.eventId, p.email) then Written(Err(Duplicate), db)
        else if p.eventId !in db.events then Written(Err(Other), db)
        else Written(Ok(p), db.(participants := db.participants[id := p]))
  }

  /** The record an update of participant `id` with `body` writes. */
  function UpdatedParticipant(db: Db, id: Id, body: Record): Participant
    requires id in db.participants && ParticipantDataOk(body)
  {
    PatchParticipant(db.participants[id], ParticipantDataOf(body).value)
  }

  /** `prisma.participant.update({ where: { id }, data })`. */
  function UpdateParticipantIn(db: Db, id: Id, body: Record): (w: Written<Participant>)
    ensures w.result.Err? ==> w.db == db
    ensures w.result == Err(NotFound) <==> ParticipantDataOk(body) && id !in db.participants
    ensures w.result == Err(Duplicate) <==>
      ParticipantDataOk(body) && id in db.participants &&
      (var p := UpdatedParticipant(db, id, body); EmailTaken(db, id, p.eventId, p.email))
    ensures w.result.Ok? <==>
      ParticipantDataOk(body) && id in db.participants &&
      (var p := UpdatedParticipant(db, id, body); !EmailTaken(db, id, p.eventId, p.email) && p.eventId in db.events)
    ensures w.result.Ok? ==>
      id in db.participants && w.result.value == UpdatedParticipant(db, id, body) &&
      w.db == db.(participants := db.participants[id := w.result.value])
    ensures w.result.Ok? ==> !EmailTaken(db, id, w.result.value.eventId, w.result.value.email)
    ensures Consistent(db) ==> Consistent(w.db)
  {
    match ParticipantDataOf(body)
    case None => Written(Err(Other), db)
    case Some(d) =>
      if id !in db.participants then Written(Err(NotFound), db)
      else
        var p := PatchParticipant(db.participants[id], d);
        if EmailTaken(db, id, p.eventId, p.email) then Written(Err(Duplicate), db)
        else if p.eventId !in db.events then Written(Err(Other), db)
        else Written(Ok(p), db.(participants := db.participants[id := p]))
  }

  /** `prisma.participant.delete({ where: { id } })`. */
  function DeleteParticipantIn(db: Db, id: Id): (w: Written<Participant>)
    ensures w.result.Err? ==> w.db == db && w.result.error == NotFound
    ensures w.result.Err? <==> id !in db.participants
    ensures w.result.Ok? ==> w.db == db.(participants := db.participants - {id})
    ensures Consistent(db) ==> Consistent(w.db)
  {
    if id !in db.participants then Written(Err(NotFound), db)
    else Written(Ok(db.participants[id]), db.(participants := db.participants - {id}))
  }

  // ---------------------------------------------------------------------
  // Counting participants

  /** Adding a participant under a fresh id adds exactly one to its event's
      count and leaves every other event's participants as they were. */
  lemma {:induction false} CountAfterInsert(db: Db, id: Id, p: Participant)
    requires id !in db.participants
    ensures Count(db.(participants := db.participants[id := p]), p.eventId) == Count(db, p.eventId) + 1
    ensures forall eid :: eid != p.eventId ==>
      ParticipantsOf(db.(participants := db.participants[id := p]), eid) == ParticipantsOf(db, eid)
  {
    var db' := db.(participants := db.participants[id := p]);
    var before := ParticipantsOf(db, p.eventId);
    assert ParticipantsOf(db', p.eventId) == before[id := p];
    assert id !in before;
  }

  /** Moving a participant to another event adds exactly one to that
      event's count. */
  lemma {:induction false} CountAfterMove(db: Db, id: Id, p: Participant)
    requires id in db.participants && db.participants[id].eventId != p.eventId
    ensures Count(db.(participants := db.participants[id := p]), p.eventId) == Count(db, p.eventId) + 1
  {
    var db' := db.(participants := db.participants[id := p]);
    var before := ParticipantsOf(db, p.eventId);
    assert ParticipantsOf(db', p.eventId) == before[id := p];
    assert id !in before;
  }

  /** Removing a participant never raises any event's count. */
  lemma {:induction false} CountAfterRemove(db: Db, id: Id, eid: Id)
    ensures Count(db.(participants := db.participants - {id}), eid) <= Count(db, eid)
  {
    var db' := db.(participants := db.participants - {id});
    var before := ParticipantsOf(db, eid);
    assert ParticipantsOf(db', eid) == before - {id};
    if id in before {
      assert |before - {id}| == |before| - 1;
    } else {
      assert before - {id} == before;
    }
  }

  // ---------------------------------------------------------------------
  // The client object

  /** The Prisma client: the two tables, updated in place by its writes. */
  class Store {
    var events: map<Id, Event>
    var participants: map<Id, Participant>
    const onEventDelete: DeleteRule

    function Snapshot(): Db
      reads this
    {
      Db(events, participants)
    }

    ghost predicate Valid()
      reads this
    {
      Consistent(Snapshot())
    }

    constructor (onEventDelete: DeleteRule)
      ensures Valid()
      ensures events == map[] && participants == map[]
      ensures this.onEventDelete == onEventDelete
    {
      events := map[];
      participants := map[];
      this.onEventDelete := onEventDelete;
    }

    /** `prisma.event.findUnique({ where: { id } })`. */
    method FindEvent(id: Id) returns (e: Option<Event>)
      ensures e.Some? <==> id in events
      ensures e.Some? ==> e.value == events[id]
    {
      e := if id in events then Some(events[id]) else None;
    }

    /** The same, with `include: { participants: true }`. */
    method FindEventWithParticipants(id: Id) returns (e: Option<(Event, map<Id, Participant>)>)
      ensures e.Some? <==> id in events
      ensures e.Some? ==> e.value == (events[id], ParticipantsOf(Snapshot(), id))
    {
      e := if id in events then Some((events[id], ParticipantsOf(Snapshot(), id))) else None;
    }

    /** `prisma.participant.findUnique({ where: { id } })`. */
    method FindParticipant(id: Id) returns (p: Option<Participant>)
      ensures p.Some? <==> id in participants
      ensures p.Some? ==> p.value == participants[id]
    {
      p := if id in participants then Some(participants[id]) else None;
    }

    method Apply<T>(w: Written<T>) returns (r: Result<T>)
      modifies this
      ensures Snapshot() == w.db && r == w.result
    {
      events, participants := w.db.events, w.db.participants;
      r := w.result;
    }

    method CreateEvent(id: Id, body: Record, date: DateArg) returns (r: Result<Event>)
      requires Valid()
      modifies this
      ensures Valid()
      ensures Written(r, Snapshot()) == CreateEventIn(old(Snapshot()), id, body, date)
    {
      r := Apply(CreateEventIn(Snapshot(), id, body, date));
    }

    method UpdateEvent(id: Id, body: Record, date: DateArg) returns (r: Result<Event>)
      requires Valid()
      modifies this
      ensures Valid()
      ensures Written(r, Snapshot()) == UpdateEventIn(old(Snapshot()), id, body, date)
    {
      r := Apply(UpdateEventIn(Snapshot(), id, body, date));
    }

    method DeleteEvent(id: Id) returns (r: Result<Event>)
      requires Valid()
      modifies this
      ensures Valid()
      ensures Written(r, Snapshot()) == DeleteEventIn(old(Snapshot()), id, onEventDelete)
    {
      r := Apply(DeleteEventIn(Snapshot(), id, onEventDelete));
    }

    method CreateParticipant(id: Id, body: Record) returns (r: Result<Participant>)
      requires Valid()
      modifies this
      ensures Valid()
      ensures Written(r, Snapshot()) == CreateParticipantIn(old(Snapshot()), id, body)
    {
      r := Apply(CreateParticipantIn(Snapshot(), id, body));
    }

    method UpdateParticipant(id: Id, body: Record) returns (r: Result<Participant>)
      requires Valid()
      modifies this
      ensures Valid()
      ensures Written(r, Snapshot()) == UpdateParticipantIn(old(Snapshot()), id, body)
    {
      r := Apply(UpdateParticipantIn(Snapshot(), id, body));
    }

    method DeleteParticipant(id: Id) returns (r: Result<Participant>)
      requires Valid()
      modifies this
      ensures Valid()
      ensures Written(r, Snapshot()) == DeleteParticipantIn(old(Snapshot()), id)
    {
      r := Apply(DeleteParticipantIn(Snapshot(), id));
    }
  }
}

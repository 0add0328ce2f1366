/** The five `/participants` handlers, in the same form as the event ones:
    a function per route from the tables and the request to the answer and
    the tables afterwards, and, for the three that write, a method driving a
    `Store` object, proved to follow it. Path ids are used as the router hands them
    over; the trimmed id the param schema produces is never read. zod's email
    check is the parameter `isEmail`. */
module ParticipantsRoute {
  import opened Js
  import opened Storage
  import opened Http
  import opened ParticipantValidator

  /** `GET /participants?eventId=`: the participants whose eventId is the
      trimmed query value. */
  function List(db: Db, query: Record): (r: Response)
    ensures r.Status() == 200 <==> QueryValid(query)
    ensures !QueryValid(query) ==> r == ValidationFailed
    ensures QueryValid(query) ==>
      && r.Reply? && r.data.ParticipantList?
      && forall pid :: pid in r.data.participants <==>
           pid in db.participants && db.participants[pid].eventId == QueryEventId(query)
    ensures QueryValid(query) ==> forall pid :: pid in r.data.participants ==>
      r.data.participants[pid] == db.participants[pid]
  {
    if !QueryValid(query) then ValidationFailed
    else Reply(200, "Participants fetched successfully", ParticipantList(ParticipantsOf(db, QueryEventId(query))))
  }

  /** An eventId that names no event gives an empty list, never an error. */
  lemma ListUnknownEventIsEmpty(db: Db, query: Record)
    requires Consistent(db) && QueryValid(query)
    requires QueryEventId(query) !in db.events
    ensures List(db, query) == Reply(200, "Participants fetched successfully", ParticipantList(map[]))
  {
    assert ParticipantsOf(db, QueryEventId(query)) == map[] by {
      forall pid | pid in db.participants ensures db.participants[pid].eventId != QueryEventId(query) {
        assert db.participants[pid].eventId in db.events;
      }
    }
  }

  /** `GET /participants/:id`: first an EVENT is looked up by the path id,
      and only then the participant. */
  function GetOne(db: Db, id: Id, query: Record): (r: Response)
    requires ReferencesIntact(db)
    ensures !QueryValid(query) ==> r == ValidationFailed
    ensures QueryValid(query) && id !in db.events ==> r == Reply(404, "Event not found", NoData)
    ensures QueryValid(query) && id in db.events && id !in db.participants ==>
      r == Reply(404, "Participant not found", NoData)
    ensures r.Status() == 200 <==> QueryValid(query) && id in db.events && id in db.participants
    ensures r.Status() == 200 ==>
      r.data == ParticipantWithEvent(id, db.participants[id], db.events[db.participants[id].eventId])
  {
    if !QueryValid(query) then ValidationFailed
    else if id !in db.events then Reply(404, "Event not found", NoData)
    else if id !in db.participants then Reply(404, "Participant not found", NoData)
    else
      var p := db.participants[id];
      Reply(200, "Participant fetched successfully", ParticipantWithEvent(id, p, db.events[p.eventId]))
  }

  /** The query's eventId is validated but plays no part in the answer. */
  lemma GetOneIgnoresQueryValue(db: Db, id: Id, q1: Record, q2: Record)
    requires ReferencesIntact(db) && QueryValid(q1) && QueryValid(q2)
    ensures GetOne(db, id, q1) == GetOne(db, id, q2)
  {
  }

  /** While no event shares an id with a participant (as with generated
      ids), fetching an existing participant answers "Event not found" and
      no participant is ever returned. */
  lemma GetOneNeedsSharedId(db: Db, id: Id, query: Record)
    requires ReferencesIntact(db) && QueryValid(query)
    requires db.events.Keys !! db.participants.Keys
    ensures GetOne(db, id, query).Status() == 404
    ensures id in db.participants ==> GetOne(db, id, query) == Reply(404, "Event not found", NoData)
  {
  }

  /** The participant a valid create body describes. */
  function ParticipantOf(body: Record, isEmail: string -> bool): (p: Participant)
    requires CreateValid(body, isEmail)
    ensures |p.name| >= 1 && |p.eventId| >= 1 && isEmail(p.email)
  {
    Participant(body["name"].s, body["email"].s,
      if "phone" in body then Some(body["phone"].s) else None, body["eventId"].s)
  }

  /** What the table stores for a valid create body with no key the table
      lacks is exactly the participant the schema validated. */
  lemma StoredParticipantIsValidated(db: Db, id: Id, body: Record, isEmail: string -> bool)
    requires CreateValid(body, isEmail)
    requires forall k :: k in body ==> k in ParticipantColumns
    ensures ParticipantDataOk(body)
    ensures var p := ParticipantOf(body, isEmail);
      CreateParticipantIn(db, id, body).result ==
        if id in db.participants || EmailTaken(db, id, p.eventId, p.email) then Err(Duplicate)
        else if p.eventId !in db.events then Err(Other)
        else Ok(p)
  {
  }

  /** `POST /participants`: event lookup, capacity check, insert, then the
      mapping of the store's error to a status. */
  function Register(db: Db, body: Record, newId: Id, isEmail: string -> bool): (o: Outcome)
    ensures o.response.Status() in {201, 400, 404, 500}
    ensures o.response.Status() != 201 ==> o.db == db
    ensures o.response.Status() == 201 ==>
      && CreateValid(body, isEmail)
      && newId !in db.participants
      && o.response == Reply(201, "Participant registered successfully", ParticipantRecord(newId, ParticipantOf(body, isEmail)))
      && o.db == db.(participants := db.participants[newId := ParticipantOf(body, isEmail)])
  {
    if !CreateValid(body, isEmail) then Outcome(ValidationFailed, db)
    else
      var eventId := body["eventId"].s;
      if eventId !in db.events then Outcome(Reply(404, "Event not found", NoData), db)
      else if Count(db, eventId) >= db.events[eventId].capacity then
        Outcome(Reply(400, "Event is at full capacity", NoData), db)
      else
        var w := CreateParticipantIn(db, newId, body);
        match w.result
        case Ok(p) => Outcome(Reply(201, "Participant registered successfully", ParticipantRecord(newId, p)), w.db)
        case Err(Duplicate) => Outcome(Reply(400, "Email already registered for this event", NoData), w.db)
        case Err(_) => Outcome(Reply(500, "Failed to register participant", NoData), w.db)
  }

  /** Every answer of a registration with a valid body, and when it comes:
      unknown event, full event, taken email or id, a body key the table
      lacks, or success. */
  lemma RegisterOutcomes(db: Db, body: Record, newId: Id, isEmail: string -> bool)
    requires CreateValid(body, isEmail)
    ensures var o := Register(db, body, newId, isEmail);
      var eventId := body["eventId"].s;
      && (o.response == Reply(404, "Event not found", NoData) <==> eventId !in db.events)
      && (o.response == Reply(400, "Event is at full capacity", NoData) <==>
           eventId in db.events && Count(db, eventId) >= db.events[eventId].capacity)
      && (o.response == Reply(400, "Email already registered for this event", NoData) <==>
           && eventId in db.events && Count(db, eventId) < db.events[eventId].capacity
           && ParticipantDataOk(body)
           && (newId in db.participants || EmailTaken(db, newId, eventId, body["email"].s)))
      && (o.response == Reply(500, "Failed to register participant", NoData) <==>
           && eventId in db.events && Count(db, eventId) < db.events[eventId].capacity
           && !ParticipantDataOk(body))
      && (o.response.Status() == 201 <==>
           && eventId in db.events && Count(db, eventId) < db.events[eventId].capacity
           && ParticipantDataOk(body)
           && newId !in db.participants && !EmailTaken(db, newId, eventId, body["email"].s))
  {
  }

  /** A successful registration adds one to its event's count, which stays
      within capacity. */
  lemma RegisterRespectsCapacity(db: Db, body: Record, newId: Id, isEmail: string -> bool)
    requires Register(db, body, newId, isEmail).response.Status() == 201
    ensures var eventId := body["eventId"].s;
      var o := Register(db, body, newId, isEmail);
      && eventId in db.events
      && Count(o.db, eventId) == Count(db, eventId) + 1
      && Count(o.db, eventId) <= db.events[eventId].capacity
  {
    CountAfterInsert(db, newId, ParticipantOf(body, isEmail));
  }

  /** In sequential use registration never overfills an event. */
  lemma {:induction false} RegisterKeepsWithinCapacity(db: Db, body: Record, newId: Id, isEmail: string -> bool)
    requires WithinCapacity(db)
    ensures WithinCapacity(Register(db, body, newId, isEmail).db)
  {
    var o := Register(db, body, newId, isEmail);
    if o.response.Status() == 201 {
      var p := ParticipantOf(body, isEmail);
      RegisterRespectsCapacity(db, body, newId, isEmail);
      CountAfterInsert(db, newId, p);
      forall eid | eid in o.db.events ensures Count(o.db, eid) <= o.db.events[eid].capacity {
        if eid != p.eventId {
          assert ParticipantsOf(o.db, eid) == ParticipantsOf(db, eid);
        }
      }
    }
  }

  /** An email already registered for the event is refused with nothing
      inserted. (That the same email goes through for an event where it is
      not registered is the 201 case of `RegisterOutcomes`.) */
  lemma RegisterRejectsSecondEmail(db: Db, body: Record, newId: Id, isEmail: string -> bool, other: Id)
    requires CreateValid(body, isEmail) && ParticipantDataOk(body)
    requires body["eventId"].s in db.events
    requires Count(db, body["eventId"].s) < db.events[body["eventId"].s].capacity
    requires other in db.participants && other != newId
    requires db.participants[other].eventId == body["eventId"].s
    requires db.participants[other].email == body["email"].s
    ensures Register(db, body, newId, isEmail) ==
      Outcome(Reply(400, "Email already registered for this event", NoData), db)
  {
  }

  /** `PUT /participants/:id`. The raw body is written, so an `eventId` key,
      which the schema does not list, moves the participant. */
  function Update(db: Db, id: Id, body: Record): (o: Outcome)
    ensures o.response.Status() in {200, 400, 404, 500}
    ensures o.response.Status() != 200 ==> o.db == db
    ensures o.response.Status() == 200 ==>
      id in db.participants && o.db.events == db.events &&
      o.db.participants.Keys == db.participants.Keys &&
      forall other :: other in db.participants && other != id ==> o.db.participants[other] == db.participants[other]
    ensures o.response.Status() == 200 ==>
      o.response == Reply(200, "Participant updated successfully", ParticipantRecord(id, o.db.participants[id]))
  {
    if !ParamValid(ParamRecord(id)) || !UpdateValid(body) then Outcome(ValidationFailed, db)
    else if id !in db.participants then Outcome(Reply(404, "Participant not found", NoData), db)
    else if db.participants[id].eventId !in db.events then Outcome(Reply(404, "Event not found", NoData), db)
    else
      var w := UpdateParticipantIn(db, id, body);
      match w.result
      case Ok(p) => Outcome(Reply(200, "Participant updated successfully", ParticipantRecord(id, p)), w.db)
      case Err(NotFound) => Outcome(Reply(404, "Participant not found", NoData), w.db)
      case Err(Duplicate) => Outcome(Reply(400, "Email already registered for this event", NoData), w.db)
      case Err(Other) => Outcome(Reply(500, "Failed to update participant", NoData), w.db)
  }

  /** Every answer of an update with a valid body, and when it comes, in the
      order of the handler: missing participant, missing current event, a
      taken (email, eventId) pair after the patch, data the client refuses
      or a target event that does not exist, or success. */
  lemma UpdateOutcomes(db: Db, id: Id, body: Record)
    requires UpdateValid(body)
    ensures var o := Update(db, id, body);
      var found := id in db.participants && db.participants[id].eventId in db.events;
      && (o.response == Reply(404, "Participant not found", NoData) <==> id !in db.participants)
      && (o.response == Reply(404, "Event not found", NoData) <==>
           id in db.participants && db.participants[id].eventId !in db.events)
      && (o.response == Reply(400, "Email already registered for this event", NoData) <==>
           found && ParticipantDataOk(body) &&
           (var p := UpdatedParticipant(db, id, body); EmailTaken(db, id, p.eventId, p.email)))
      && (o.response == Reply(500, "Failed to update participant", NoData) <==>
           found && (!ParticipantDataOk(body) ||
           (var p := UpdatedParticipant(db, id, body); !EmailTaken(db, id, p.eventId, p.email) && p.eventId !in db.events)))
      && (o.response.Status() == 200 <==>
           found && ParticipantDataOk(body) &&
           (var p := UpdatedParticipant(db, id, body); !EmailTaken(db, id, p.eventId, p.email) && p.eventId in db.events))
      && (o.response.Status() == 200 ==>
           o.response == Reply(200, "Participant updated successfully", ParticipantRecord(id, UpdatedParticipant(db, id, body))))
  {
  }

  /** A missing participant is a 404 with nothing written; in a consistent
      store the "Event not found" branch is never taken. */
  lemma UpdateMissing(db: Db, id: Id, body: Record)
    requires UpdateValid(body)
    ensures id !in db.participants ==> Update(db, id, body) == Outcome(Reply(404, "Participant not found", NoData), db)
    ensures ReferencesIntact(db) ==> Update(db, id, body).response != Reply(404, "Event not found", NoData)
  {
  }

  /** A successful update overwrites exactly the fields the body carries,
      `eventId` included. */
  lemma UpdateOverwritesGivenFields(db: Db, id: Id, body: Record)
    requires Update(db, id, body).response.Status() == 200
    ensures var old_ := db.participants[id];
      var p := Update(db, id, body).db.participants[id];
      && p.name == (if "name" in body then body["name"].s else old_.name)
      && p.email == (if "email" in body then body["email"].s else old_.email)
      && p.phone == (if "phone" in body then Some(body["phone"].s) else old_.phone)
      && p.eventId == (if "eventId" in body then body["eventId"].s else old_.eventId)
  {
  }

  /** An update never looks at capacity: moving a participant into a full
      event succeeds and leaves that event over capacity. */
  lemma {:induction false} UpdateCanOverfill(db: Db, id: Id, target: Id)
    requires id in db.participants && db.participants[id].eventId in db.events
    requires target in db.events && target != db.participants[id].eventId
    requires !EmailTaken(db, id, target, db.participants[id].email)
    requires Count(db, target) >= db.events[target].capacity
    ensures var o := Update(db, id, map["eventId" := JString(target)]);
      && o.response.Status() == 200
      && o.db.participants[id].eventId == target
      && Count(o.db, target) > o.db.events[target].capacity
      && !WithinCapacity(o.db)
  {
    var body := map["eventId" := JString(target)];
    var o := Update(db, id, body);
    var p := db.participants[id].(eventId := target);
    assert ParticipantDataOk(body);
    assert o.db.participants == db.participants[id := p];
    CountAfterMove(db, id, p);
  }

  /** `DELETE /participants/:id`. */
  function Delete(db: Db, id: Id): (o: Outcome)
    ensures o.response.Status() in {200, 400, 404, 500}
    ensures o.response.Status() == 404 <==> id !in db.participants
    ensures o.response.Status() == 404 ==> o.response == Reply(404, "Participant not found", NoData) && o.db == db
    ensures o.response.Status() == 200 ==> o.db == db.(participants := db.participants - {id})
  {
    if !ParamValid(ParamRecord(id)) then Outcome(ValidationFailed, db)
    else if id !in db.participants then Outcome(Reply(404, "Participant not found", NoData), db)
    else
      var w := DeleteParticipantIn(db, id);
      match w.result
      case Ok(_) => Outcome(Reply(200, "Participant deleted successfully", NoData), w.db)
      case Err(NotFound) => Outcome(Reply(404, "Participant not found", NoData), w.db)
      case Err(_) => Outcome(Reply(500, "Failed to delete participant", NoData), w.db)
  }

  /** Deleting a participant removes that one record, and no event goes over
      capacity because of it. */
  lemma {:induction false} DeleteKeepsWithinCapacity(db: Db, id: Id)
    requires WithinCapacity(db)
    ensures id in db.participants ==> Delete(db, id).response == Reply(200, "Participant deleted successfully", NoData)
    ensures WithinCapacity(Delete(db, id).db)
  {
    var o := Delete(db, id);
    forall eid | eid in o.db.events ensures Count(o.db, eid) <= o.db.events[eid].capacity {
      CountAfterRemove(db, id, eid);
    }
  }

  // ---------------------------------------------------------------------
  // The handlers that write, over the store

  method HandleRegister(store: Store, body: Record, newId: Id, isEmail: string -> bool) returns (r: Response)
    requires store.Valid()
    modifies store
    ensures store.Valid()
    ensures Outcome(r, store.Snapshot()) == Register(old(store.Snapshot()), body, newId, isEmail)
  {
    if !CreateValid(body, isEmail) {
      return ValidationFailed;
    }
    var event := store.FindEventWithParticipants(body["eventId"].s);
    if event.None? {
      return Reply(404, "Event not found", NoData);
    }
    var (e, registered) := event.value;
    if |registered| >= e.capacity {
      return Reply(400, "Event is at full capacity", NoData);
    }
    var created := store.CreateParticipant(newId, body);
    match created {
      case Ok(p) => r := Reply(201, "Participant registered successfully", ParticipantRecord(newId, p));
      case Err(Duplicate) => r := Reply(400, "Email already registered for this event", NoData);
      case Err(_) => r := Reply(500, "Failed to register participant", NoData);
    }
  }

  method HandleUpdate(store: Store, id: Id, body: Record) returns (r: Response)
    requires store.Valid()
    modifies store
    ensures store.Valid()
    ensures Outcome(r, store.Snapshot()) == Update(old(store.Snapshot()), id, body)
  {
    if !ParamValid(ParamRecord(id)) || !UpdateValid(body) {
      return ValidationFailed;
    }
    var existing := store.FindParticipant(id);
    if existing.None? {
      return Reply(404, "Participant not found", NoData);
    }
    var event := store.FindEvent(existing.value.eventId);
    if event.None? {
      return Reply(404, "Event not found", NoData);
    }
    var updated := store.UpdateParticipant(id, body);
    match updated {
      case Ok(p) => r := Reply(200, "Participant updated successfully", ParticipantRecord(id, p));
      case Err(NotFound) => r := Reply(404, "Participant not found", NoData);
      case Err(Duplicate) => r := Reply(400, "Email already registered for this event", NoData);
      case Err(Other) => r := Reply(500, "Failed to update participant", NoData);
    }
  }

  method HandleDelete(store: Store, id: Id) returns (r: Response)
    requires store.Valid()
    modifies store
    ensures store.Valid()
    ensures Outcome(r, store.Snapshot()) == Delete(old(store.Snapshot()), id)
  {
    if !ParamValid(ParamRecord(id)) {
      return ValidationFailed;
    }
    var participant := store.FindParticipant(id);
    if participant.None? {
      return Reply(404, "Participant not found", NoData);
    }
    var deleted := store.DeleteParticipant(id);
    match deleted {
      case Ok(_) => r := Reply(200, "Participant deleted successfully", NoData);
      case Err(NotFound) => r := Reply(404, "Participant not found", NoData);
      case Err(_) => r := Reply(500, "Failed to delete participant", NoData);
    }
  }
}

/** The five `/events` handlers. Each is a function from the tables (and the
    request) to the answer and the tables afterwards; the three that write
    are also methods that drive a `Store` object, proved to behave as their
    function says.
    `new Date(s)` is the parameter `parseDate` (`None` for an invalid Date). */
module EventsRoute {
  import opened Js
  import opened Storage
  import opened Http
  import EventValidator
  import Zod

  /** `GET /events`: every event, each with its participants. */
  function List(db: Db): (r: Response)
    ensures r.Reply? && r.status == 200 && r.data.EventList?
    ensures r.data.events.Keys == db.events.Keys
    ensures forall id :: id in r.data.events ==> r.data.events[id].event == db.events[id]
    ensures forall id, pid :: id in r.data.events ==>
      (pid in r.data.events[id].participants <==> pid in db.participants && db.participants[pid].eventId == id)
    ensures forall id, pid :: id in r.data.events && pid in r.data.events[id].participants ==>
      r.data.events[id].participants[pid] == db.participants[pid]
  {
    Reply(200, "Events fetched successfully",
      EventList(map id | id in db.events :: EventView(db.events[id], ParticipantsOf(db, id))))
  }

  /** In a consistent store every participant is listed once, under its own
      event, and nowhere else. */
  lemma ListShowsEachParticipantOnce(db: Db, pid: Id)
    requires Consistent(db) && pid in db.participants
    ensures var lists := List(db).data.events;
      && db.participants[pid].eventId in lists
      && pid in lists[db.participants[pid].eventId].participants
      && forall id :: id in lists && pid in lists[id].participants ==> id == db.participants[pid].eventId
  {
  }

  /** `GET /events/:id`. */
  function GetOne(db: Db, id: Id): (r: Response)
    ensures r.Reply?
    ensures r.status == 404 <==> id !in db.events
    ensures id !in db.events ==> r == Reply(404, "Event not found", NoData)
    ensures id in db.events ==>
      r.status == 200 && r.data == EventWithParticipants(id, EventView(db.events[id], ParticipantsOf(db, id)))
  {
    if id !in db.events then Reply(404, "Event not found", NoData)
    else Reply(200, "Event fetched successfully", EventWithParticipants(id, EventView(db.events[id], ParticipantsOf(db, id))))
  }

  /** The event a valid create body describes, once its date has parsed. */
  function EventOf(body: Record, date: Date): (e: Event)
    requires EventValidator.CreateValid(body)
    ensures e.capacity >= 1 && e.capacity as real == body["capacity"].n
    ensures e.date == date
  {
    Event(body["name"].s, if "description" in body then Some(body["description"].s) else None,
      date, body["location"].s, Zod.IntValue(body, "capacity"))
  }

  /** What the table stores for a valid create body with no key the table
      lacks is exactly the event the schema validated. */
  lemma StoredEventIsValidated(db: Db, id: Id, body: Record, date: Date)
    requires EventValidator.CreateValid(body)
    requires forall k :: k in body ==> k in EventColumns
    ensures EventDataOk(body, NewDate(Some(date)))
    ensures CreateEventIn(db, id, body, NewDate(Some(date))).result ==
      if id in db.events then Err(Duplicate) else Ok(EventOf(body, date))
  {
  }

  /** `POST /events`. */
  function Post(db: Db, body: Record, newId: Id, parseDate: string -> Option<Date>): (o: Outcome)
    ensures o.response.Status() in {201, 400, 500}
    ensures o.response.Status() != 201 ==> o.db == db
    ensures o.response.Status() == 400 <==> !EventValidator.CreateValid(body)
    ensures o.response.Status() == 201 ==>
      && EventValidator.CreateValid(body)
      && parseDate(body["date"].s).Some?
      && newId !in db.events
      && var e := EventOf(body, parseDate(body["date"].s).value);
      && o.response == Reply(201, "Event created successfully", EventRecord(newId, e))
      && o.db == db.(events := db.events[newId := e])
  {
    if !EventValidator.CreateValid(body) then Outcome(ValidationFailed, db)
    else
      var w := CreateEventIn(db, newId, body, NewDate(parseDate(body["date"].s)));
      match w.result
      case Ok(e) => Outcome(Reply(201, "Event created successfully", EventRecord(newId, e)), w.db)
      case Err(_) => Outcome(Reply(500, "Failed to create event", NoData), w.db)
  }

  /** A valid create body is stored exactly when it carries no key the
      table lacks, its date parses, and the generated id is unused; any
      other failure is a 500 with nothing stored. */
  lemma PostOutcomes(db: Db, body: Record, newId: Id, parseDate: string -> Option<Date>)
    requires EventValidator.CreateValid(body)
    ensures var o := Post(db, body, newId, parseDate);
      && (o.response.Status() == 201 <==>
           (forall k :: k in body ==> k in EventColumns) && parseDate(body["date"].s).Some? && newId !in db.events)
      && (o.response.Status() != 201 ==> o.response == Reply(500, "Failed to create event", NoData))
  {
  }

  /** Reading an event back right after creating it gives the submitted
      fields and no participants. */
  lemma {:induction false} PostThenGet(db: Db, body: Record, newId: Id, parseDate: string -> Option<Date>)
    requires Consistent(db)
    requires Post(db, body, newId, parseDate).response.Status() == 201
    ensures var o := Post(db, body, newId, parseDate);
      GetOne(o.db, newId) == Reply(200, "Event fetched successfully",
        EventWithParticipants(newId, EventView(EventOf(body, parseDate(body["date"].s).value), map[])))
  {
    var o := Post(db, body, newId, parseDate);
    assert ParticipantsOf(o.db, newId) == map[] by {
      forall pid | pid in o.db.participants ensures o.db.participants[pid].eventId != newId {
        assert o.db.participants[pid].eventId in db.events;
      }
    }
  }

  /** A new event starts empty, so creating events keeps every event within
      its capacity. */
  lemma {:induction false} PostKeepsWithinCapacity(db: Db, body: Record, newId: Id, parseDate: string -> Option<Date>)
    requires Consistent(db) && WithinCapacity(db)
    ensures WithinCapacity(Post(db, body, newId, parseDate).db)
  {
    var o := Post(db, body, newId, parseDate);
    if o.response.Status() == 201 {
      forall eid | eid in o.db.events ensures Count(o.db, eid) <= o.db.events[eid].capacity {
        assert ParticipantsOf(o.db, eid) == ParticipantsOf(db, eid);
        if eid == newId {
          assert ParticipantsOf(db, newId) == map[] by {
            forall pid | pid in db.participants ensures db.participants[pid].eventId != newId {
              assert db.participants[pid].eventId in db.events;
            }
          }
        }
      }
    }
  }

  /** `body.date ? new Date(body.date) : undefined`. */
  function DateArgOf(body: Record, parseDate: string -> Option<Date>): (d: DateArg)
    requires EventValidator.UpdateValid(body)
    ensures d.Undefined? <==> "date" !in body || body["date"] == JString("")
  {
    if "date" in body && Truthy(body["date"]) then NewDate(parseDate(body["date"].s)) else Undefined
  }

  /** `PUT /events/:id`. */
  function Put(db: Db, id: Id, body: Record, parseDate: string -> Option<Date>): (o: Outcome)
    ensures o.response.Status() in {200, 400, 404, 500}
    ensures o.response.Status() != 200 ==> o.db == db
    ensures o.response.Status() == 400 <==> !EventValidator.UpdateValid(body)
    ensures o.response.Status() == 404 ==> o.response == Reply(404, "Event not found", NoData) && id !in db.events
    ensures o.response.Status() == 200 ==>
      id in db.events && o.db.participants == db.participants && o.db.events.Keys == db.events.Keys &&
      forall other :: other in db.events && other != id ==> o.db.events[other] == db.events[other]
    ensures o.response.Status() == 200 ==>
      o.response == Reply(200, "Event updated successfully", EventRecord(id, o.db.events[id]))
  {
    if !EventValidator.UpdateValid(body) then Outcome(ValidationFailed, db)
    else
      var w := UpdateEventIn(db, id, body, DateArgOf(body, parseDate));
      match w.result
      case Ok(e) => Outcome(Reply(200, "Event updated successfully", EventRecord(id, e)), w.db)
      case Err(NotFound) => Outcome(Reply(404, "Event not found", NoData), w.db)
      case Err(_) => Outcome(Reply(500, "Failed to update event", NoData), w.db)
  }

  /** A successful update overwrites exactly the fields the body carries;
      the date only when the body's date is a non-empty string, so an absent
      or empty date keeps the stored one. */
  lemma PutOverwritesGivenFields(db: Db, id: Id, body: Record, parseDate: string -> Option<Date>)
    requires Put(db, id, body, parseDate).response.Status() == 200
    ensures var old_ := db.events[id];
      var e := Put(db, id, body, parseDate).db.events[id];
      && e.name == (if "name" in body then body["name"].s else old_.name)
      && e.description == (if "description" in body then Some(body["description"].s) else old_.description)
      && e.location == (if "location" in body then body["location"].s else old_.location)
      && e.capacity == (if "capacity" in body then body["capacity"].n.Floor else old_.capacity)
      && e.date == (if "date" !in body || body["date"] == JString("") then old_.date
                    else parseDate(body["date"].s).value)
  {
  }

  /** Every answer of an update with a valid body, and when it comes: the
      client refuses the data (500), the id names no event (404), or the
      event is patched with the body's columns (200). */
  lemma PutOutcomes(db: Db, id: Id, body: Record, parseDate: string -> Option<Date>)
    requires EventValidator.UpdateValid(body)
    ensures var o := Put(db, id, body, parseDate);
      var date := DateArgOf(body, parseDate);
      && (o.response.Status() == 200 <==> EventDataOk(body, date) && id in db.events)
      && (o.response.Status() == 200 ==>
           o.response == Reply(200, "Event updated successfully",
             EventRecord(id, PatchEvent(db.events[id], EventDataOf(body, date).value))))
      && (o.response == Reply(404, "Event not found", NoData) <==> EventDataOk(body, date) && id !in db.events)
      && (o.response == Reply(500, "Failed to update event", NoData) <==> !EventDataOk(body, date))
  {
  }

  /** An update with an empty body succeeds and returns the event unchanged. */
  lemma PutEmptyBodyKeepsEvent(db: Db, id: Id, parseDate: string -> Option<Date>)
    requires id in db.events
    ensures Put(db, id, map[], parseDate) ==
      Outcome(Reply(200, "Event updated successfully", EventRecord(id, db.events[id])), db)
  {
    assert db.(events := db.events[id := db.events[id]]) == db;
  }

  /** An update of an id that names no event is a 404 that changes nothing,
      whenever the body is one the table can take (the client rejects any
      other body before it looks for the record, which is a 500). */
  lemma PutMissingIsNotFound(db: Db, id: Id, body: Record, parseDate: string -> Option<Date>)
    requires id !in db.events
    requires EventValidator.UpdateValid(body)
    requires EventDataOk(body, DateArgOf(body, parseDate))
    ensures Put(db, id, body, parseDate) == Outcome(Reply(404, "Event not found", NoData), db)
  {
  }

  /** An update never looks at the participants: capacity can be set below
      the number already registered, and then the event is over capacity. */
  lemma PutIgnoresParticipantCount(db: Db, id: Id, capacity: int, parseDate: string -> Option<Date>)
    requires id in db.events && capacity >= 1
    requires Count(db, id) > capacity
    ensures var o := Put(db, id, map["capacity" := JNumber(capacity as real)], parseDate);
      && o.response.Status() == 200
      && o.db.events[id].capacity == capacity
      && !WithinCapacity(o.db)
  {
    var body := map["capacity" := JNumber(capacity as real)];
    var o := Put(db, id, body, parseDate);
    assert ParticipantsOf(o.db, id) == ParticipantsOf(db, id);
  }

  /** `DELETE /events/:id`. The participants of the event go with it or
      block the delete, as the schema's rule `rule` says. */
  function Delete(db: Db, id: Id, rule: DeleteRule): (o: Outcome)
    ensures o.response.Reply? && o.response.status in {200, 404, 500}
    ensures o.response.status != 200 ==> o.db == db
    ensures o.response.status == 404 <==> id !in db.events
    ensures o.response.status == 404 ==> o.response.message == "Event not found"
    ensures o.response.status == 200 ==> o.db.events == db.events - {id}
    ensures o.response.status == 200 <==>
      id in db.events && (rule == Cascade || ParticipantsOf(db, id) == map[])
    ensures o.response.status == 200 ==>
      o.response.message == "Event deleted successfully" && o.db.participants == ParticipantsNotOf(db, id)
    ensures o.response.status == 500 ==> o.response.message == "Failed to delete event"
  {
    var w := DeleteEventIn(db, id, rule);
    match w.result
    case Ok(_) => Outcome(Reply(200, "Event deleted successfully", NoData), w.db)
    case Err(NotFound) => Outcome(Reply(404, "Event not found", NoData), w.db)
    case Err(_) => Outcome(Reply(500, "Failed to delete event", NoData), w.db)
  }

  /** Deleting an event leaves the participants of every other event as
      they were. */
  lemma DeleteSparesOtherEvents(db: Db, id: Id, rule: DeleteRule, pid: Id)
    requires pid in db.participants && db.participants[pid].eventId != id
    ensures var o := Delete(db, id, rule);
      pid in o.db.participants && o.db.participants[pid] == db.participants[pid]
  {
  }

  // ---------------------------------------------------------------------
  // The handlers that write, over the store

  method HandlePost(store: Store, body: Record, newId: Id, parseDate: string -> Option<Date>) returns (r: Response)
    requires store.Valid()
    modifies store
    ensures store.Valid()
    ensures Outcome(r, store.Snapshot()) == Post(old(store.Snapshot()), body, newId, parseDate)
  {
    if !EventValidator.CreateValid(body) {
      return ValidationFailed;
    }
    var created := store.CreateEvent(newId, body, NewDate(parseDate(body["date"].s)));
    match created {
      case Ok(e) => r := Reply(201, "Event created successfully", EventRecord(newId, e));
      case Err(_) => r := Reply(500, "Failed to create event", NoData);
    }
  }

  method HandlePut(store: Store, id: Id, body: Record, parseDate: string -> Option<Date>) returns (r: Response)
    requires store.Valid()
    modifies store
    ensures store.Valid()
    ensures Outcome(r, store.Snapshot()) == Put(old(store.Snapshot()), id, body, parseDate)
  {
    if !EventValidator.UpdateValid(body) {
      return ValidationFailed;
    }
    var updated := store.UpdateEvent(id, body, DateArgOf(body, parseDate));
    match updated {
      case Ok(e) => r := Reply(200, "Event updated successfully", EventRecord(id, e));
      case Err(NotFound) => r := Reply(404, "Event not found", NoData);
      case Err(_) => r := Reply(500, "Failed to update event", NoData);
    }
  }

  method HandleDelete(store: Store, id: Id) returns (r: Response)
    requires store.Valid()
    modifies store
    ensures store.Valid()
    ensures Outcome(r, store.Snapshot()) == Delete(old(store.Snapshot()), id, store.onEventDelete)
  {
    var deleted := store.DeleteEvent(id);
    match deleted {
      case Ok(_) => r := Reply(200, "Event deleted successfully", NoData);
      case Err(NotFound) => r := Reply(404, "Event not found", NoData);
      case Err(_) => r := Reply(500, "Failed to delete event", NoData);
    }
  }
}

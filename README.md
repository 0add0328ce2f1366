# Event registration backend: a Dafny model of its business rules

The system is a small HTTP backend for events and their participants:
create, list, read, update and delete events, and register, list, read,
update and delete participants, each belonging to one event. Registration
refuses an event that is full. The database refuses a second registration
of the same email for the same event. Every route answers with a status and
a `{ data?, message }` body.

This project models the route handlers and the request schemas. The
database behind them is replaced by an in-memory store of two tables.

- `js.dfy` (module `Js`): JSON values as the handlers receive them,
  JavaScript truthiness, `Number.isInteger`, and `String.prototype.trim`.
  `trim` is proved against a reference characterisation: it strips white
  space around a core, and trimming twice is trimming once.
- `zod.dfy` (module `Zod`): the zod field rules the schemas use, and
  required vs. optional fields.
- `event_validator.dfy`, `participant_validator.dfy`: the six schemas as
  predicates over the raw record, with lemmas for what each accepts. The
  handlers store the raw body, not the validated value. So a schema is only
  a gate, and keys it does not list (such as `eventId` in a participant
  update) reach the write.
- `storage.dfy` (module `Storage`): the tables, the writes the handlers
  issue as functions on the table contents, and the class `Store` (the
  database client) whose methods update the tables in place. Its error
  kinds are `NotFound` (code P2025), `Duplicate` (code P2002) and `Other`.
  The database invariants are `Consistent`: every participant's event
  exists, and emails are unique per event. `Consistent` is preserved by
  every write. `WithinCapacity` (no event over capacity) is not enforced by
  the database.
- `http.dfy` (module `Http`): responses and payloads.
- `events_route.dfy`, `participants_route.dfy`: one function per route.
  It maps the tables and the request to the response and the new tables.
  The three writing routes of each group are also methods that take the
  `Store` object and update it. Each method does the handler's steps in
  order and is proved equal to its function.

Behaviour of the code that the lemmas make explicit:

- Registration checks the count against capacity before it inserts. So in
  sequential use registration never overfills an event
  (`RegisterKeepsWithinCapacity`). Neither update route checks the count.
  Lowering an event's capacity can leave it over capacity
  (`PutIgnoresParticipantCount`). So can moving a participant with an
  `eventId` key in the update body (`UpdateCanOverfill`).
- `GET /participants/:id` first looks up an *event* whose id is the
  participant id. While event ids and participant ids never coincide, it
  answers 404 "Event not found" for every existing participant
  (`GetOneNeedsSharedId`). The validated `eventId` query value plays no
  part (`GetOneIgnoresQueryValue`).
- An event update replaces the date only when the body's date is a
  non-empty string (`PutOverwritesGivenFields`).
- An update or delete of a missing event id answers 404 "Event not found".
  The exception is an update body the database client refuses before the
  lookup: an unknown key, or a date that does not parse. That answers 500.
  So the 404 promise holds for bodies the table can take
  (`PutMissingIsNotFound`).

## Model

| member | source | states |
|---|---|---|
| `Js.Trim` | src/validators/participant.validator.ts:4 | the trimmed string has no white space at either end, is no longer than the input, and is empty exactly when the input is all white space |
| `Js.TrimPadded` | src/validators/participant.validator.ts:4 | trimming white space around a core that does not start or end with white space gives back exactly the core |
| `Js.TrimIdempotent` | src/validators/participant.validator.ts:4 | trimming a trimmed string changes nothing |
| `Zod.IntValue` | src/validators/event.validator.ts:8 | a value passing `z.number().int().positive()` is an integer of at least 1 equal to the JSON number |
| `ParticipantValidator.QueryEventId` | src/validators/participant.validator.ts:3-5 | the validated query eventId is the trimmed string, with no white space at its ends |
| `ParticipantValidator.QueryAcceptsAnyString` | src/validators/participant.validator.ts:3-5 | every string is an accepted eventId, "" and white space included; white space turns into "" |
| `ParticipantValidator.RouteParamAlwaysValid` | src/validators/participant.validator.ts:7-9 | the param record of any path id passes; there is no non-empty rule |
| `ParticipantValidator.UpdateIsLenient` | src/validators/participant.validator.ts:18-22 | update accepts the empty object, and any string as email, with no format check |
| `ParticipantValidator.UpdatePassesEventIdThrough` | src/validators/participant.validator.ts:18-22 | an `eventId` key of any type neither helps nor hurts an update body |
| `ParticipantValidator.CreateBodyIsUpdateBody` | src/validators/participant.validator.ts:11-22 | every valid create body is a valid update body |
| `EventValidator.UpdateFieldsMeetCreateRules` | src/validators/event.validator.ts:11-17 | every field present in a valid update meets the rule it has in create |
| `EventValidator.UpdateAcceptsEmpty` | src/validators/event.validator.ts:11-17 | the empty object is a valid update |
| `EventValidator.CreateBodyIsUpdateBody` | src/validators/event.validator.ts:3-17 | every valid create body is a valid update body |
| `EventValidator.ExtraKeysPass` | src/validators/event.validator.ts:3-17 | a key outside the schema changes neither verdict |
| `EventValidator.DateIsAnyString` | src/validators/event.validator.ts:6 | the date is not format-checked: any string passes |
| `Storage.BodyDateIsIgnored` | src/router/events.ts:48-53 | whatever the body's own `date` key holds, the write data are those of the explicit `date` argument |
| `Storage.PatchEvent` | src/router/events.ts:66-72 | an update that sets no column leaves the event as it was |
| `Storage.PatchParticipant` | src/router/participants.ts:137-142 | an update that sets no column leaves the participant as it was |
| `Storage.CreateEventIn` | src/router/events.ts:48-53 | a failed create changes nothing and is never NotFound; success adds exactly the new id; it succeeds exactly when the data is accepted, complete and the id unused; consistency is kept |
| `Storage.UpdateEventIn` | src/router/events.ts:66-72 | NotFound exactly when the data is accepted and the id is missing; success exactly when the data is accepted and the id exists, and it replaces only that event with the stored one patched by the data; a failure changes nothing; consistency is kept |
| `Storage.DeleteEventIn` | src/router/events.ts:86-88 | NotFound exactly when the id is missing; success exactly when the id exists and the rule is Cascade or the event has no participants; success removes the event and returns its record, and removes exactly its participants; consistency is kept |
| `Storage.CreateParticipantIn` | src/router/participants.ts:91-95 | Duplicate exactly when the data is accepted and the id or the (email, eventId) pair is taken; success inserts only the new id with no email clash; a failure changes nothing; consistency is kept |
| `Storage.UpdateParticipantIn` | src/router/participants.ts:137-142 | NotFound exactly when the data is accepted and the id is missing; Duplicate exactly when the data is accepted, the id exists and the patched (email, eventId) pair is taken by another participant; success exactly when, besides, the pair is free and the target event exists, and it replaces only that participant with the patched record; a failure changes nothing; consistency is kept |
| `Storage.DeleteParticipantIn` | src/router/participants.ts:176-178 | fails, with NotFound only, exactly when the id is missing; success removes that id alone |
| `Storage.CountAfterInsert` | src/router/participants.ts:87-95 | a participant inserted under a fresh id raises its event's count by one and no other event's participants change |
| `Storage.CountAfterMove` | src/router/participants.ts:137-142 | moving a participant to another event raises that event's count by one |
| `Storage.CountAfterRemove` | src/router/participants.ts:176-178 | removing a participant raises no event's count |
| `Storage.Store.constructor` | src/router/events.ts:3 | a new store is empty and consistent |
| `Storage.Store.FindEvent` | src/router/participants.ts:40-42 | finds the event exactly when the id is in the table, with its record |
| `Storage.Store.FindEventWithParticipants` | src/router/participants.ts:76-81 | finds the event exactly when the id is in the table, with its record and exactly its participants |
| `Storage.Store.FindParticipant` | src/router/participants.ts:122-124 | finds the participant exactly when the id is in the table, with its record |
| `Storage.Store.CreateEvent` | src/router/events.ts:48-53 | the result and the new tables are those of `CreateEventIn` on the old tables; consistency is kept |
| `Storage.Store.UpdateEvent` | src/router/events.ts:66-72 | the result and the new tables are those of `UpdateEventIn`; consistency is kept |
| `Storage.Store.DeleteEvent` | src/router/events.ts:86-88 | the result and the new tables are those of `DeleteEventIn` under the store's rule; consistency is kept |
| `Storage.Store.CreateParticipant` | src/router/participants.ts:91-95 | the result and the new tables are those of `CreateParticipantIn`; consistency is kept |
| `Storage.Store.UpdateParticipant` | src/router/participants.ts:137-142 | the result and the new tables are those of `UpdateParticipantIn`; consistency is kept |
| `Storage.Store.DeleteParticipant` | src/router/participants.ts:176-178 | the result and the new tables are those of `DeleteParticipantIn`; consistency is kept |
| `EventsRoute.List` | src/router/events.ts:11-22 | 200 with every event, each with its record and exactly the participants whose eventId is that event, each with its stored record |
| `EventsRoute.ListShowsEachParticipantOnce` | src/router/events.ts:13-18 | in a consistent store every participant is listed under its own event and under no other |
| `EventsRoute.GetOne` | src/router/events.ts:24-42 | 404 "Event not found" exactly when the id is missing, otherwise 200 with the event and its participants |
| `EventsRoute.EventOf` | src/router/events.ts:48-53 | the event built from a valid body has the body's capacity, at least 1, and the parsed date |
| `EventsRoute.StoredEventIsValidated` | src/router/events.ts:44-53 | a valid create body with no key the table lacks is accepted by the write, which stores exactly the event the schema validated unless the id is taken |
| `EventsRoute.Post` | src/router/events.ts:44-59 | 400 exactly when the schema fails; 201 stores exactly one event built from the body under the new id and returns it; any other answer stores nothing |
| `EventsRoute.PostOutcomes` | src/router/events.ts:44-59 | a valid body gives 201 exactly when it has no unknown key, its date parses and the id is unused, and 500 "Failed to create event" otherwise |
| `EventsRoute.PostThenGet` | src/router/events.ts:24-59 | reading a just-created event returns the submitted fields and no participants |
| `EventsRoute.PostKeepsWithinCapacity` | src/router/events.ts:44-59 | creating an event keeps every event within its capacity |
| `EventsRoute.DateArgOf` | src/router/events.ts:70 | the date is left undefined exactly when the body has no date or an empty one |
| `EventsRoute.Put` | src/router/events.ts:61-81 | 400 exactly when the schema fails; 404 only as "Event not found" for a missing id; 200 changes only that event and no participant and returns the stored event; any other answer changes nothing |
| `EventsRoute.PutOutcomes` | src/router/events.ts:61-81 | for a valid body: 200 exactly when the data is accepted and the id exists, returning the event patched by the body; 404 "Event not found" exactly when the data is accepted and the id is missing; 500 exactly when the data is refused |
| `EventsRoute.PutEmptyBodyKeepsEvent` | src/router/events.ts:61-74 | an update with an empty body answers 200 with the event unchanged and changes nothing |
| `EventsRoute.PutOverwritesGivenFields` | src/router/events.ts:66-72 | a successful update overwrites exactly the fields in the body, and the date only when it is a non-empty string |
| `EventsRoute.PutMissingIsNotFound` | src/router/events.ts:75-78 | updating a missing id with data the table can take is 404 "Event not found" with nothing changed |
| `EventsRoute.PutIgnoresParticipantCount` | src/router/events.ts:61-74 | capacity can be lowered below the participant count, and the event is then over capacity |
| `EventsRoute.Delete` | src/router/events.ts:83-97 | 404 "Event not found" exactly when the id is missing; 200 exactly when the id exists and the rule lets the delete through, removing exactly that event and its participants; 500 "Failed to delete event" otherwise; anything but 200 changes nothing |
| `EventsRoute.DeleteSparesOtherEvents` | src/router/events.ts:86-88 | deleting an event leaves every participant of other events untouched |
| `EventsRoute.HandlePost` | src/router/events.ts:44-59 | the handler's response and the store afterwards are those of `Post`; consistency is kept |
| `EventsRoute.HandlePut` | src/router/events.ts:61-81 | the handler's response and the store afterwards are those of `Put`; consistency is kept |
| `EventsRoute.HandleDelete` | src/router/events.ts:83-97 | the handler's response and the store afterwards are those of `Delete` under the store's rule; consistency is kept |
| `ParticipantsRoute.List` | src/router/participants.ts:13-31 | 200 exactly when the query is valid, with exactly the participants whose eventId is the trimmed query value |
| `ParticipantsRoute.ListUnknownEventIsEmpty` | src/router/participants.ts:18-26 | an eventId naming no event gives 200 with an empty list |
| `ParticipantsRoute.GetOne` | src/router/participants.ts:33-67 | 404 "Event not found" when no event has the path id, before any participant lookup; then 404 "Participant not found"; 200 exactly when both ids exist, with the participant and its event |
| `ParticipantsRoute.GetOneIgnoresQueryValue` | src/router/participants.ts:35-42 | the validated query eventId does not affect the answer |
| `ParticipantsRoute.GetOneNeedsSharedId` | src/router/participants.ts:38-46 | with disjoint event and participant ids the answer is always 404, and "Event not found" for every existing participant |
| `ParticipantsRoute.ParticipantOf` | src/router/participants.ts:91-95 | the participant built from a valid body has a non-empty name and eventId and an email that passed the check |
| `ParticipantsRoute.StoredParticipantIsValidated` | src/router/participants.ts:91-95 | a valid create body with no key the table lacks is accepted by the write, which stores exactly the participant the schema validated unless the id or (email, eventId) is taken or the event is missing |
| `ParticipantsRoute.Register` | src/router/participants.ts:69-111 | any answer but 201 changes nothing; 201 inserts exactly the body's participant under the new id and returns it |
| `ParticipantsRoute.RegisterOutcomes` | src/router/participants.ts:76-108 | for a valid body: 404 exactly when the event is missing; 400 full exactly when the count reached capacity; 400 email exactly when the id or (email, eventId) is taken; 500 exactly for a body key the table lacks; otherwise 201 |
| `ParticipantsRoute.RegisterRespectsCapacity` | src/router/participants.ts:87-95 | a successful registration raises its event's count by one, to at most capacity |
| `ParticipantsRoute.RegisterKeepsWithinCapacity` | src/router/participants.ts:87-95 | registration keeps every event within its capacity |
| `ParticipantsRoute.RegisterRejectsSecondEmail` | src/router/participants.ts:102-107 | an email already registered for that event gets 400 "Email already registered for this event" with nothing inserted |
| `ParticipantsRoute.Update` | src/router/participants.ts:113-161 | any answer but 200 changes nothing; 200 changes only that participant and no event, and returns the stored record |
| `ParticipantsRoute.UpdateOutcomes` | src/router/participants.ts:113-161 | for a valid body: 404 "Participant not found" exactly when the id is missing; 404 "Event not found" exactly when its current event is missing; 400 email exactly when the patched (email, eventId) pair is taken; 500 exactly when the data is refused or the target event is missing; otherwise 200 with the patched record |
| `ParticipantsRoute.UpdateMissing` | src/router/participants.ts:122-135 | a missing participant is 404 "Participant not found" with nothing changed; in a consistent store "Event not found" never comes |
| `ParticipantsRoute.UpdateOverwritesGivenFields` | src/router/participants.ts:137-142 | a successful update overwrites exactly the body's fields, eventId included |
| `ParticipantsRoute.UpdateCanOverfill` | src/router/participants.ts:113-147 | moving a participant into a full event succeeds and leaves it over capacity |
| `ParticipantsRoute.Delete` | src/router/participants.ts:163-187 | 404 "Participant not found" exactly when the id is missing, with nothing changed; 200 removes that id alone |
| `ParticipantsRoute.DeleteKeepsWithinCapacity` | src/router/participants.ts:169-179 | deleting an existing participant answers 200 and keeps every event within capacity |
| `ParticipantsRoute.HandleRegister` | src/router/participants.ts:69-111 | the handler's steps give the response and store of `Register`; consistency is kept |
| `ParticipantsRoute.HandleUpdate` | src/router/participants.ts:113-161 | the handler's steps give the response and store of `Update`; consistency is kept |
| `ParticipantsRoute.HandleDelete` | src/router/participants.ts:163-187 | the handler's steps give the response and store of `Delete`; consistency is kept |

## Left out

- HTTP routing, the validator middleware's plumbing and JSON serialisation
  are left out. A route is modelled by its status, message and payload. A
  schema failure is the single response `ValidationFailed` (status 400);
  the zod issue list is not modelled.
- Request bodies are JSON objects. A body that is not JSON, or not an
  object, is not modelled.
- Database failures unrelated to the data (connection loss, timeouts) are
  not modelled. In the code these reach the catch blocks as 500 answers;
  here reads never fail, and writes fail only for the reasons in
  `storage.dfy`.
- The database schema is not part of this model. Three assumptions about
  it stand in for it:
  - emails are unique per event (code P2002);
  - `eventId` is a foreign key;
  - the rule for participants of a deleted event is a constant of the store
    (`Cascade` or `Restrict`), since the schema that fixes it is unknown.
- The database client's checks on write data are modelled only in part:
  - scalar columns only;
  - `capacity` as an unbounded integer, with no 32-bit limit;
  - a body key `id` or a relation key is rejected. The real client would
    accept these: a client-chosen id, or a nested write.
- `new Date(s)` is the parameter `parseDate`, and zod's email format check
  is the parameter `isEmail`. Their exact grammars are library internals.
- Generated ids are a parameter of the create handlers. A clash with an
  existing id is a `Duplicate` error, as a unique-key violation would be.
- JavaScript numbers are modelled as reals. Floating-point rounding is not
  modelled, nor is overflow to Infinity: `JSON.parse` reads `1e400` as
  Infinity, which `.int()` rejects, while the model's real `1e400` passes as
  a positive integer.
- The result lists carry no order: `findMany` gives no order, so lists are
  maps from id to record.
- Concurrency is not modelled: the model runs one request at a time. Two
  concurrent registrations can both pass the capacity check before either
  inserts, and that race is not represented.
- Server bootstrap, the port and CORS are left out.

/** What a handler answers: `c.json({ data?, message }, status)`, or the 400
    that the zod validator middleware sends with the schema's issues before
    the handler runs. */
module Http {
  import opened Storage

  /** An event with its participants (`include: { participants: true }`). */
  datatype EventView = EventView(event: Event, participants: map<Id, Participant>)

  /** The `data` field of a response, with the ids of the records it holds. */
  datatype Payload =
    | NoData
    | EventList(events: map<Id, EventView>)
    | EventWithParticipants(id: Id, view: EventView)
    | EventRecord(id: Id, event: Event)
    | ParticipantList(participants: map<Id, Participant>)
    | ParticipantWithEvent(id: Id, participant: Participant, event: Event)
    | ParticipantRecord(id: Id, participant: Participant)

  datatype Response =
    | Reply(status: int, message: string, data: Payload)
    | ValidationFailed
  {
    function Status(): int {
      if ValidationFailed? then 400 else status
    }
  }

  /** A handler's answer together with the tables it leaves behind. */
  datatype Outcome = Outcome(response: Response, db: Db)
}

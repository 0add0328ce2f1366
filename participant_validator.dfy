/** The participant request schemas as predicates over the raw records:
    `getQueryValidationParticipants` (query), `participantParamValidation`
    (path parameters), `createParticipantSchema` and
    `updateParticipantSchema` (JSON body). The email format check of zod is
    the parameter `isEmail`. */
module ParticipantValidator {
  import opened Js
  import opened Zod

  /** `getQueryValidationParticipants`: `eventId` must be a string. `.trim()`
      only transforms the value, so even "" or white space passes. */
  predicate QueryValid(query: Record) {
    Required(query, "eventId", Text(0))
  }

  /** The validated query value: the trimmed `eventId`. */
  function QueryEventId(query: Record): (eventId: string)
    requires QueryValid(query)
    ensures |eventId| <= |query["eventId"].s|
    ensures eventId == [] || (!IsWhiteSpace(eventId[0]) && !IsWhiteSpace(eventId[|eventId| - 1]))
  {
    Trim(query["eventId"].s)
  }

  /** `participantParamValidation`: `id` must be a string, nothing more. */
  predicate ParamValid(params: Record) {
    Required(params, "id", Text(0))
  }

  /** The parameter record the router builds for a path `/:id`. */
  function ParamRecord(id: string): Record {
    map["id" := JString(id)]
  }

  /** `createParticipantSchema`. */
  predicate CreateValid(body: Record, isEmail: string -> bool) {
    && Required(body, "name", Text(1))
    && Required(body, "email", EmailText(isEmail))
    && Optional(body, "phone", Text(0))
    && Required(body, "eventId", Text(1))
  }

  /** `updateParticipantSchema`: no `eventId` field, and no format check on
      `email`. */
  predicate UpdateValid(body: Record) {
    && Optional(body, "name", Text(1))
    && Optional(body, "email", Text(0))
    && Optional(body, "phone", Text(0))
  }

  /** Any string is an acceptable query `eventId`, including "" and white
      space, which the validated value turns into "". */
  lemma QueryAcceptsAnyString(query: Record, s: string)
    ensures QueryValid(query["eventId" := JString(s)])
    ensures QueryEventId(query["eventId" := JString(s)]) == Trim(s)
    ensures AllWhiteSpace(s) ==> QueryEventId(query["eventId" := JString(s)]) == ""
  {
  }

  /** The record the router builds for any path id passes the param schema:
      the param check never rejects a request that reached the route. */
  lemma RouteParamAlwaysValid(id: string)
    ensures ParamValid(ParamRecord(id))
  {
  }

  /** Update accepts the empty object and an email that is any string. */
  lemma UpdateIsLenient(body: Record, email: string)
    ensures UpdateValid(map[])
    ensures UpdateValid(body) ==> UpdateValid(body["email" := JString(email)])
  {
  }

  /** Update has no `eventId` field, yet a body carrying one (of any JSON
      type) is accepted: the key passes through to the handler's write. */
  lemma UpdatePassesEventIdThrough(body: Record, v: Json)
    ensures UpdateValid(body["eventId" := v]) == UpdateValid(body)
  {
  }

  /** Every create body passes the update schema as well. */
  lemma CreateBodyIsUpdateBody(body: Record, isEmail: string -> bool)
    requires CreateValid(body, isEmail)
    ensures UpdateValid(body)
  {
  }
}

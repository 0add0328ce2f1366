/** The event request schemas (`createEventSchema`, `updateEventSchema`) as
    predicates over the raw JSON body. The handlers persist the raw body, so a
    schema only decides whether the request goes on. */
module EventValidator {
  import opened Js
  import opened Zod

  /** `createEventSchema`: name and location non-empty, date any string,
      description an optional string, capacity a positive integer. */
  predicate CreateValid(body: Record) {
    && Required(body, "name", Text(1))
    && Optional(body, "description", Text(0))
    && Required(body, "date", Text(0))
    && Required(body, "location", Text(1))
    && Required(body, "capacity", PositiveInteger)
  }

  /** `updateEventSchema`: the same fields and rules, each optional. */
  predicate UpdateValid(body: Record) {
    && Optional(body, "name", Text(1))
    && Optional(body, "description", Text(0))
    && Optional(body, "date", Text(0))
    && Optional(body, "location", Text(1))
    && Optional(body, "capacity", PositiveInteger)
  }

  /** The keys either schema lists; any other key passes unchecked. */
  const SchemaKeys: set<string> := {"name", "description", "date", "location", "capacity"}

  /** Every field an update carries meets the rule it has in create. */
  lemma UpdateFieldsMeetCreateRules(body: Record)
    requires UpdateValid(body)
    ensures "name" in body ==> Required(body, "name", Text(1))
    ensures "location" in body ==> Required(body, "location", Text(1))
    ensures "capacity" in body ==> Required(body, "capacity", PositiveInteger)
    ensures "date" in body ==> Required(body, "date", Text(0))
  {
  }

  /** Every field is optional in an update: the empty object passes. */
  lemma UpdateAcceptsEmpty()
    ensures UpdateValid(map[])
  {
  }

  /** A create body is also a valid update body. */
  lemma CreateBodyIsUpdateBody(body: Record)
    requires CreateValid(body)
    ensures UpdateValid(body)
  {
  }

  /** Keys outside the schema are neither required nor rejected. */
  lemma ExtraKeysPass(body: Record, key: string, v: Json)
    requires key !in SchemaKeys
    ensures CreateValid(body[key := v]) == CreateValid(body)
    ensures UpdateValid(body[key := v]) == UpdateValid(body)
  {
  }

  /** The date is not format-checked: any string, even "", passes. */
  lemma DateIsAnyString(body: Record, date: string)
    requires CreateValid(body)
    ensures CreateValid(body["date" := JString(date)])
  {
  }
}

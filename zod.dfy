/** The handful of zod field rules the schemas use, as predicates over one
    field of a JSON object. `z.object` checks each listed key and lets keys
    it does not list pass through unchecked. */
module Zod {
  import opened Js

  /** One field rule: `z.string()` with an optional `.min(n)` (`.trim()`
      only transforms, so it is `Text(0)`), `z.string().email()`, and
      `z.number().int().positive()`. */
  datatype Rule =
    | Text(minLength: nat)
    | EmailText(isEmail: string -> bool)
    | PositiveInteger

  predicate Satisfies(v: Json, rule: Rule) {
    match rule
    case Text(n) => v.JString? && |v.s| >= n
    case EmailText(isEmail) => v.JString? && isEmail(v.s)
    case PositiveInteger => v.JNumber? && IsInteger(v.n) && v.n > 0.0
  }

  /** A field without `.optional()`: the key must be there and pass. */
  predicate Required(r: Record, key: string, rule: Rule) {
    key in r && Satisfies(r[key], rule)
  }

  /** A field with `.optional()`: an absent key passes; a present one,
      `null` included, must pass the rule. */
  predicate Optional(r: Record, key: string, rule: Rule) {
    key !in r || Satisfies(r[key], rule)
  }

  /** The positive integer a `PositiveInteger` field holds. */
  function IntValue(r: Record, key: string): (n: int)
    requires Required(r, key, PositiveInteger)
    ensures n >= 1 && n as real == r[key].n
  {
    r[key].n.Floor
  }
}

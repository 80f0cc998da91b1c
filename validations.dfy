/** The two checks the entry form asks of its validation helpers. Their
    implementation is not part of this model; they are stated by what they
    accept: a value is present when it is defined and not empty, and a
    number passes `greaterThan(bound, n)` when it is a number above bound. */
module Validations {
  import opened Wrappers

  /** A JavaScript number as the form stores it: a value, NaN, or undefined. */
  datatype JsNumber = Num(value: int) | NaN | Undefined

  /** What a failed check reports; None means the check passed. */
  datatype Violation = Blank | NotGreaterThan(bound: int)

  function Presence(s: Option<string>): (r: Option<Violation>)
    ensures r.None? <==> s.Some? && s.value != ""
    ensures r.Some? ==> r.value == Blank
  {
    if s.Some? && s.value != "" then None else Some(Blank)
  }

  function PresenceOfId(id: Option<int>): (r: Option<Violation>)
    ensures r.None? <==> id.Some?
    ensures r.Some? ==> r.value == Blank
  {
    if id.Some? then None else Some(Blank)
  }

  function GreaterThan(bound: int, n: JsNumber): (r: Option<Violation>)
    ensures r.None? <==> n.Num? && n.value > bound
    ensures r.Some? ==> r.value == NotGreaterThan(bound)
  {
    match n
    case Num(v) => if v > bound then None else Some(NotGreaterThan(bound))
    case _ => Some(NotGreaterThan(bound))
  }
}

/** Identifiers, optional values and REST replies shared by every module. */
module Common {

  /** A JavaScript value that may be `null` or `undefined`. */
  datatype Option<+T> = None | Some(value: T)

  type UserId = string
  type CommunityId = string
  type MessageId = string
  type PostId = string
  type CommentId = string
  type EventId = string
  type InterestId = string

  /** What a REST handler answers: a success message, or an HTTP error status and message. */
  datatype Reply = Ok(message: string) | Fail(status: nat, error: string)

  /** JavaScript truthiness of an optional string: `undefined`, `null` and `''` are false. */
  predicate Present(s: Option<string>) {
    s.Some? && s.value != ""
  }

  /** `x || null` for an optional string. */
  function OrNull(s: Option<string>): (r: Option<string>)
    ensures r.Some? <==> Present(s)
    ensures r.Some? ==> r == s
  {
    if Present(s) then s else None
  }
}

/** What several models share: optional values, instants, and the opaque identities of the system. */
module Basics {

  datatype Option<+T> = None | Some(value: T)

  /** Nanoseconds since Go's zero time; a duration is a difference of two. */
  type Time = int

  const SECOND: Time := 1_000_000_000

  type ClientId(==, !new)

  type UserId(==, !new)

  /** A scope, an audience member, or any other string nobody looks into. */
  type Text(==, !new)

  /** A goroutine. */
  type Tid(==, !new)
}

/** Values shared by every part of the model. */
module Common {

  /** A value that may be absent (a nullable column, an optional request field). */
  datatype Option<+T> = None | Some(value: T)

  /** Row identities. The database issues UUIDs; the model issues natural numbers from a counter. */
  type Id = nat

  /** An HTTP-style status code. */
  type Status = int
}

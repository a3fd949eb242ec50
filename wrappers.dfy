/** Java's nullable references and the service's thrown problems, as values. */
module Wrappers {

  /** A Java reference that may be null. */
  datatype Option<+T> = None | Some(value: T)

  /** The HTTP status a thrown problem carries. */
  datatype Status = BAD_REQUEST | NOT_FOUND

  /** A thrown problem: its status and its detail message. */
  datatype Problem = Problem(status: Status, detail: string)

  /** The outcome of an operation that either returns a value or throws a problem. */
  datatype Result<+T> = Ok(value: T) | Err(problem: Problem)

  /** How `String.format("%s", x)` renders a nullable string. */
  function Show(s: Option<string>): string
  {
    match s
    case None => "null"
    case Some(v) => v
  }

  /** `ofNullable(list).orElse(emptyList())`: a null list read as an empty one. */
  function OrEmpty<T>(list: Option<seq<T>>): (r: seq<T>)
    ensures list.None? ==> r == []
    ensures list.Some? ==> r == list.value
  {
    match list
    case None => []
    case Some(l) => l
  }
}

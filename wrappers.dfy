/** Small value wrappers shared by the whole model.
    `Option<string>` stands for a Java `String` that may be `null`. */
module Wrappers {

  datatype Option<+T> = None | Some(value: T)

  /** The outcome of a Java call that either returns a value or throws. */
  datatype Result<+T> = Ok(value: T) | Thrown(exception: string)

  /** A Spring Data query declared to return `Optional<T>`: no row, one row,
      or more than one row (which raises IncorrectResultSizeDataAccessException). */
  datatype Lookup<+T> = Absent | Found(row: T) | NonUnique

  function Single<T>(rows: seq<T>): (r: Lookup<T>)
    ensures r == Absent <==> |rows| == 0
    ensures r.Found? <==> |rows| == 1
    ensures r.Found? ==> r.row == rows[0]
  {
    if |rows| == 0 then Absent else if |rows| == 1 then Found(rows[0]) else NonUnique
  }
}

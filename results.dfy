/** Failure-compatible wrappers and the exceptions the pipeline can raise.

    The source signals every failure with a Python exception that aborts the
    current operation; the model returns them as values instead. */
module Results {

  datatype Option<+T> = None | Some(value: T)

  /** The exceptions raised by the modelled code, one constructor per cause. */
  datatype Error =
    | KeyMissing(column: string)        // `row[column]` on a row without that column
    | MalformedNumber(text: string)     // `float(text)` or `int(text)` rejected the text
    | IndexOutOfRange(column: string)   // `row[column][0]` on an empty field
    | BadDate(reason: string)           // the date arithmetic of the roster loader failed
    | MissingTeam(pid: string)          // "No team for <pid>"
    | DuplicateInsertion(unit: string, team: string, pid: string)  // "Multiple insertion, ..."
    | MissingUnit(pid: string)          // "No games count for <pid>"
    | NotFound(pid: string)             // lookup of an unknown player ID
    | ShapeMismatch(other: string, pids: nat, reported: nat)  // "len(pids) is .. but len(other) is .."
    | EmptyStack                        // numpy.vstack of an empty list

  datatype Result<+T> = Ok(value: T) | Err(error: Error) {
    predicate IsFailure() { Err? }

    function PropagateFailure<U>(): Result<U>
      requires Err?
    {
      Err(error)
    }

    function Extract(): T
      requires Ok?
    {
      value
    }
  }

  /** The result of an operation that only changes state: it either finished or raised. */
  datatype Outcome = Pass | Fail(error: Error) {
    predicate IsFailure() { Fail? }

    function PropagateFailure(): Outcome
      requires Fail?
    {
      this
    }
  }
}

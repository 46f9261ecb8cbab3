/** Failure-compatible wrappers shared by every module of the model. */
module Wrappers {

  datatype Option<+T> = None | Some(value: T) {
    predicate IsFailure() { None? }

    function PropagateFailure<U>(): Option<U>
      requires None?
    {
      None
    }

    function Extract(): T
      requires Some?
    {
      value
    }
  }

  datatype Result<+R, +E> = Success(value: R) | Failure(error: E) {
    predicate IsFailure() { Failure? }

    function PropagateFailure<U>(): Result<U, E>
      requires Failure?
    {
      Failure(error)
    }

    function Extract(): R
      requires Success?
    {
      value
    }
  }

  datatype Outcome<+E> = Pass | Fail(error: E)

  /** The exceptions the analysers raise; each one ends the run. */
  datatype Fault =
    | BadHexToken        // int(token, 16) raises ValueError
    | BadDecimal         // int(text) raises ValueError
    | IpUnbound          // ip_str read before any UDPv4 locator assigned it
    | AddressUnbound     // last_4_ip_list read before any locator carried an address
    | Unorderable        // sorted() compares None with a topic name
    | MissingGroup       // group_by_kind["writer"] or ["reader"] raises KeyError
    | NothingToConcat    // pd.concat([]) raises ValueError
    | NoParticipantRows  // new_row read after a loop that never ran
    | MissingChild       // find() gave None, and reading its .text raises AttributeError
    | NoParticipantData  // iterating a missing participant_data raises TypeError
}

/** The result shapes shared by the three services. */
module Outcomes {

  /** What one service call answers: a value, or one of the error kinds the
      services raise. NotFound and Conflict are the deliberate domain errors;
      Unexpected is a storage failure surfaced as a server error. */
  datatype Outcome<+T> = Ok(value: T) | NotFound | Conflict | Unexpected

  /** A field that an update request may or may not supply. */
  datatype Option<+T> = None | Some(value: T) {

    /** The supplied value, or `fallback` when the field was left out. */
    function Or(fallback: T): T {
      if Some? then value else fallback
    }
  }
}

/** Calls to the API server. */
module Calls {

  /** Refused: no effect and an error. Lost: the effect and an error. */
  datatype Outcome = Done | Refused | Lost {
    predicate Happened() {
      !Refused?
    }
  }
}

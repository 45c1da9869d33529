/** The error kinds the rover code raises, and the carriers of success or failure
    that replace Python exceptions in this model. */
module Outcomes {

  /** One constructor per exception class the code raises. The first four are the
      project's own exception classes; IndexError (a list index out of range),
      KeyError (a dictionary without the key) and TypeError (vars() on an object
      without a __dict__) are Python's own. */
  datatype Error =
    | SpaceError
    | NavigationError
    | FleetError
    | CommunicationError
    | IndexError
    | KeyError
    | TypeError

  datatype Option<T> = None | Some(value: T)

  /** A call that returns a value or raises. */
  datatype Result<T> = Ok(value: T) | Err(error: Error)

  /** A call that returns nothing or raises. */
  datatype Outcome = Pass | Fail(error: Error)
}

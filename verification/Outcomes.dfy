/** How a call of the modelled TypeScript ends: normally, or by throwing an error. */
module Outcomes {

  datatype Option<+T> = None | Some(value: T)

  /** A call that returns a value, or throws. */
  datatype Result<+T> = Ok(value: T) | Err(error: string)

  /** A call that returns nothing, or throws. */
  datatype Outcome = Done | Thrown(error: string)
}

/** The two recoverable error conditions of the container and the
    result shapes of its checked and fallible tiers. */
module Outcomes {

  /** `CapacityExceeded` is the allocation-exhaustion failure of every
      checked growth operation; `OutOfRange` is the failure of `at`. */
  datatype Error = CapacityExceeded | OutOfRange

  /** The diagnostic text carried by each error: "bad allocation" for
      exactly the capacity failures, "inplace_vector::at" for exactly the
      range failure of `at`. */
  function Message(e: Error): (r: string)
    ensures r == "bad allocation" <==> e == CapacityExceeded
    ensures r == "inplace_vector::at" <==> e == OutOfRange
  {
    match e
    case CapacityExceeded => "bad allocation"
    case OutOfRange => "inplace_vector::at"
  }

  /** Result of a checked operation that yields a value. */
  datatype Result<+R> = Ok(value: R) | Err(error: Error)

  /** Result of a checked operation that yields nothing. */
  datatype Status = Pass | Fail(error: Error)

  /** Result of a fallible-tier operation: `None` plays the null pointer. */
  datatype Option<+R> = None | Some(value: R)
}

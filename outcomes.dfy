/** The Python exceptions the initial-condition writer can raise, and the
    two failure-carrying shapes used throughout the model: an Outcome for
    procedures that return None or raise, a Result for ones that build a value. */
module Outcomes {

  /** One constructor per exception kind raised by the modelled code;
      the string is the message (or the missing name) the code supplies. */
  datatype Error =
    | ValueError(msg: string)
    | IOError(msg: string)
    | Exception(msg: string)
    | KeyError(msg: string)
    | NameError(name: string)
    | AttributeError(name: string)
    | UnboundLocalError(name: string)
    | IndexError
    | StructError
    | TypeError
    | SystemExit

  /** Returned None, or raised `error`. */
  datatype Outcome = Pass | Fail(error: Error) {
    /** Run `next` only if this one passed: the first failure wins. */
    function Then(next: Outcome): Outcome {
      if Pass? then next else this
    }
  }

  datatype Option<+T> = None | Some(value: T)

  datatype Result<+T> = Ok(value: T) | Err(error: Error)

  /** numpy's message when an array is allocated with a negative extent. */
  const NegativeDimensions: Error := ValueError("negative dimensions are not allowed")
}

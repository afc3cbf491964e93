/** Failure-carrying wrappers shared by the whole model.

    Python signals the library's failure modes with exceptions; the model
    returns them as values instead, so every operation that can raise has a
    `Result` type and its error path is part of its contract.
 */
module Results {

  /** Python's `None` versus a present value. */
  datatype Option<+T> = None | Some(value: T)

  /** The exceptions the modelled code can raise. */
  datatype Error =
    /** An `InputParam` has no `get_rand_value`: `AttributeError`. */
    | NoDraw(param: string)
    /** `random.choice` on an empty value range raises `IndexError`. */
    | EmptyRange(param: string)
    /** `random.choice` on a range that was never set (`None`) raises `TypeError`. */
    | NoRange(param: string)
    /** Assigning a value at a position past the end of an individual. */
    | ValueIndex(position: nat)
    /** A fitness result with more objectives than there are accumulator lists. */
    | ObjectiveIndex(objective: nat)

  datatype Result<+T> = Ok(value: T) | Err(error: Error)
}

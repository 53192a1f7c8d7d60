/** Optional values and failure outcomes shared by every module of the model.
    A `Failure` stands for a Python exception that ends the current run. */
module Outcomes {

  datatype Option<+T> = None | Some(value: T) {
    function GetOr(default: T): T {
      match this
      case Some(v) => v
      case None => default
    }
  }

  /** The exceptions the bot's code can raise on the paths that are modelled. */
  datatype Error =
    | DivisionByZero                 // Decimal x / 0 with x != 0
    | InvalidOperation               // Decimal 0 / 0
    | IndexError                     // `[0]` on an empty query result
    | NameError                      // a name the module never defines
    | AttributeError                 // an attribute read on None
    | TypeError                      // None compared with or indexed like a Decimal / dict
    | StopIteration                  // `next(...)` over an empty generator
    | ValueError                     // `max(...)` of an empty sequence
    | OrderNotFilled                 // explicit raise: a market order that did not fill
    | IntegrityError                 // NULL saved into a NOT NULL column
    | UnimplementedStatus(status: string)
    | ApiError(message: string)      // an exchange-client exception passed on unchanged

  datatype Result<+T> = Success(value: T) | Failure(error: Error)
}

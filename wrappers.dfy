/** Failure-compatible wrappers and the exceptions the core can raise. */
module Wrappers {

  datatype Option<+T> = None | Some(value: T)

  /** Success or the exception that stopped the computation; usable with `:-`. */
  datatype Result<+R> = Success(value: R) | Failure(error: Error) {
    predicate IsFailure() {
      Failure?
    }

    function PropagateFailure<U>(): Result<U>
      requires Failure?
    {
      Failure(error)
    }

    function Extract(): R
      requires Success?
    {
      value
    }
  }

  /** The Python exceptions raised by the core, with the data they carry. */
  datatype Error =
    | BadInteger(token: string)          // ValueError from int()
    | BadDecimal(token: string)          // InvalidOperation from Decimal()
    | MissingField(index: nat)           // IndexError on tokens[index]
    | Unrecognized(line: string)         // NotImplementedError from add_from_line
    | MultipleGlobalOffsets              // Exception from global_offset
    | NoOriginOffset                     // IndexError on offsets[0] in global_offset
    | MissingKey(key: Option<int>)       // KeyError on a slot-indexed dict (None: a part with no reel)
    | MissingPart                        // ValueError from list.remove
    | UnexpectedUnits(line: string)      // ValueError from detect_units
    | NotCallable                        // TypeError: a Decimal is called like a method
    | NotIterable                        // TypeError: a for loop over an object without iteration
    | NotSubscriptable                   // TypeError: a set is indexed
    | UnboundLocal                       // UnboundLocalError: a variable read before any assignment
}

/** Failure-carrying results for the deduplication model.
    Every exception the Python code raises (ValueError, KeyError,
    AttributeError, AssertionError, TypeError, NameError) becomes an `Err` with the matching kind. */
module Outcomes {

  /** The error conditions the duplicate-detection code can end in. */
  datatype Error =
    | MissingKey(key: string)          // h5py raises KeyError for an absent dataset
    | ShapeMismatch(key: string)       // "Different datasets in same HDF5 file have different shapes."
    | NoRecordCount                    // range(None): no common keys, so no record count
    | NoFields                         // encoder is still None: hexdigest() on None
    | DuplicateWithinFile              // "There are duplicates within a single file."
    | InvalidIndex1                    // "Invalid value for index 1"
    | InvalidIndex2                    // "Invalid value for index 2"
    | InvalidArguments                 // a failed assert in validate_script_arguments
    | UnexpectedKeyword(name: string)  // TypeError: a call passes a keyword the callee lacks
    | UndefinedName(name: string)      // NameError: a name that is neither local nor imported

  datatype Result<+T> = Ok(value: T) | Err(error: Error) {
    predicate IsFailure() {
      Err?
    }

    function PropagateFailure<U>(): Result<U>
      requires Err?
    {
      Err(error)
    }

    function Extract(): T
      requires Ok?
    {
      value
    }
  }

  datatype Option<+T> = None | Some(value: T)
}

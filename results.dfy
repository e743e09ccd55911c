/** Outcomes of the modelled Python code: a value, or the exception it raises. */
module Results {

  /** Python's `None` or a value. */
  datatype Option<+T> = None | Some(value: T)

  /** The exceptions the modelled code can raise (only their kind matters here). */
  datatype Error =
    | IOError            // open() of a file that does not exist
    | OSError            // os.makedirs('') or chdir to a directory that does not exist
    | IndexError         // a negative index beyond the start of a list
    | ValueError         // strptime, min/max of an empty list, datetime range, strftime before 1900
    | OverflowError      // datetime arithmetic outside years 1-9999
    | UnboundLocalError  // a local variable read before any assignment
    | JsonError          // json.load of a file that does not hold JSON text
    | UrlError           // the HTTP request failed
    | CipherError        // AES rejected the key or the IV

  /** A Python call either returns a value or raises. */
  datatype Result<+T> = Ok(value: T) | Err(error: Error) {
    predicate IsFailure() { Err? }

    function PropagateFailure<U>(): Result<U>
      requires Err?
    {
      Err(error)
    }

    function Extract(): T
      requires Ok?
    {
      value
    }
  }
}

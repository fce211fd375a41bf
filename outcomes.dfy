/** Outcomes of the dashboard's Python callbacks: a value, or an exception that
    escapes the callback (Dash then leaves the callback's outputs unchanged). */
module Outcomes {

  datatype Option<+T> = None | Some(value: T)

  /** The Python exceptions the modelled callbacks can let escape. */
  datatype Exception =
    | UnpackError       // ValueError: `contents.split(',')` did not give exactly two parts
    | Base64Error       // binascii.Error from base64.b64decode
    | NothingToConcat   // ValueError: pd.concat was given an empty list
    | ConcatTypeError   // TypeError: pd.concat was given an html.Div error marker
    | IndexError        // an empty list indexed with [0]
    | ReadJsonError     // pd.read_json on the empty store
    | NameError(name: string)  // a module-level name that was never bound

  /** A value, or the exception raised while computing it. */
  datatype Result<+T> = Ok(value: T) | Raised(exn: Exception) {
    predicate IsFailure() {
      Raised?
    }

    function PropagateFailure<U>(): Result<U>
      requires Raised?
    {
      Raised(exn)
    }

    function Extract(): T
      requires Ok?
    {
      value
    }
  }
}

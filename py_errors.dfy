/** The Python exceptions the connection test raises and tells apart, as values. */
module PyErrors {
  /** An exception's class, as far as the handlers look at it. */
  datatype PyKind =
    | FileNotFound    // FileNotFoundError
    | ValueErr        // ValueError
    | JsonDecodeErr   // json.JSONDecodeError, a subclass of ValueError
    | RequestsErr     // a class defined by the `requests` package
    | PlainException  // `Exception` itself, as the transport wrappers raise it
    | OtherErr        // any other class: KeyError, AttributeError, UnboundLocalError, ...

  /** An exception: its class and `str(e)`. */
  datatype PyError = PyError(kind: PyKind, text: string)

  /** `isinstance(e, ValueError)`. */
  predicate IsValueError(k: PyKind)
  {
    k == ValueErr || k == JsonDecodeErr
  }
}

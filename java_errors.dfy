/** The Java exceptions the connection test raises and classifies, as values. */
module JavaErrors {
  import opened Wrappers

  /** An exception: `getClass().getName()` and `getMessage()`, which may be null. */
  datatype JavaError = JavaError(className: string, message: Option<string>)

  const IOExceptionClass := "java.io.IOException"
  const ExceptionClass := "java.lang.Exception"
  const IndexOutOfBoundsClass := "java.lang.ArrayIndexOutOfBoundsException"

  /** `"..." + e.getMessage()`: a null message prints as `null`. */
  function MessageText(e: JavaError): (r: string)
    ensures e.message.Some? ==> r == e.message.value
  {
    match e.message
    case Some(m) => m
    case None => "null"
  }
}

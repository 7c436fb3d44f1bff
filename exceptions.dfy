/** The Java exceptions that the output session raises, catches or passes on,
    and the way Guava's Throwables.propagate rethrows them. */
module Exceptions {

  datatype Option<T> = None | Some(value: T)

  /** The exceptions that matter to the session. The first three are checked
      exceptions in Java; the others are unchecked. */
  datatype Exception =
    | FileNotFound                 // java.io.FileNotFoundException
    | UriSyntax                    // java.net.URISyntaxException
    | Io(message: string)          // any other java.io.IOException
    | Config(message: string)      // org.embulk.config.ConfigException
    | NullPointer                  // java.lang.NullPointerException
    | IndexOutOfBounds             // java.lang.IndexOutOfBoundsException
    | IllegalArgument              // java.lang.IllegalArgumentException
    | Unchecked(message: string)   // any other RuntimeException, e.g. from the object-store client
    | Wrapped(cause: Exception)    // the RuntimeException that Throwables.propagate builds around a checked one

  predicate IsChecked(e: Exception)
  {
    e.FileNotFound? || e.UriSyntax? || e.Io?
  }

  /** Throwables.propagate: an unchecked exception is rethrown as it is, a
      checked one inside a RuntimeException whose cause it is. */
  function Propagate(e: Exception): (r: Exception)
    ensures !IsChecked(r)
    ensures r == e <==> !IsChecked(e)
    ensures r != e ==> r.Wrapped? && r.cause == e
  {
    if IsChecked(e) then Wrapped(e) else e
  }

  /** Either a value or the exception thrown instead. */
  datatype Result<T> = Success(value: T) | Failure(error: Exception)

  /** How a void method of the session ends: normally or by throwing. */
  datatype Status = Ok | Threw(exception: Exception)
}

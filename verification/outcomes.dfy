/** Typed stand-ins for the Python exceptions and dynamically typed values that
    cross the boundaries of the chatbot core. Every collaborator call the
    source wraps in try/except is modelled as returning one of these. */
module Outcomes {

  /** A value that may be absent, as a missing dict key or a `None`. */
  datatype Option<+T> = None | Some(value: T)

  /** The exception classes the core raises or lets escape. */
  datatype Error =
    | ValueError      // bad argument: negative deque bound, invalid batch input
    | RuntimeError    // the emotion pipeline could not be constructed
    | AttributeError  // attribute missing on an object (`self.logger`, `.strip` on a non-string)
    | IndexError      // `random.choice` of an empty list
    | LookupError     // an NLTK corpus that is not installed

  /** Either a value or the exception that was raised instead. */
  datatype Result<+T> = Success(value: T) | Failure(error: Error)

  /** A dynamically typed Python value, as far as the core inspects it:
      either a `str` or something else (number, list, `None`, ...). */
  datatype Value = Str(s: string) | NonStr
}

/** Option and the outcome of a call into a library the model cannot see. */
module Wrappers {

  datatype Option<+T> = None | Some(value: T)

  /** The kind of a Python exception, as far as the handlers in the core tell kinds apart. */
  datatype ExcKind =
    | TranscriptsDisabled
    | NoTranscriptFound
    | NameError
    | HttpError
    | OtherError

  /** A raised exception: its kind and what `str(e)` gives. */
  datatype Exc = Exc(kind: ExcKind, message: string)

  /** What a library call did: returned a value, or raised. */
  datatype Reply<+T> = Ok(value: T) | Raised(exc: Exc)
}

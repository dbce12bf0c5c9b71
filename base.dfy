/** Failure-carrying wrappers shared by every module of the model, and the
    Python exceptions the modelled code raises or catches. */
module Base {

  datatype Option<T> = None | Some(value: T)

  /** The outcome of a Python call that either returns a value or raises. */
  datatype Result<T> = Ok(value: T) | Err(error: Error)

  /** The exceptions that matter to the modelled decisions. Each constructor
      says which Python exception it stands for. */
  datatype Error =
    /** ValueError raised by create_novel_project for an existing project path. */
    | ProjectExists(name: string)
    /** ValueError raised by load_novel_config for an existing but unreadable config. */
    | ProjectConfigUnreadable(path: string)
    /** ValueError raised by create_embedding_adapter for an unknown format tag. */
    | UnknownInterfaceFormat(format: string)
    /** ValueError raised by int() on a string that is not a decimal integer. */
    | InvalidInt(text: string)
    /** KeyError for a missing dictionary key. */
    | MissingKey(key: string)
    /** TypeError or AttributeError: a JSON value of the wrong kind was indexed or called. */
    | WrongKind(what: string)
    /** IndexError for a list index past either end of the list. */
    | IndexOutOfRange(index: int)
    /** OSError (FileExistsError, NotADirectoryError, FileNotFoundError, IsADirectoryError)
        from a filesystem call on the given path. */
    | OsError(path: string)
    /** EOFError raised by input() when the answers run out. */
    | EndOfInput
}

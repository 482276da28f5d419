/** The errors that flow through the modelled code. Go's `error` values are
    open-ended; the model names the ones the code inspects or creates and
    lumps every other failure an external call can report into `IoFailure`. */
module Errors {
  import opened FileModes

  datatype Error =
    /** A "does not exist" error, the kind `os.IsNotExist` recognises. */
    | NotExist(path: string)
    /** Any other failure reported by the filesystem or the store. */
    | IoFailure(reason: string)
    /** `errUnsupportedFileType`: the path and the full, unmasked mode. */
    | UnsupportedFileType(absPath: string, mode: FileMode)
    /** The error of `validateKeys`: "<key>: invalid key". */
    | InvalidKey(key: string)
    /** `strconv.ParseBool`'s syntax error, carrying the rejected input. */
    | ParseBoolSyntax(input: string)
    /** A write attempted on a store opened read-only. */
    | ReadOnlyDatabase

  /** Go's `os.IsNotExist`. */
  predicate IsNotExist(e: Error) {
    e.NotExist?
  }
}

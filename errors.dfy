/** The failures the engine can raise, one constructor per kind of error
    object the program throws or lets through. */
module Errors {

  /** The two `DegitError` codes of the source-string parser. */
  datatype DegitCode = BadSrc | UnsupportedHost

  datatype Error =
    /** `InputError`: a user-correctable mistake, printed without a trace. */
    | InputError(message: string)
    /** `DegitError` thrown by the source-string parser. */
    | DegitError(code: DegitCode, message: string)
    /** The YAML loader threw on the text of this file (or `set` value). */
    | YamlLoadError(path: string)
    /** The YAML serialiser threw. */
    | YamlDumpError
    /** `readFile` failed on a file that must be read. */
    | ReadError(path: string)
    /** `readdir` failed with something other than ENOENT. */
    | DirectoryError(path: string)
    /** A property was read from `null` or `undefined`. */
    | TypeError
    /** `JSON.parse` threw on a recovered OPTIONS payload. */
    | JsonError(text: string)
    /** A plain `Error` (not an `InputError`). */
    | PlainError(message: string)
}

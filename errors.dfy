/** The error values the core returns. The first six are the package-level sentinel errors of
    internal/core; the others stand for the *PathError and exec errors that the filesystem and the
    process executor hand back. */
module Errors {

  datatype Error =
    | LanguageNotDebuggable                // ErrLanguageNotDebuggable
    | NoSuchLanguage                       // ErrNoSuchLanguage
    | NoSuchSolution                       // ErrNoSuchSolution
    | NoSuchTestCase                       // ErrNoSuchTestCase
    | InvalidLanguageDirectory             // ErrInvalidLanguageDirectory
    | InvalidLanguageConfigurationFile     // ErrInvalidLanguageConfigurationFile
    | NotADirectory(path: string)          // MkdirAll met a regular file on the way
    | IsADirectory(path: string)           // Create on a path that is a directory
    | NotFound(path: string)               // Open of a missing path
    | ReadFailed(path: string)             // reading a stream that is not a regular file
    | ExecFailed(message: string)          // start or wait of an external script failed
}

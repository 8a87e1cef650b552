/** A value that may be absent (a C# null). */
module Wrappers {

  datatype Option<+T> = None | Some(value: T)
}

/** Failures the storage layer reports, and the result type that carries them. */
module Errors {
  import opened Paths

  /** What a failing call of System.IO itself raises (as opposed to the library's own exceptions). */
  datatype NativeFailure =
    | NativeFileNotFound       // System.IO.FileNotFoundException
    | NativeDirectoryNotFound  // System.IO.DirectoryNotFoundException
    | NativeIOError            // System.IO.IOException: target exists, sharing violation, ...
    | UnauthorizedAccess       // System.UnauthorizedAccessException: a directory used as a file
    | InvalidPath              // System.ArgumentException raised on an empty path

  /** The exceptions of the library and of the runtime that the core raises.
      The library's not-found exceptions carry the handle; here they carry its path. */
  datatype Error =
    | FileNotFound(file: Path)                   // UnifiedStorage.Exceptions.FileNotFoundException
    | DirectoryNotFound(directory: Path)         // UnifiedStorage.Exceptions.DirectoryNotFoundException
    | UnifiedIO(message: string)                 // UnifiedStorage.Exceptions.UnifiedIOException
    | StorageIO(message: string)                 // UnifiedStorage.Exceptions.IOException (older revision)
    | ArgumentOutOfRange(paramName: string)      // System.ArgumentOutOfRangeException
    | Argument(message: string)                  // System.ArgumentException(message)
    | ArgumentNull(paramName: string)            // System.ArgumentNullException
    | OperationCanceled                          // System.OperationCanceledException
    | Native(failure: NativeFailure)

  datatype Result<+T> = Ok(value: T) | Err(error: Error)
}

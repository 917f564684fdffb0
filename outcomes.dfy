/** Optional values, results and the failures the dependency manager reports.
    Each Go error message becomes one constructor of `Error`; the wording of
    the messages is not modelled, what they are about is. */
module Outcomes {
  import opened Paths

  datatype Option<T> = None | Some(value: T)

  datatype Error =
    | CopySourceMissing(source: string)
    | LocalSourceMissing(source: string)
    | MkdirFailed(path: Path)
    | NotADirectory(path: Path)
    | ReadFailed(path: Path)
    | WriteFailed(path: Path)
    | CopyIntoItself(from: Path, into: Path)
    | UnsupportedLocation(location: string)
    | InvalidGitUrl(url: string)
    | CloneFailed(url: string, cause: Error)
    | CheckoutFailed(tag: string, url: string, cause: Error)
    | External(message: string)
    | ProjectFileMissing(path: Path)
    | ProjectFileInvalid(path: Path, cause: Error)
    | NotAMapping
    | InvalidNamespaceType
    | LocationNotString
    | NoRepositoryFile
    | RepositoryFileInvalid(path: Path, cause: Error)
    | TransitiveFailed(namespace: string, cause: Error)
    | RefactorFailed(namespace: string, cause: Error)
    | DependencyReadFailed(cause: Error)
    | DependencyLoadFailed(cause: Error)
    | DepthExhausted

  datatype Result<T> = Ok(value: T) | Err(error: Error)

  /** The result of an operation that returns only an error. */
  datatype Outcome = Pass | Fail(error: Error)
}

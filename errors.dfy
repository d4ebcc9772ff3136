/**
 * Failure values of the converters and of the mount-table reader.
 *
 * Every exception the modelled Python code can raise on some input is one
 * constructor of `Error`; a computation that may raise returns a `Result`.
 */
module Errors {

  datatype Option<+T> = None | Some(value: T)

  datatype Error =
    /** ValueError: the distro name was neither given nor found in WSL_DISTRO_NAME. */
    | DistroUnset
    /** KeyError: `environ['WSL_DISTRO_NAME']` was read while the variable is unset. */
    | DistroKeyError
    /** ValueError from urlparse: a '[' or ']' in the network location without its partner. */
    | InvalidIPv6Url
    /** ValueError from PurePosixPath.as_uri on a relative path. */
    | RelativeFileUri
    /** IndexError: `mounts[0]` on an empty list of mount points. */
    | EmptyMountList
    /** TypeError from MountedDevice._make: a mount line with fewer than three fields. */
    | TooFewFields(count: nat)
    /** IndexError: `args[0]` on an empty argument vector. */
    | NoProgramName
    /** IndexError: `args[0]` in `partition_command` on an empty command line. */
    | EmptyCommand

  /** A computation that either yields a value or raises one of the errors above. */
  datatype Result<+T> = Ok(value: T) | Err(error: Error) {

    predicate IsFailure() {
      Err?
    }

    function PropagateFailure<U>(): Result<U>
      requires Err?
    {
      Err(error)
    }

    function Extract(): T
      requires Ok?
    {
      value
    }
  }
}

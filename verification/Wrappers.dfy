/** Results and optional values shared by the other modules. */
module Wrappers {

  datatype Option<+T> = None | Some(value: T)

  datatype Result<+T, +E> = Success(value: T) | Failure(error: E)

  type u32 = n: nat | n < 0x1_0000_0000

  /** The kinds of `QrmiError` the modelled operations report. */
  datatype ErrorKind =
    | InvalidInput
    | InvalidConfig
    | UnsupportedFunction
    | UnsupportedPayload
    | TaskNotFound
    | TaskNotReady
    | MissingConfigKey
    | EnvVarNotSet
    | AuthenticationFailed
    | ResourceNotFound
    | Other
}

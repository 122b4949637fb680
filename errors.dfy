/** The failure-carrying types shared by every module, and the closed set of
    exceptions the modelled code raises. */
module Errors {

  datatype Option<+T> = None | Some(value: T)

  /** The user-facing messages referred to by name (their texts live in a
      messages module that is not part of this model). */
  datatype Message =
    | UnsupportedAutoAttach
    | UnableToDetermineCloudType
    | UnsupportedAutoAttachCloudType(cloudType: string)
    | DetachAutomationFailure
    | FailedToParseKernel(text: string)
    | FailedToSplitKernelVersion(text: string)
    | InvalidAptCredentials(repoUrl: string)
    | CouldNotParseOsReleaseVersion(original: string, modified: string)

  /** One constructor per exception class raised or propagated by the core. */
  datatype Error =
    | EntitlementNotFoundError(names: seq<string>)
    | BetaServiceError(msg: string, msgCode: string)
    | EntitlementNotEnabledError(msg: string, msgCode: string, service: string)
    | FullAutoAttachFailureError(msg: string, msgCode: string)
    | NonAutoAttachImageError(message: Message)
    | UserFacingError(message: Message)
    | AlreadyAttachedError
    | AlreadyAttachedOnPROError(instanceId: string)
    | ContractAPIError(code: Option<int>)
    | UrlError(reason: string)
    | InvalidAPTCredentialsError(message: Message)
    | RuntimeError(message: Message)
    | ValueError(reason: string)
    | KeyError(key: string)
    | FileNotFoundError(path: string)
    | SameFileError(path: string)
    | OtherError(reason: string)

  datatype Result<+T> = Ok(value: T) | Err(error: Error)

  /** The result of an operation that returns nothing useful (Python `None`). */
  datatype Outcome = Pass | Fail(error: Error)
}

/** Worker errors as the set of sentinel errors a Go error matches, and the
    stable codes the two workers persist for them. */
module WorkerErrors {
  import opened Operations

  datatype Sentinel =
    | Canceled | DownloadUnavailable | Incompatible | InvalidModel | InsufficientSpace
    | Permission | NotExist | Unavailable | ModelNotFound | Precondition
    | RuntimeUnavailable | SourceUnavailable | Unclassified

  function InstallErrorCode(error: set<Sentinel>): (code: string)
    ensures 0 < |code| <= MAX_ERROR_CODE
    ensures code == "cancelled" <==> Canceled in error && DownloadUnavailable !in error
    ensures code == "download_failed" <==> DownloadUnavailable in error
    ensures code == "internal_error" <==>
      error !! {DownloadUnavailable, Canceled, Incompatible, InvalidModel, InsufficientSpace, Permission, NotExist}
    ensures
      match code
      case "model_incompatible" => Incompatible in error || InvalidModel in error
      case "insufficient_space" => InsufficientSpace in error && Incompatible !in error && InvalidModel !in error
      case "model_source_unsafe" => Permission in error && error !! {Incompatible, InvalidModel, InsufficientSpace}
      case "model_source_unavailable" =>
        NotExist in error && error !! {Incompatible, InvalidModel, InsufficientSpace, Permission}
      case _ => code in {"download_failed", "cancelled", "internal_error"}
  {
    if DownloadUnavailable in error then "download_failed"
    else if Canceled in error then "cancelled"
    else if Incompatible in error || InvalidModel in error then "model_incompatible"
    else if InsufficientSpace in error then "insufficient_space"
    else if Permission in error then "model_source_unsafe"
    else if NotExist in error then "model_source_unavailable"
    else "internal_error"
  }

  const UNAVAILABLE := {Unavailable, ModelNotFound, Precondition, RuntimeUnavailable}

  function ActivationErrorCode(error: set<Sentinel>): (code: string)
    ensures 0 < |code| <= MAX_ERROR_CODE
    ensures code == "cancelled" <==> Canceled in error
    ensures code == "internal_error" <==>
      error !! UNAVAILABLE + {Canceled, Incompatible, InvalidModel, SourceUnavailable}
    ensures
      match code
      case "model_unavailable" => !(error !! UNAVAILABLE)
      case "model_incompatible" =>
        !(error !! {Incompatible, InvalidModel}) && error !! UNAVAILABLE
      case "model_source_unavailable" =>
        && SourceUnavailable in error
        && error !! UNAVAILABLE + {Incompatible, InvalidModel}
      case _ => code in {"cancelled", "internal_error"}
  {
    if Canceled in error then "cancelled"
    else if Unavailable in error || ModelNotFound in error || Precondition in error || RuntimeUnavailable in error
    then "model_unavailable"
    else if Incompatible in error || InvalidModel in error then "model_incompatible"
    else if SourceUnavailable in error then "model_source_unavailable"
    else "internal_error"
  }

  /** The sentinels matched by an error of the operation store. */
  function Matches(error: Error): set<Sentinel> {
    match error
    case ContextCanceled => {Canceled}
    case PreconditionFailed => {Precondition}
    case ModelUnavailable => {Unavailable}
    case _ => {Unclassified}
  }
}

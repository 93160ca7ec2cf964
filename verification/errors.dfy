/** The errors the HTTP layer can answer with, and their status codes. */
module Errors {

  import opened Schemas

  /** Why a request was refused as invalid input (status 400). */
  datatype InvalidReason =
    | FeatureCountMismatch(expected: int, received: int)
    | TooFewPrices(lag: int, minRequired: int, estimator: Method)
    | InsufficientVolatility(lag: int)

  /** A failure raised outside every handler of the API, which the web
      framework turns into a generic server error. */
  datatype Uncaught =
    | LoadFailed(path: string)
    | MalformedLag(fileName: string)

  datatype ApiError =
    | NotFound(lag: int)                 // no bundle file for the requested lag
    | InvalidInput(reason: InvalidReason)
    | InternalError(cause: string)       // scaling or inference failed
    | Unhandled(failure: Uncaught)
    | ValidationFailed(fields: seq<string>)  // the request body breaks the schema

  /** The HTTP status code the framework answers each error with. */
  function Status(e: ApiError): (code: int)
    ensures code in {400, 404, 422, 500}
    ensures code == 404 <==> e.NotFound?
    ensures code == 400 <==> e.InvalidInput?
    ensures code == 422 <==> e.ValidationFailed?
  {
    match e
    case NotFound(_) => 404
    case InvalidInput(_) => 400
    case InternalError(_) => 500
    case Unhandled(_) => 500
    case ValidationFailed(_) => 422
  }
}

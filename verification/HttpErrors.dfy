/** The six-class error taxonomy of the HTTP layer. Messages are not modelled. */
module HttpErrors {
  import opened Prelude

  datatype ErrorClass = FatalConfig | AuthRecoverable | AuthFatal | RateLimited | Transient | SchemaParse

  datatype Reason = Auth | TooManyRequests | Timeout | Network | Http5xx | Parse | Unknown

  /** `exhausted` marks the subclass thrown when the last permitted attempt failed. */
  datatype HttpError = HttpError(kind: ErrorClass, reason: Reason, statusCode: Option<int>, retryAfterMs: Option<real>,
                                 exhausted: bool)

  /** What may reach a catch clause: an error that is already classified, an abort, or anything else. */
  datatype Thrown = Classified(error: HttpError) | Aborted | Other

  predicate IsRetryable(e: HttpError) { e.kind.Transient? || e.kind.RateLimited? }

  function ClassifyStatusCode(status: int, retryAfterMs: Option<real>): HttpError
  {
    if status == 429 then HttpError(RateLimited, TooManyRequests, Some(status), retryAfterMs, false)
    else if status == 401 || status == 403 then HttpError(AuthFatal, Auth, Some(status), None, false)
    else if status >= 500 then HttpError(Transient, Http5xx, Some(status), retryAfterMs, false)
    else HttpError(SchemaParse, Unknown, Some(status), None, false)
  }

  function ClassifyNetworkError(thrown: Thrown): HttpError
  {
    match thrown
    case Classified(error) => error
    case Aborted => HttpError(Transient, Timeout, None, None, false)
    case Other => HttpError(Transient, Network, None, None, false)
  }

  function Exhausted(last: HttpError): HttpError { last.(exhausted := true) }
}

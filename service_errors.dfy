/**
 * `HandleServiceError` and the identical `catch` blocks of the forms
 * service: whatever the wrapped operation throws is rethrown as an RPC
 * error whose message and status fall back to defaults.
 */
module ServiceErrors {
  import opened Wrappers

  /** What an operation throws, as far as the handler reads it: `message`
      and `status`, each possibly missing. */
  datatype Thrown = Thrown(message: Option<string>, status: Option<int>)

  /** The payload of the `RpcException` the handler throws. */
  datatype RpcError = RpcError(message: string, status: int)

  /** `HttpStatus.INTERNAL_SERVER_ERROR`. */
  const InternalServerError := 500

  /** `error.message || defaultMessage`: a missing or empty message falls back. */
  function MessageOf(e: Thrown, defaultMessage: string): (m: string)
    ensures e.message.Some? && e.message.value != [] ==> m == e.message.value
    ensures e.message.None? || e.message.value == [] ==> m == defaultMessage
  {
    match e.message
    case Some(m) => if m != [] then m else defaultMessage
    case None => defaultMessage
  }

  /** `error.status || 500`: a missing status or a status of 0 becomes 500. */
  function StatusOf(e: Thrown): (s: int)
    ensures s != 0
    ensures e.status.Some? && e.status.value != 0 ==> s == e.status.value
    ensures e.status.None? || e.status.value == 0 ==> s == InternalServerError
  {
    match e.status
    case Some(s) => if s != 0 then s else InternalServerError
    case None => InternalServerError
  }

  /** The RPC error built from what was thrown. */
  function Normalize(e: Thrown, defaultMessage: string): RpcError {
    RpcError(MessageOf(e, defaultMessage), StatusOf(e))
  }

  /** The decorated operation: the original outcome when it succeeds, the
      normalised error when it throws. */
  function Handle<T>(outcome: Result<T, Thrown>, defaultMessage: string): (r: Result<T, RpcError>)
    ensures r.Success? <==> outcome.Success?
    ensures outcome.Success? ==> r.value == outcome.value
    ensures outcome.Failure? ==> r.error == Normalize(outcome.error, defaultMessage)
  {
    match outcome
    case Success(v) => Success(v)
    case Failure(e) => Failure(Normalize(e, defaultMessage))
  }

  /** A normalised error is complete: with a non-empty default its message is
      never empty and its status never 0, and normalising a value that
      already carries them (under any default) changes nothing. */
  lemma NormalizeStable(e: Thrown, defaultMessage: string, otherDefault: string)
    requires defaultMessage != []
    ensures var r := Normalize(e, defaultMessage);
      r.message != [] && r.status != 0 &&
      Normalize(Thrown(Some(r.message), Some(r.status)), otherDefault) == r
  {
  }

  /** The fallbacks are used exactly when the thrown value lacks the field. */
  lemma NormalizeFallbacks(e: Thrown, defaultMessage: string)
    ensures Normalize(e, defaultMessage).message == defaultMessage <==>
      (e.message.None? || e.message.value == [] || e.message.value == defaultMessage)
    ensures Normalize(e, defaultMessage).status == InternalServerError <==>
      (e.status.None? || e.status.value == 0 || e.status.value == InternalServerError)
  {
  }
}

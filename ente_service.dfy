/**
 * The error handling of src/services/enteService.ts. The HTTP call itself is
 * its outcome, passed in; on success the body is returned unchanged, on
 * failure a `new Error` with a fixed user-facing message is thrown.
 */
module EnteService {
  import opened Wrappers
  import opened Http
  import opened Entes

  const NOT_AUTHORIZED: string := "No autorizado (solo UNIVERSITAS)"
  const CREATE_FAILED: string := "Error al crear el Ente"
  const FETCH_FAILED: string := "Error al obtener Entes disponibles"

  /** The message `create` throws for a failed `POST /entes`. */
  function CreateErrorMessage(error: Thrown): (m: string)
    ensures m == "" ==>
      error.ErrorObject? && error.response.Some? && error.response.value.data.Some? &&
      error.response.value.data.value.message == Some(Truthy(""))
    ensures error.ErrorObject? && error.response.Some? && error.response.value.status == 403 ==> m == NOT_AUTHORIZED
    ensures (error.ErrorObject? && error.response.Some? && error.response.value.status != 403 &&
             error.response.value.data.Some?) ==>
      m == OrElse(error.response.value.data.value.message, CREATE_FAILED)
    ensures (error.NonObject? || error.response.None? ||
             (error.response.value.status != 403 && error.response.value.data.None?)) ==>
      m == CONNECTION_FAILED
  {
    match error
    case NonObject => CONNECTION_FAILED
    case ErrorObject(response, _) =>
      if response.None? then CONNECTION_FAILED
      else if response.value.status == 403 then NOT_AUTHORIZED
      else if response.value.data.Some? then OrElse(response.value.data.value.message, CREATE_FAILED)
      else CONNECTION_FAILED
  }

  /** The message `getEntesSinSupervisor` throws: no status is singled out. */
  function FetchErrorMessage(error: Thrown): (m: string)
    ensures m == "" ==>
      error.ErrorObject? && error.response.Some? && error.response.value.data.Some? &&
      error.response.value.data.value.message == Some(Truthy(""))
    ensures error.ErrorObject? && error.response.Some? && error.response.value.data.Some? ==>
      m == OrElse(error.response.value.data.value.message, FETCH_FAILED)
    ensures error.NonObject? || error.response.None? || error.response.value.data.None? ==> m == CONNECTION_FAILED
  {
    match error
    case NonObject => CONNECTION_FAILED
    case ErrorObject(response, _) =>
      if response.Some? && response.value.data.Some? then OrElse(response.value.data.value.message, FETCH_FAILED)
      else CONNECTION_FAILED
  }

  /** `create(data)`: the body on success, `new Error(CreateErrorMessage(error))` on failure. */
  function Create<T>(call: Outcome<T>): (r: Outcome<T>)
    ensures r.Ok? <==> call.Ok?
    ensures call.Ok? ==> r.value == call.value
    ensures call.Failed? ==> r.error == ErrorWith(CreateErrorMessage(call.error))
  {
    match call
    case Ok(v) => Ok(v)
    case Failed(e) => Failed(ErrorWith(CreateErrorMessage(e)))
  }

  /** `getEntesSinSupervisor()`. */
  function GetEntesSinSupervisor(call: Outcome<seq<Ente>>): (r: Outcome<seq<Ente>>)
    ensures r.Ok? <==> call.Ok?
    ensures call.Ok? ==> r.value == call.value
    ensures call.Failed? ==> r.error == ErrorWith(FetchErrorMessage(call.error))
  {
    match call
    case Ok(v) => Ok(v)
    case Failed(e) => Failed(ErrorWith(FetchErrorMessage(e)))
  }

  /** A 403 is reported as such whatever body the server sent. */
  lemma ForbiddenIgnoresBody(data1: Option<Body>, data2: Option<Body>, m1: Option<string>, m2: Option<string>)
    ensures CreateErrorMessage(ErrorObject(Some(Response(403, data1)), m1)) ==
            CreateErrorMessage(ErrorObject(Some(Response(403, data2)), m2))
  {
  }

  /** The fetch has no status special case: a 403 with a body message shows that message. */
  lemma FetchHasNoForbiddenCase(message: string)
    requires message != ""
    ensures FetchErrorMessage(ErrorObject(Some(Response(403, Some(Body(Some(Str(message)))))), None)) == message
    ensures CreateErrorMessage(ErrorObject(Some(Response(403, Some(Body(Some(Str(message)))))), None)) == NOT_AUTHORIZED
  {
  }

  /**
   * A body message that is not a string (a list of validation messages, say)
   * still becomes the thrown text, as `String()` renders it, where the auth
   * store's extraction, which tests for a string, falls back.
   */
  lemma NonStringMessageShown(status: int, shown: string, fallback: string)
    requires status != 403
    ensures var e := ErrorObject(Some(Response(status, Some(Body(Some(Truthy(shown)))))), None);
      CreateErrorMessage(e) == shown && FetchErrorMessage(e) == shown && MessageOr(e, fallback) == fallback
  {
  }
}

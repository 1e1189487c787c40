/** The error handling of `create` in src/services/supervisorService.ts. */
module SupervisorService {
  import opened Wrappers
  import opened Http

  const UNKNOWN_ENTES: string := "Algunos Entes especificados no existen"
  const EMAIL_TAKEN: string := "Email ya registrado"
  const CREATE_FAILED: string := "Error al crear el Supervisor"

  /**
   * The message `create` throws for a failed `POST /supervisores`: the
   * status checks come before any body message.
   */
  function CreateErrorMessage(error: Thrown): (m: string)
    ensures m == "" ==>
      error.ErrorObject? && error.response.Some? && error.response.value.data.Some? &&
      error.response.value.data.value.message == Some(Truthy(""))
    ensures error.ErrorObject? && error.response.Some? && error.response.value.status == 400 ==> m == UNKNOWN_ENTES
    ensures error.ErrorObject? && error.response.Some? && error.response.value.status == 409 ==> m == EMAIL_TAKEN
    ensures (error.ErrorObject? && error.response.Some? && error.response.value.status !in {400, 409} &&
             error.response.value.data.Some?) ==>
      m == OrElse(error.response.value.data.value.message, CREATE_FAILED)
    ensures (error.NonObject? || error.response.None? ||
             (error.response.value.status !in {400, 409} && error.response.value.data.None?)) ==>
      m == CONNECTION_FAILED
  {
    match error
    case NonObject => CONNECTION_FAILED
    case ErrorObject(response, _) =>
      if response.None? then CONNECTION_FAILED
      else if response.value.status == 400 then UNKNOWN_ENTES
      else if response.value.status == 409 then EMAIL_TAKEN
      else if response.value.data.Some? then OrElse(response.value.data.value.message, CREATE_FAILED)
      else CONNECTION_FAILED
  }

  /** `create(data)`: the body on success, `new Error(CreateErrorMessage(error))` on failure. */
  function Create<T>(call: Outcome<T>): (r: Outcome<T>)
    ensures r.Ok? <==> call.Ok?
    ensures call.Ok? ==> r.value == call.value
    ensures call.Failed? ==> r.error == ErrorWith(CreateErrorMessage(call.error))
  {
    match call
    case Ok(v) => Ok(v)
    case Failed(e) => Failed(ErrorWith(CreateErrorMessage(e)))
  }

  /** Whatever the caller's extraction falls back to, it shows the message `create` chose. */
  lemma CreateMessageShown<T>(call: Outcome<T>, fallback: string)
    requires call.Failed?
    ensures MessageOr(Create(call).error, fallback) == CreateErrorMessage(call.error)
  {
    ErrorWithMessage(CreateErrorMessage(call.error), fallback);
  }
}

/**
 * The backend outcomes the HTTP calls produce, as values: a result, or the
 * value the call throws. An axios failure is an error object that carries
 * the server's `response`; `new Error(m)` is one that carries only a
 * `message`.
 */
module Http {
  import opened Wrappers

  /**
   * The `message` field of a response body: a string, some other truthy
   * value (an array of validation messages, say) with the text `String(v)`
   * gives it, or a falsy value that is not a string (`null`, `0`, `false`).
   */
  datatype MessageValue = Str(text: string) | Truthy(shown: string) | Falsy

  /** `response.data`, when it is an object; `message` is absent when the key is. */
  datatype Body = Body(message: Option<MessageValue>)

  /** `error.response`: the HTTP status and the body, when the response has one. */
  datatype Response = Response(status: int, data: Option<Body>)

  /** A thrown value: an error object, or anything that is not an object. */
  datatype Thrown = ErrorObject(response: Option<Response>, message: Option<string>) | NonObject

  /** The outcome of an awaited call. */
  datatype Outcome<T> = Ok(value: T) | Failed(error: Thrown)

  const CONNECTION_FAILED: string := "Error de conexión con el servidor"

  /** `new Error(message)`. */
  function ErrorWith(message: string): Thrown {
    ErrorObject(None, Some(message))
  }

  /** The message of the response body, if the error carries one and it is a string. */
  function BodyMessage(error: Thrown): Option<string> {
    if error.ErrorObject? && error.response.Some? && error.response.value.data.Some? &&
       error.response.value.data.value.message.Some? && error.response.value.data.value.message.value.Str?
    then Some(error.response.value.data.value.message.value.text)
    else None
  }

  /**
   * The message extraction the auth store and the login form share: a
   * string `response.data.message` first; an error with a response but no
   * such message falls back to `fallback`; only an error without a response
   * contributes its own `message`.
   */
  function MessageOr(error: Thrown, fallback: string): (m: string)
    ensures BodyMessage(error).Some? ==> m == BodyMessage(error).value
    ensures error.ErrorObject? && error.response.Some? && BodyMessage(error).None? ==> m == fallback
    ensures error.ErrorObject? && error.response.None? ==> m == if error.message.Some? then error.message.value else fallback
    ensures error.NonObject? ==> m == fallback
  {
    match error
    case NonObject => fallback
    case ErrorObject(response, message) =>
      if response.Some? then
        if response.value.data.Some? && response.value.data.value.message.Some? &&
           response.value.data.value.message.value.Str?
        then response.value.data.value.message.value.text
        else fallback
      else if message.Some? then message.value
      else fallback
  }

  /**
   * `new Error(message || fallback).message`: with no type test, a non-empty
   * string or any other truthy value is taken (the latter as its `String()`
   * text); the empty string, a falsy value or a missing key give the fallback.
   */
  function OrElse(message: Option<MessageValue>, fallback: string): string {
    match message
    case Some(Str(text)) => if text != "" then text else fallback
    case Some(Truthy(shown)) => shown
    case _ => fallback
  }

  /** The message of a `new Error(m)` survives the extraction, whatever the fallback. */
  lemma ErrorWithMessage(message: string, fallback: string)
    ensures MessageOr(ErrorWith(message), fallback) == message
  {
  }
}

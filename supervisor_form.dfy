/**
 * The state of `CreateSupervisorForm` (src/components/forms/
 * CreateSupervisorForm.tsx): the selected entes, the submitting flag and the
 * form values. `onSubmit` awaits the service, so it is split at the `await`
 * into `SubmitBegin` and `SubmitEnd`.
 */
module SupervisorForm {
  import opened Wrappers
  import opened Http
  import opened Entes
  import opened SupervisorSchema
  import SupervisorService

  /** `defaultValues`, to which `form.reset()` returns. */
  const DEFAULT_VALUES: SupervisorInput := SupervisorInput("", "", "", "", "", "", "", Some([]))

  const UNKNOWN_ERROR: string := "Error desconocido"

  /** The toast `onSubmit` shows. */
  datatype Toast = Success(description: string) | Failure(title: string, description: string)

  /** `{ ...values, entesIds: selectedEntes.map(e => e.id) }`: the selection replaces the ids. */
  function Payload(values: SupervisorData, selected: seq<Ente>): (p: SupervisorData)
    ensures p.entesIds == Ids(selected)
    ensures p.(entesIds := values.entesIds) == values
  {
    values.(entesIds := Ids(selected))
  }

  /** `error instanceof Error ? error.message : 'Error desconocido'`. */
  function ErrorDescription(error: Thrown): string {
    if error.ErrorObject? && error.message.Some? then error.message.value else UNKNOWN_ERROR
  }

  class CreateSupervisorForm {
    var selectedEntes: seq<Ente>
    var isSubmitting: bool
    var values: SupervisorInput

    constructor ()
      ensures selectedEntes == [] && !isSubmitting && values == DEFAULT_VALUES
    {
      selectedEntes := [];
      isSubmitting := false;
      values := DEFAULT_VALUES;
    }

    /** The user edits the fields. */
    method Edit(v: SupervisorInput)
      modifies this
      ensures values == v && selectedEntes == old(selectedEntes) && isSubmitting == old(isSubmitting)
    {
      values := v;
    }

    /** `handleAddEnte(ente)`: appended at the end, nothing removed, no deduplication. */
    method HandleAddEnte(ente: Ente)
      modifies this
      ensures selectedEntes == old(selectedEntes) + [ente]
      ensures isSubmitting == old(isSubmitting) && values == old(values)
    {
      selectedEntes := selectedEntes + [ente];
    }

    /** `handleRemoveEnte(enteId)`: every entry with that id goes, the rest keep their order. */
    method HandleRemoveEnte(enteId: string)
      modifies this
      ensures selectedEntes == FilterOutId(old(selectedEntes), enteId)
      ensures !HasId(selectedEntes, enteId)
      ensures !HasId(old(selectedEntes), enteId) ==> selectedEntes == old(selectedEntes)
      ensures isSubmitting == old(isSubmitting) && values == old(values)
    {
      FilterOutIdHasId(selectedEntes, enteId, enteId);
      if !HasId(selectedEntes, enteId) {
        FilterOutAbsent(selectedEntes, enteId);
      }
      selectedEntes := FilterOutId(selectedEntes, enteId);
    }

    /**
     * `form.handleSubmit(onSubmit)` up to the `await`: values the schema
     * rejects submit nothing; otherwise the flag is raised and the payload
     * carries the selection's ids.
     */
    method SubmitBegin(isEmail: string -> bool, isUuid: string -> bool) returns (payload: Option<SupervisorData>)
      modifies this
      ensures payload.None? <==> ParseSupervisor(values, isEmail, isUuid).None?
      ensures payload.Some? ==> payload.value == Payload(ParseSupervisor(values, isEmail, isUuid).value, selectedEntes)
      ensures isSubmitting == (payload.Some? || old(isSubmitting))
      ensures selectedEntes == old(selectedEntes) && values == old(values)
    {
      var parsed := ParseSupervisor(values, isEmail, isUuid);
      if parsed.None? {
        return None;
      }
      isSubmitting := true;
      payload := Some(Payload(parsed.value, selectedEntes));
    }

    /**
     * `onSubmit` after the `await`, given what `supervisorService.create`
     * resolved or threw: success empties the selection and resets the
     * values; failure leaves both; the flag drops in both cases.
     */
    method SubmitEnd<R>(result: Outcome<R>, responseMessage: R -> string) returns (toast: Toast)
      modifies this
      ensures !isSubmitting
      ensures result.Ok? ==> selectedEntes == [] && values == DEFAULT_VALUES && toast == Success(responseMessage(result.value))
      ensures result.Failed? ==>
        selectedEntes == old(selectedEntes) && values == old(values) &&
        toast == Failure("Error al crear el Supervisor", ErrorDescription(result.error))
    {
      match result {
        case Ok(response) =>
          toast := Success(responseMessage(response));
          values := DEFAULT_VALUES;
          selectedEntes := [];
        case Failed(error) =>
          toast := Failure("Error al crear el Supervisor", ErrorDescription(error));
      }
      isSubmitting := false;
    }
  }

  /** The payload's other fields are the parsed values unchanged. */
  lemma PayloadKeepsFields(values: SupervisorData, selected: seq<Ente>)
    ensures var p := Payload(values, selected);
      p.nombreOrganizacion == values.nombreOrganizacion && p.rifOrganizacion == values.rifOrganizacion &&
      p.emailOrganizacion == values.emailOrganizacion && p.nombreUsuario == values.nombreUsuario &&
      p.apellidoUsuario == values.apellidoUsuario && p.emailUsuario == values.emailUsuario &&
      p.password == values.password
  {
  }

  /** A failure from the service shows the message the service chose. */
  lemma ServiceErrorShown<T>(call: Outcome<T>)
    requires call.Failed?
    ensures ErrorDescription(SupervisorService.Create(call).error) == SupervisorService.CreateErrorMessage(call.error)
  {
  }
}

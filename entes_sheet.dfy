/**
 * `SelectEntesSheet` (src/components/supervisor/SelectEntesSheet.tsx): the
 * entes still available for selection, beside the form that owns the
 * selection. The sheet's `selectedEntes` prop is the form's state and its
 * `onAddEnte` / `onRemoveEnte` callbacks are the form's handlers.
 */
module EntesSheet {
  import opened Wrappers
  import opened Http
  import opened Entes
  import opened SupervisorForm

  const FETCH_TOAST: string := "Error al cargar Entes disponibles"

  class SelectEntesSheet {
    var availableEntes: seq<Ente>
    var isLoading: bool
    const form: CreateSupervisorForm

    /** No ente is both available and selected. */
    predicate Valid()
      reads this, form
    {
      DisjointIds(availableEntes, form.selectedEntes)
    }

    constructor (form: CreateSupervisorForm)
      ensures this.form == form && availableEntes == [] && !isLoading
      ensures Valid()
    {
      this.form := form;
      availableEntes := [];
      isLoading := false;
    }

    /** `isEnteSelected(enteId)`: the id is among those the submitted payload will carry. */
    predicate IsEnteSelected(enteId: string)
      reads form
      ensures IsEnteSelected(enteId) <==> enteId in Ids(form.selectedEntes)
    {
      var ids := Ids(form.selectedEntes);
      assert forall i :: 0 <= i < |ids| ==> ids[i] == form.selectedEntes[i].id;
      HasId(form.selectedEntes, enteId)
    }

    /** `fetchAvailableEntes()` up to the `await`. */
    method FetchBegin()
      modifies this
      ensures isLoading && availableEntes == old(availableEntes)
    {
      isLoading := true;
    }

    /**
     * `fetchAvailableEntes()` after the `await`, given what
     * `getEntesSinSupervisor` resolved or threw: the fetched entes that are
     * not selected, in fetched order; on failure, the list stays and the
     * toast carries the error's message.
     */
    method FetchEnd(result: Outcome<seq<Ente>>) returns (toast: Option<Toast>)
      modifies this
      ensures result.Ok? || old(Valid()) ==> Valid()
      ensures !isLoading
      ensures result.Ok? ==> availableEntes == FilterOutSelected(result.value, form.selectedEntes) && toast.None?
      ensures result.Failed? ==> availableEntes == old(availableEntes) && toast == Some(Failure(FETCH_TOAST, ErrorDescription(result.error)))
    {
      match result {
        case Ok(entes) =>
          availableEntes := FilterOutSelected(entes, form.selectedEntes);
          FilterOutSelectedDisjoint(entes, form.selectedEntes);
          toast := None;
        case Failed(error) =>
          toast := Some(Failure(FETCH_TOAST, ErrorDescription(error)));
      }
      isLoading := false;
    }

    /** `handleAdd(ente)`: the form appends it, and every entry with its id leaves the available list. */
    method HandleAdd(ente: Ente)
      requires Valid()
      modifies this, form
      ensures Valid()
      ensures form.selectedEntes == old(form.selectedEntes) + [ente]
      ensures availableEntes == FilterOutId(old(availableEntes), ente.id)
      ensures form.values == old(form.values) && form.isSubmitting == old(form.isSubmitting) && isLoading == old(isLoading)
    {
      form.HandleAddEnte(ente);
      AddKeepsDisjoint(availableEntes, old(form.selectedEntes), ente);
      availableEntes := FilterOutId(availableEntes, ente.id);
    }

    /** `handleRemove(ente)`: the form drops its id, and it goes back at the end of the available list. */
    method HandleRemove(ente: Ente)
      requires Valid()
      modifies this, form
      ensures Valid()
      ensures form.selectedEntes == FilterOutId(old(form.selectedEntes), ente.id)
      ensures availableEntes == old(availableEntes) + [ente]
      ensures form.values == old(form.values) && form.isSubmitting == old(form.isSubmitting) && isLoading == old(isLoading)
    {
      form.HandleRemoveEnte(ente.id);
      RemoveKeepsDisjoint(availableEntes, old(form.selectedEntes), ente);
      availableEntes := availableEntes + [ente];
    }
  }

  lemma FilterOutSelectedDisjoint(entes: seq<Ente>, selected: seq<Ente>)
    ensures DisjointIds(FilterOutSelected(entes, selected), selected)
  {
    var r := FilterOutSelected(entes, selected);
    forall i | 0 <= i < |r| ensures !HasId(selected, r[i].id) {
      assert r[i] in r;
    }
  }

  /** Adding keeps the lists disjoint: the new id leaves the available list. */
  lemma AddKeepsDisjoint(available: seq<Ente>, selected: seq<Ente>, ente: Ente)
    requires DisjointIds(available, selected)
    ensures DisjointIds(FilterOutId(available, ente.id), selected + [ente])
  {
    var r := FilterOutId(available, ente.id);
    forall i | 0 <= i < |r| ensures !HasId(selected + [ente], r[i].id) {
      assert r[i] in r;
      var j :| 0 <= j < |available| && available[j] == r[i];
      HasIdAppend(selected, [ente], r[i].id);
    }
  }

  /** Removing keeps the lists disjoint: the id comes back only once the selection has lost it. */
  lemma RemoveKeepsDisjoint(available: seq<Ente>, selected: seq<Ente>, ente: Ente)
    requires DisjointIds(available, selected)
    ensures DisjointIds(available + [ente], FilterOutId(selected, ente.id))
  {
    var s := FilterOutId(selected, ente.id);
    var a := available + [ente];
    forall i | 0 <= i < |a| ensures !HasId(s, a[i].id) {
      FilterOutIdHasId(selected, ente.id, a[i].id);
      if i < |available| {
        assert a[i] == available[i];
      }
    }
  }

  /**
   * `handleAdd(ente)` followed by `handleRemove(ente)`, for an ente that was
   * available: the selection is what it was, and the available list has the
   * same ids again, with `ente` now at its end.
   */
  lemma AddThenRemoveRestores(available: seq<Ente>, selected: seq<Ente>, ente: Ente, id: string)
    requires DisjointIds(available, selected) && ente in available
    ensures FilterOutId(selected + [ente], ente.id) == selected
    ensures HasId(FilterOutId(available, ente.id) + [ente], id) <==> HasId(available, id)
    ensures (FilterOutId(available, ente.id) + [ente])[|FilterOutId(available, ente.id)|] == ente
  {
    var j :| 0 <= j < |available| && available[j] == ente;
    AddThenRemove(selected, ente);
    HasIdAppend(FilterOutId(available, ente.id), [ente], id);
    FilterOutIdHasId(available, ente.id, id);
    HasIdIn(available, ente);
    assert [ente][0].id == ente.id;
  }
}

/**
 * The `EnteSinSupervisor` record the backend lists and the list operations
 * the supervisor form and the selection sheet apply to it: append, remove
 * every entry with an id, and keep the entries whose id is not selected.
 */
module Entes {
  import opened Wrappers

  datatype Ente = Ente(
    id: string,
    nombre: string,
    rif: Option<string>,
    estado: Option<string>,
    municipio: Option<string>)

  /** The ids of a list, in order (`map(e => e.id)`). */
  function Ids(entes: seq<Ente>): (ids: seq<string>)
    ensures |ids| == |entes|
    ensures forall i :: 0 <= i < |entes| ==> ids[i] == entes[i].id
  {
    if entes == [] then [] else [entes[0].id] + Ids(entes[1..])
  }

  /** `some(e => e.id === id)`. */
  predicate HasId(entes: seq<Ente>, id: string) {
    exists i :: 0 <= i < |entes| && entes[i].id == id
  }

  /** `filter(e => e.id !== id)`: every entry with another id, in order. */
  function FilterOutId(entes: seq<Ente>, id: string): (r: seq<Ente>)
    ensures |r| <= |entes|
    ensures forall e :: e in r <==> e in entes && e.id != id
  {
    if entes == [] then []
    else if entes[0].id == id then FilterOutId(entes[1..], id)
    else [entes[0]] + FilterOutId(entes[1..], id)
  }

  /** `filter(e => !selected.some(s => s.id === e.id))`: the entries whose id is not selected. */
  function FilterOutSelected(entes: seq<Ente>, selected: seq<Ente>): (r: seq<Ente>)
    ensures |r| <= |entes|
    ensures forall e :: e in r <==> e in entes && !HasId(selected, e.id)
  {
    if entes == [] then []
    else if HasId(selected, entes[0].id) then FilterOutSelected(entes[1..], selected)
    else [entes[0]] + FilterOutSelected(entes[1..], selected)
  }

  /** No id occurs in both lists. */
  predicate DisjointIds(a: seq<Ente>, b: seq<Ente>) {
    forall i :: 0 <= i < |a| ==> !HasId(b, a[i].id)
  }

  lemma HasIdIn(entes: seq<Ente>, e: Ente)
    requires e in entes
    ensures HasId(entes, e.id)
  {
    var i :| 0 <= i < |entes| && entes[i] == e;
  }

  lemma HasIdAppend(a: seq<Ente>, b: seq<Ente>, id: string)
    ensures HasId(a + b, id) <==> HasId(a, id) || HasId(b, id)
  {
    if HasId(a + b, id) {
      var i :| 0 <= i < |a + b| && (a + b)[i].id == id;
      if i >= |a| {
        assert b[i - |a|].id == id;
      }
    }
    if HasId(a, id) {
      var i :| 0 <= i < |a| && a[i].id == id;
      assert (a + b)[i].id == id;
    }
    if HasId(b, id) {
      var i :| 0 <= i < |b| && b[i].id == id;
      assert (a + b)[|a| + i].id == id;
    }
  }

  /** After the filter, no entry has the id; every other id is still there. */
  lemma {:induction false} FilterOutIdHasId(entes: seq<Ente>, id: string, other: string)
    ensures HasId(FilterOutId(entes, id), other) <==> other != id && HasId(entes, other)
  {
    var r := FilterOutId(entes, id);
    if HasId(r, other) {
      var i :| 0 <= i < |r| && r[i].id == other;
      assert r[i] in r;
      HasIdIn(entes, r[i]);
    }
    if other != id && HasId(entes, other) {
      var i :| 0 <= i < |entes| && entes[i].id == other;
      assert entes[i] in entes;
      HasIdIn(r, entes[i]);
    }
  }

  /** Removing an id no entry has changes nothing. */
  lemma {:induction false} FilterOutAbsent(entes: seq<Ente>, id: string)
    requires !HasId(entes, id)
    ensures FilterOutId(entes, id) == entes
  {
    if entes != [] {
      var tail := entes[1..];
      assert entes[0].id != id;
      assert !HasId(tail, id) by {
        forall i | 0 <= i < |tail| ensures tail[i].id != id {
          assert tail[i] == entes[i + 1];
        }
      }
      FilterOutAbsent(tail, id);
      assert entes == [entes[0]] + tail;
    }
  }

  /** The filter distributes over concatenation, so it keeps the order of what it keeps. */
  lemma {:induction false} FilterOutIdAppend(a: seq<Ente>, b: seq<Ente>, id: string)
    ensures FilterOutId(a + b, id) == FilterOutId(a, id) + FilterOutId(b, id)
  {
    if a == [] {
      assert a + b == b;
    } else {
      assert (a + b)[0] == a[0] && (a + b)[1..] == a[1..] + b;
      FilterOutIdAppend(a[1..], b, id);
    }
  }

  /** Appending an ente with a fresh id and then removing that id restores the list. */
  lemma AddThenRemove(selected: seq<Ente>, e: Ente)
    requires !HasId(selected, e.id)
    ensures FilterOutId(selected + [e], e.id) == selected
  {
    FilterOutIdAppend(selected, [e], e.id);
    FilterOutAbsent(selected, e.id);
    assert FilterOutId([e], e.id) == [];
  }
}

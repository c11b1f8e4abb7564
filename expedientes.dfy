/**
 * The defensor's case list: who may receive a reassigned case, what the
 * "Asignado a" column shows, when "Reasignar" is offered, and the
 * reassignment handler, which calls the cases store and then refreshes the
 * list.
 */
module Expedientes {
  import opened Rows
  import opened CasesService

  const Unassigned: string := "Sin asignar"

  /** An attorney the dialog offers: active and not on leave. */
  predicate Eligible(a: User) {
    a.active && !Truthy(a.onLeave)
  }

  /** The reassignment candidates: the fetched attorneys that are eligible, in fetch order. */
  function Candidates(abogados: seq<User>): (r: seq<User>)
    ensures |r| <= |abogados|
    ensures forall a :: a in r <==> a in abogados && Eligible(a)
  {
    if abogados == [] then []
    else
      var last := abogados[|abogados| - 1];
      assert abogados == abogados[..|abogados| - 1] + [last];
      Candidates(abogados[..|abogados| - 1]) + (if Eligible(last) then [last] else [])
  }

  /** Filtering keeps the attorneys' relative order: it distributes over concatenation. */
  lemma {:induction false} CandidatesAppend(a: seq<User>, b: seq<User>)
    ensures Candidates(a + b) == Candidates(a) + Candidates(b)
  {
    if b == [] {
      assert a + b == a;
    } else {
      assert (a + b)[..|a + b| - 1] == a + b[..|b| - 1];
      CandidatesAppend(a, b[..|b| - 1]);
    }
  }

  /** `users.find(a => a.id === id)`; a null id matches nobody. */
  function FindById(users: seq<User>, id: Option<Id>): (r: Option<User>)
    ensures r.Some? ==> r.value in users && id == Some(r.value.id)
    ensures r.None? <==> forall a :: a in users ==> id != Some(a.id)
    ensures r.Some? ==> exists k :: (0 <= k < |users| && users[k] == r.value
      && forall j :: 0 <= j < k ==> id != Some(users[j].id))
  {
    if id.None? then None
    else
      var r := FindIn(users, id.value);
      assert r.None? ==> forall a :: a in users ==> id != Some(a.id) by {
        if r.None? {
          forall a | a in users ensures id != Some(a.id) {
            var k :| 0 <= k < |users| && users[k] == a;
          }
        }
      }
      r
  }

  /** The "Asignado a" cell, looked up among the candidates. */
  function AssigneeLabel(candidates: seq<User>, row: CaseRow): (r: string)
    ensures (forall a :: a in candidates ==> row.assignedToId != Some(a.id)) ==> r == Unassigned
    ensures (exists a :: a in candidates && row.assignedToId == Some(a.id)) ==>
      exists a :: a in candidates && row.assignedToId == Some(a.id) && r == a.name
  {
    var found := FindById(candidates, row.assignedToId);
    if found.Some? then found.value.name else Unassigned
  }

  /** Attorney ids are distinct, as primary keys are. */
  predicate DistinctIds(users: seq<User>) {
    forall i, j :: 0 <= i < j < |users| ==> users[i].id != users[j].id
  }

  /**
   * A case held by an attorney who is inactive or on leave shows "Sin asignar",
   * because the lookup only sees the candidates.
   */
  lemma HeldByIneligibleShowsUnassigned(abogados: seq<User>, row: CaseRow, k: nat)
    requires DistinctIds(abogados)
    requires k < |abogados| && row.assignedToId == Some(abogados[k].id) && !Eligible(abogados[k])
    ensures AssigneeLabel(Candidates(abogados), row) == Unassigned
  {
    var candidates := Candidates(abogados);
    forall a | a in candidates
      ensures row.assignedToId != Some(a.id)
    {
      assert a in abogados && Eligible(a);
      var j :| 0 <= j < |abogados| && abogados[j] == a;
      if j != k {
        assert abogados[j].id != abogados[k].id;
      }
    }
  }

  /** A case held by an eligible attorney shows that attorney's name. */
  lemma HeldByEligibleShowsName(abogados: seq<User>, row: CaseRow, k: nat)
    requires DistinctIds(abogados)
    requires k < |abogados| && row.assignedToId == Some(abogados[k].id) && Eligible(abogados[k])
    ensures AssigneeLabel(Candidates(abogados), row) == abogados[k].name
  {
    var candidates := Candidates(abogados);
    assert abogados[k] in candidates;
    var found := FindById(candidates, row.assignedToId);
    assert found.value in abogados;
    var j :| 0 <= j < |abogados| && abogados[j] == found.value;
    assert j == k;
  }

  /** "Reasignar" is offered on rows whose `is_taken` is falsy (false or null). */
  predicate OffersReassign(row: CaseRow) {
    !Truthy(row.isTaken)
  }

  /** The confirm button is enabled once an attorney is chosen. */
  predicate ConfirmEnabled(selectedAbogado: Id) {
    selectedAbogado != ""
  }

  /** On a row the store accepts, "Reasignar" is offered and the reassignment goes through. */
  lemma OfferedNotTakenIsReassigned(rows: seq<CaseRow>, k: nat, u: Id, now: Timestamp)
    requires UniqueIds(rows)
    requires k < |rows| && rows[k].isTaken == Some(false)
    ensures OffersReassign(rows[k])
    ensures Apply(rows, AssignCmd(rows[k].id, u, now)) == rows[k := Assigned(rows[k], u, now)]
  {
    AssignAccepted(rows, k, u, now);
  }

  /** A row with a null `is_taken` is offered "Reasignar", but the store's update matches no row and changes nothing. */
  lemma OfferedNullIsRejected(rows: seq<CaseRow>, k: nat, u: Id, now: Timestamp)
    requires UniqueIds(rows)
    requires k < |rows| && rows[k].isTaken == None
    ensures OffersReassign(rows[k])
    ensures Apply(rows, AssignCmd(rows[k].id, u, now)) == rows
  {
    AssignRejectsUnlessNotTaken(rows, k, u, now);
  }

  /** The page's state: the loaded cases and candidates, and the dialog. */
  class Page {
    var expedientes: seq<CaseRow>
    var abogados: seq<User>
    var dialogOpen: bool
    var selected: Option<CaseRow>
    var selectedAbogado: Id
    const store: CaseStore
    const defensoria: Option<Id>

    ghost predicate Valid()
      reads this, store
    {
      store.Valid()
    }

    constructor (store: CaseStore, defensoria: Option<Id>)
      ensures this.store == store && this.defensoria == defensoria
      ensures expedientes == [] && abogados == [] && !dialogOpen && selected == None && selectedAbogado == ""
    {
      this.store := store;
      this.defensoria := defensoria;
      expedientes := [];
      abogados := [];
      dialogOpen := false;
      selected := None;
      selectedAbogado := "";
    }

    /** The first fetch: with a defensoria, the cases of that defensoria and the eligible attorneys of `fetched`. */
    method Load(fetched: seq<User>)
      modifies this
      ensures Present(defensoria) ==> expedientes == OfDefensoria(store.cases, defensoria.value)
      ensures Present(defensoria) ==> abogados == Candidates(fetched)
      ensures !Present(defensoria) ==> expedientes == old(expedientes) && abogados == old(abogados)
      ensures dialogOpen == old(dialogOpen) && selected == old(selected) && selectedAbogado == old(selectedAbogado)
    {
      if Present(defensoria) {
        expedientes := store.GetCases(defensoria.value);
        abogados := Candidates(fetched);
      }
    }

    /** "Reasignar" on a row: remember it and open the dialog. */
    method OpenReassign(row: CaseRow)
      modifies this
      ensures selected == Some(row) && dialogOpen
      ensures expedientes == old(expedientes) && abogados == old(abogados) && selectedAbogado == old(selectedAbogado)
    {
      selected := Some(row);
      dialogOpen := true;
    }

    /** Picking an attorney in the dialog's select. */
    method ChooseAbogado(id: Id)
      modifies this
      ensures selectedAbogado == id
      ensures expedientes == old(expedientes) && abogados == old(abogados)
      ensures dialogOpen == old(dialogOpen) && selected == old(selected)
    {
      selectedAbogado := id;
    }

    /**
     * `handleReasignar`: with a case and an attorney chosen, reassign through the
     * store; on success refresh the list (when there is a defensoria) and close
     * the dialog. When the update or the refetch throws, the handler only
     * reports it: the list and the dialog stay as they were. `assignFails` and
     * `fetchFails` are those two errors.
     */
    method HandleReasignar(now: Timestamp, assignFails: bool, fetchFails: bool) returns (r: Answer<CaseRow>)
      requires Valid()
      modifies this, store
      ensures Valid()
      ensures selected.None? || !ConfirmEnabled(selectedAbogado) ==>
        r.Failed? && store.cases == old(store.cases) && expedientes == old(expedientes) && dialogOpen == old(dialogOpen)
      ensures selected.Some? && ConfirmEnabled(selectedAbogado) ==>
        store.cases == if assignFails then old(store.cases)
          else Apply(old(store.cases), AssignCmd(selected.value.id, selectedAbogado, now))
      ensures selected.Some? && ConfirmEnabled(selectedAbogado) ==>
        (r.Found? <==>
          !assignFails && exists k :: 0 <= k < |old(store.cases)| && Reassignable(old(store.cases)[k], selected.value.id))
      ensures r.Failed? ==> expedientes == old(expedientes) && dialogOpen == old(dialogOpen)
      ensures r.Found? && Present(defensoria) && !fetchFails ==>
        expedientes == OfDefensoria(store.cases, defensoria.value) && !dialogOpen
      ensures r.Found? && Present(defensoria) && fetchFails ==>
        expedientes == old(expedientes) && dialogOpen == old(dialogOpen)
      ensures r.Found? && !Present(defensoria) ==> expedientes == old(expedientes) && !dialogOpen
      ensures abogados == old(abogados) && selected == old(selected) && selectedAbogado == old(selectedAbogado)
    {
      if selected.None? || selectedAbogado == "" {
        return Failed;
      }
      r := store.AssignCase(selected.value.id, selectedAbogado, now, assignFails);
      if r.Failed? {
        return;
      }
      if Present(defensoria) {
        if fetchFails {
          return;
        }
        expedientes := store.GetCases(defensoria.value);
      }
      dialogOpen := false;
    }
  }
}

/**
 * The case-type page's group rules: the "assign group" control and the
 * groups it offers, the "Activar" button, the guard of the assign handler,
 * and the per-case-type cache of associations behind the group icon. The
 * two handlers are modelled as functions from the page state and the
 * `case_type_groups` table to the next page state and table, with the
 * store's effect given by the store's own specification functions.
 */
module TiposProceso {
  import opened Rows
  import opened GroupsService

  /** At most two groups per case type: the control shows while fewer are associated. */
  const MaxGroups: nat := 2

  predicate CanAssignMore(gruposProceso: seq<CaseTypeGroupRow>) {
    |gruposProceso| < MaxGroups
  }

  /** Some association in the list is with group `gid`. */
  predicate Associated(gruposProceso: seq<CaseTypeGroupRow>, gid: Id) {
    exists gp :: gp in gruposProceso && gp.groupId == gid
  }

  /** The groups the select offers: the defensoria's groups not yet associated, in list order. */
  function AssignableGroups(grupos: seq<Group>, gruposProceso: seq<CaseTypeGroupRow>): (r: seq<Group>)
    ensures |r| <= |grupos|
    ensures forall g :: g in r <==> g in grupos && !Associated(gruposProceso, g.id)
  {
    if grupos == [] then []
    else
      var last := grupos[|grupos| - 1];
      assert grupos == grupos[..|grupos| - 1] + [last];
      AssignableGroups(grupos[..|grupos| - 1], gruposProceso) + (if Associated(gruposProceso, last.id) then [] else [last])
  }

  /** Every group is either offered or already associated, never both. */
  lemma OfferedOrAssociated(grupos: seq<Group>, gruposProceso: seq<CaseTypeGroupRow>, g: Group)
    requires g in grupos
    ensures g in AssignableGroups(grupos, gruposProceso) <==> !Associated(gruposProceso, g.id)
  {
  }

  /** "Activar" shows on associations whose `is_active` is falsy (false or null). */
  predicate ShowsActivar(row: CaseTypeGroupRow) {
    !Truthy(row.isActive)
  }

  /** The call `handleAssignGroup` makes once its guard passes. */
  datatype AssignCall = AssignCall(caseTypeId: Id, groupId: Id, defensoria: Id)

  /** `handleAssignGroup`'s guard: a case type, a group and the current defensoria must all be present (a truthy id, not the empty string). */
  function AssignGuard(selectedTipo: Option<Id>, selectedGrupo: Id, defensoria: Option<Id>): (r: Option<AssignCall>)
    ensures r.Some? <==> selectedTipo.Some? && selectedGrupo != "" && Present(defensoria)
    ensures r.Some? ==> (r.value.caseTypeId == selectedTipo.value && r.value.groupId == selectedGrupo
      && r.value.defensoria == defensoria.value)
  {
    if selectedTipo.None? || selectedGrupo == "" || !Present(defensoria) then None
    else Some(AssignCall(selectedTipo.value, selectedGrupo, defensoria.value))
  }

  /** `caseTypeGroups`: case type id to the associations last fetched for it. */
  type Cache = map<Id, seq<CaseTypeGroupRow>>

  /** `{ ...prev, [ct]: latest }`. */
  function Refresh(cache: Cache, ct: Id, latest: seq<CaseTypeGroupRow>): (r: Cache)
    ensures r.Keys == cache.Keys + {ct}
    ensures r[ct] == latest
    ensures forall k :: k in cache && k != ct ==> r[k] == cache[k]
  {
    cache[ct := latest]
  }

  /** The groups behind a case type's icon: a missing entry counts as none. */
  function IconGroups(cache: Cache, ct: Id): seq<CaseTypeGroupRow> {
    if ct in cache then cache[ct] else []
  }

  /** The icon shows groups when the entry is non-empty. */
  predicate HasGroups(cache: Cache, ct: Id) {
    |IconGroups(cache, ct)| > 0
  }

  /**
   * The cache built on load: one entry per case type, holding the fetched
   * associations, or `[]` when that fetch failed (`fetch` answers `None`).
   */
  function BuildCache(types: seq<Id>, fetch: Id -> Option<seq<CaseTypeGroupRow>>): (r: Cache)
    ensures r.Keys == set t | t in types
    ensures forall t :: t in types && fetch(t).Some? ==> r[t] == fetch(t).value
    ensures forall t :: t in types && fetch(t).None? ==> r[t] == []
  {
    map t | t in types :: if fetch(t).Some? then fetch(t).value else []
  }

  /** A failed fetch and a case type with no entry both show the empty icon. */
  lemma NoEntryOrFailedFetchShowsNoGroups(types: seq<Id>, fetch: Id -> Option<seq<CaseTypeGroupRow>>, t: Id)
    requires t !in types || fetch(t).None?
    ensures !HasGroups(BuildCache(types, fetch), t)
  {
    var cache := BuildCache(types, fetch);
    if t in types {
      assert cache[t] == [];
    } else {
      assert t !in cache;
    }
  }

  // ---------------------------------------------------------------------
  // The groups dialog

  /** The state the groups dialog works on. */
  datatype Dialog = Dialog(
    selectedTipo: Option<Id>,
    selectedGrupo: Id,
    gruposProceso: seq<CaseTypeGroupRow>,
    cache: Cache)

  /** A page state together with the `case_type_groups` table. */
  datatype World = World(dialog: Dialog, table: seq<CaseTypeGroupRow>)

  /**
   * `handleAssignGroup`: after the guard, insert the association (`newId` is
   * the id the store assigns), re-fetch the case type's associations, replace
   * the dialog list and the case type's cache entry, clear the select. A
   * failing insert or fetch is caught: the page stays as it was, but an
   * insert that succeeded stays in the table.
   */
  function AfterAssign(w: World, defensoria: Option<Id>, newId: Id, insertFails: bool, fetchFails: bool): World {
    var call := AssignGuard(w.dialog.selectedTipo, w.dialog.selectedGrupo, defensoria);
    if call.None? || insertFails then w
    else
      var c := call.value;
      var table := Associate(w.table, c.caseTypeId, c.groupId, c.defensoria, newId);
      if fetchFails then World(w.dialog, table)
      else
        var latest := AssociationsOf(table, c.caseTypeId);
        World(Dialog(w.dialog.selectedTipo, "", latest, Refresh(w.dialog.cache, c.caseTypeId, latest)), table)
  }

  /**
   * `handleActivateGroup(g)`: with a case type selected, activate `g` for it,
   * re-fetch, and replace the dialog list and the cache entry. Errors are
   * caught as for assignment.
   */
  function AfterActivate(w: World, g: Id, deactivateFails: bool, activateFails: bool, fetchFails: bool): World {
    if w.dialog.selectedTipo.None? then w
    else
      var ct := w.dialog.selectedTipo.value;
      var table := ActivationOutcome(w.table, ct, g, deactivateFails, activateFails);
      if deactivateFails || activateFails || fetchFails then World(w.dialog, table)
      else
        var latest := AssociationsOf(table, ct);
        World(w.dialog.(gruposProceso := latest, cache := Refresh(w.dialog.cache, ct, latest)), table)
  }

  /** The dialog is consistent when its list is what the store would return for the selected case type. */
  predicate InSync(w: World) {
    w.dialog.selectedTipo.Some? && w.dialog.gruposProceso == AssociationsOf(w.table, w.dialog.selectedTipo.value)
  }

  /** A new association is appended to the case type's list. */
  lemma {:induction false} AssociationsOfAssociate(rows: seq<CaseTypeGroupRow>, ct: Id, g: Id, d: Id, newId: Id)
    ensures AssociationsOf(Associate(rows, ct, g, d, newId), ct) ==
      AssociationsOf(rows, ct) + [CaseTypeGroupRow(newId, ct, g, d, None)]
  {
    var r := Associate(rows, ct, g, d, newId);
    assert r[..|r| - 1] == rows;
  }

  /** A blocked guard leaves page and table as they are. */
  lemma AssignGuardBlocks(w: World, defensoria: Option<Id>, newId: Id, insertFails: bool, fetchFails: bool)
    requires w.dialog.selectedTipo.None? || w.dialog.selectedGrupo == "" || !Present(defensoria)
    ensures AfterAssign(w, defensoria, newId, insertFails, fetchFails) == w
  {
  }

  /**
   * A successful assignment appends one association, which shows "Activar";
   * the dialog is back in sync; only the selected case type's cache entry changes.
   */
  lemma AssignRefreshesSelectedOnly(w: World, defensoria: Option<Id>, newId: Id)
    requires w.dialog.selectedTipo.Some? && w.dialog.selectedGrupo != "" && Present(defensoria)
    ensures var w' := AfterAssign(w, defensoria, newId, false, false);
      var ct := w.dialog.selectedTipo.value;
      && w'.table == w.table + [CaseTypeGroupRow(newId, ct, w.dialog.selectedGrupo, defensoria.value, None)]
      && InSync(w')
      && w'.dialog.gruposProceso == AssociationsOf(w.table, ct) + [w'.table[|w.table|]]
      && ShowsActivar(w'.table[|w.table|])
      && w'.dialog.selectedGrupo == ""
      && w'.dialog.cache.Keys == w.dialog.cache.Keys + {ct}
      && (forall k :: k in w.dialog.cache && k != ct ==> w'.dialog.cache[k] == w.dialog.cache[k])
  {
    var ct := w.dialog.selectedTipo.value;
    AssociationsOfAssociate(w.table, ct, w.dialog.selectedGrupo, defensoria.value, newId);
  }

  /**
   * Assigning only through the control, from a dialog in sync with the store,
   * keeps a case type at two groups or fewer.
   */
  lemma AssignKeepsLimit(w: World, defensoria: Option<Id>, newId: Id, insertFails: bool, fetchFails: bool)
    requires InSync(w) && CanAssignMore(w.dialog.gruposProceso)
    ensures |AssociationsOf(AfterAssign(w, defensoria, newId, insertFails, fetchFails).table, w.dialog.selectedTipo.value)| <= MaxGroups
  {
    var ct := w.dialog.selectedTipo.value;
    var call := AssignGuard(w.dialog.selectedTipo, w.dialog.selectedGrupo, defensoria);
    if call.Some? && !insertFails {
      AssociationsOfAssociate(w.table, ct, call.value.groupId, call.value.defensoria, newId);
    }
  }

  // ---------------------------------------------------------------------
  // The dialog after a failed refetch

  /** One more association of the pair is one more row linking the two. */
  lemma AssociateAddsPairRow(rows: seq<CaseTypeGroupRow>, ct: Id, g: Id, d: Id, newId: Id)
    ensures PairCount(Associate(rows, ct, g, d, newId), ct, g) == PairCount(rows, ct, g) + 1
  {
    var r := Associate(rows, ct, g, d, newId);
    assert r[..|r| - 1] == rows;
  }

  /**
   * `handleAssignGroup` as written: when the insert succeeds and the refetch
   * fails, the dialog is left as it was. The control is still shown, the same
   * group is still selected, and a second press inserts the pair again. From a
   * case type with one association this ends with three, the pair associated
   * twice, and two active associations once the group is activated.
   */
  lemma StaleDialogBreaksLimit(w: World, defensoria: Option<Id>, id1: Id, id2: Id)
    requires InSync(w) && CanAssignMore(w.dialog.gruposProceso)
    requires AssignGuard(w.dialog.selectedTipo, w.dialog.selectedGrupo, defensoria).Some?
    ensures var ct := w.dialog.selectedTipo.value;
      var g := w.dialog.selectedGrupo;
      var w1 := AfterAssign(w, defensoria, id1, false, true);
      var w2 := AfterAssign(w1, defensoria, id2, false, false);
      && w1.dialog == w.dialog && !InSync(w1)
      && CanAssignMore(w1.dialog.gruposProceso)
      && |AssociationsOf(w2.table, ct)| == |AssociationsOf(w.table, ct)| + 2
      && PairCount(w2.table, ct, g) == PairCount(w.table, ct, g) + 2
      && !AtMostOneActive(Activate(w2.table, ct, g), ct)
      && (|AssociationsOf(w.table, ct)| == 1 ==> |AssociationsOf(w2.table, ct)| > MaxGroups)
  {
    var ct := w.dialog.selectedTipo.value;
    var g := w.dialog.selectedGrupo;
    var d := defensoria.value;
    var t1 := Associate(w.table, ct, g, d, id1);
    var t2 := Associate(t1, ct, g, d, id2);
    AssociationsOfAssociate(w.table, ct, g, d, id1);
    AssociationsOfAssociate(t1, ct, g, d, id2);
    AssociateAddsPairRow(w.table, ct, g, d, id1);
    AssociateAddsPairRow(t1, ct, g, d, id2);
    ActivateCountsPairRows(t2, ct, g);
  }

  /**
   * `handleAssignGroup` as evidently intended: when the refetch after a
   * successful insert fails, the dialog still records the inserted association
   * and clears the select. Every other path is the handler as written.
   */
  function AfterAssignCorrected(w: World, defensoria: Option<Id>, newId: Id, insertFails: bool, fetchFails: bool)
    : (r: World)
    ensures r.table == AfterAssign(w, defensoria, newId, insertFails, fetchFails).table
    ensures r.dialog.selectedTipo == w.dialog.selectedTipo
    ensures !(AssignGuard(w.dialog.selectedTipo, w.dialog.selectedGrupo, defensoria).Some? && !insertFails && fetchFails) ==>
      r == AfterAssign(w, defensoria, newId, insertFails, fetchFails)
  {
    var call := AssignGuard(w.dialog.selectedTipo, w.dialog.selectedGrupo, defensoria);
    if call.None? || insertFails || !fetchFails then AfterAssign(w, defensoria, newId, insertFails, fetchFails)
    else
      var c := call.value;
      var table := Associate(w.table, c.caseTypeId, c.groupId, c.defensoria, newId);
      var shown := w.dialog.gruposProceso + [table[|w.table|]];
      World(Dialog(w.dialog.selectedTipo, "", shown, Refresh(w.dialog.cache, c.caseTypeId, shown)), table)
  }

  /** The corrected handler keeps the dialog in sync with the store on every path. */
  lemma CorrectedKeepsSync(w: World, defensoria: Option<Id>, newId: Id, insertFails: bool, fetchFails: bool)
    requires InSync(w)
    ensures InSync(AfterAssignCorrected(w, defensoria, newId, insertFails, fetchFails))
  {
    var call := AssignGuard(w.dialog.selectedTipo, w.dialog.selectedGrupo, defensoria);
    if call.Some? && !insertFails {
      AssociationsOfAssociate(w.table, call.value.caseTypeId, call.value.groupId, call.value.defensoria, newId);
    }
  }

  /** A press of "Asignar grupo": the group chosen just before it, and the store's answers. */
  datatype Press = Press(grupo: Id, newId: Id, insertFails: bool, fetchFails: bool)

  /** Presses in turn, with the corrected handler; a press counts only while the control is shown. */
  function RunCorrected(w: World, defensoria: Option<Id>, presses: seq<Press>): World
    decreases |presses|
  {
    if presses == [] then w
    else
      var p := presses[0];
      var next :=
        if CanAssignMore(w.dialog.gruposProceso) then
          AfterAssignCorrected(World(w.dialog.(selectedGrupo := p.grupo), w.table), defensoria, p.newId, p.insertFails, p.fetchFails)
        else w;
      RunCorrected(next, defensoria, presses[1..])
  }

  /**
   * With the corrected handler, no run of presses, whatever group is chosen and
   * whichever store calls fail, takes a case type past two groups, and the
   * dialog stays in sync.
   */
  lemma {:induction false} CorrectedKeepsLimit(w: World, defensoria: Option<Id>, presses: seq<Press>)
    requires InSync(w) && |AssociationsOf(w.table, w.dialog.selectedTipo.value)| <= MaxGroups
    ensures var r := RunCorrected(w, defensoria, presses);
      && r.dialog.selectedTipo == w.dialog.selectedTipo && InSync(r)
      && |AssociationsOf(r.table, w.dialog.selectedTipo.value)| <= MaxGroups
    decreases |presses|
  {
    if presses != [] {
      var p := presses[0];
      var next := w;
      if CanAssignMore(w.dialog.gruposProceso) {
        var w0 := World(w.dialog.(selectedGrupo := p.grupo), w.table);
        CorrectedKeepsSync(w0, defensoria, p.newId, p.insertFails, p.fetchFails);
        AssignKeepsLimit(w0, defensoria, p.newId, p.insertFails, p.fetchFails);
        next := AfterAssignCorrected(w0, defensoria, p.newId, p.insertFails, p.fetchFails);
      }
      CorrectedKeepsLimit(next, defensoria, presses[1..]);
    }
  }

  /**
   * Assigning an offered group associates it with the case type exactly once,
   * so activating it afterwards leaves exactly one active association.
   */
  lemma {:induction false} OfferedGroupAssociatedOnce(rows: seq<CaseTypeGroupRow>, ct: Id, g: Id, d: Id, newId: Id)
    requires !Associated(AssociationsOf(rows, ct), g)
    ensures PairCount(Associate(rows, ct, g, d, newId), ct, g) == 1
    ensures ActiveCount(Activate(Associate(rows, ct, g, d, newId), ct, g), ct) == 1
  {
    var r := Associate(rows, ct, g, d, newId);
    assert r[..|r| - 1] == rows;
    NoPairCountsZero(rows, ct, g);
    ActivateCountsPairRows(r, ct, g);
  }

  /** A case type with no association to `g` has no row linking them. */
  lemma {:induction false} NoPairCountsZero(rows: seq<CaseTypeGroupRow>, ct: Id, g: Id)
    requires !Associated(AssociationsOf(rows, ct), g)
    ensures PairCount(rows, ct, g) == 0
  {
    if rows != [] {
      var init := rows[..|rows| - 1];
      var last := rows[|rows| - 1];
      assert last in rows;
      if last.caseTypeId == ct {
        assert last in AssociationsOf(rows, ct);
      }
      forall gp | gp in AssociationsOf(init, ct)
        ensures gp.groupId != g
      {
        assert gp in rows;
        assert gp in AssociationsOf(rows, ct);
      }
      NoPairCountsZero(init, ct, g);
    }
  }

  /**
   * After a successful activation of `g`, the refreshed list shows "Activar"
   * on exactly the case type's other groups, and only that case type's
   * cache entry changes.
   */
  lemma ActivateShowsActivarOnSiblings(w: World, g: Id)
    requires w.dialog.selectedTipo.Some?
    ensures var w' := AfterActivate(w, g, false, false, false);
      && InSync(w')
      && (forall x :: x in w'.dialog.gruposProceso ==> (ShowsActivar(x) <==> x.groupId != g))
      && (forall k :: k in w.dialog.cache && k != w.dialog.selectedTipo.value ==> w'.dialog.cache[k] == w.dialog.cache[k])
  {
    var ct := w.dialog.selectedTipo.value;
    var w' := AfterActivate(w, g, false, false, false);
    var table := Activate(w.table, ct, g);
    forall x | x in w'.dialog.gruposProceso
      ensures ShowsActivar(x) <==> x.groupId != g
    {
      assert x in table && x.caseTypeId == ct;
      var k :| 0 <= k < |table| && table[k] == x;
    }
  }

  /** A failed activation step keeps the dialog as it was, though a completed deactivation stays in the table. */
  lemma ActivateFailureKeepsDialog(w: World, g: Id, activateFails: bool, fetchFails: bool)
    requires w.dialog.selectedTipo.Some?
    requires activateFails || fetchFails
    ensures AfterActivate(w, g, false, activateFails, fetchFails).dialog == w.dialog
    ensures activateFails ==>
      AfterActivate(w, g, false, activateFails, fetchFails).table == WithActive(w.table, w.dialog.selectedTipo.value, None, false)
  {
  }
}

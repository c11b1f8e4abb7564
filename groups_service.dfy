/**
 * The group-routing tables as an in-memory store: `case_type_groups` (which
 * groups serve a case type, and which one is active) and `group_members`.
 * Every store call may fail for transport reasons; that answer is a `fails`
 * parameter. A failing statement changes nothing (each update or delete is
 * one statement), but an earlier statement of the same operation stays done.
 */
module GroupsService {
  import opened Rows

  // ---------------------------------------------------------------------
  // Specification functions over case_type_groups

  /** Does `update(...).eq('case_type_id', ct)[.eq('group_id', g)]` select this row? */
  predicate Selects(row: CaseTypeGroupRow, ct: Id, onlyGroup: Option<Id>) {
    row.caseTypeId == ct && (onlyGroup.Some? ==> row.groupId == onlyGroup.value)
  }

  /** The table after `update({ is_active: value })` on the rows `Selects` picks. */
  function WithActive(rows: seq<CaseTypeGroupRow>, ct: Id, onlyGroup: Option<Id>, value: bool)
    : (r: seq<CaseTypeGroupRow>)
    ensures |r| == |rows|
    ensures forall k :: 0 <= k < |rows| && Selects(rows[k], ct, onlyGroup) ==>
      r[k] == rows[k].(isActive := Some(value))
    ensures forall k :: 0 <= k < |rows| && !Selects(rows[k], ct, onlyGroup) ==> r[k] == rows[k]
  {
    seq(|rows|, k requires 0 <= k < |rows| =>
      if Selects(rows[k], ct, onlyGroup) then rows[k].(isActive := Some(value)) else rows[k])
  }

  /**
   * The table after a successful activation: every association of `ct` set
   * inactive, then the one(s) with group `g` set active.
   */
  function Activate(rows: seq<CaseTypeGroupRow>, ct: Id, g: Id): (r: seq<CaseTypeGroupRow>)
    ensures |r| == |rows|
    // the chosen group is active, every sibling is inactive
    ensures forall k :: 0 <= k < |r| && r[k].caseTypeId == ct ==>
      r[k].isActive == Some(r[k].groupId == g)
    // other case types are untouched; only is_active changes
    ensures forall k :: 0 <= k < |r| && rows[k].caseTypeId != ct ==> r[k] == rows[k]
    ensures forall k :: 0 <= k < |r| ==> r[k] == rows[k].(isActive := r[k].isActive)
  {
    WithActive(WithActive(rows, ct, None, false), ct, Some(g), true)
  }

  /**
   * The table after `activateGroupForCaseType`, given which of its two
   * statements fail: a failed deactivation stops before anything changes, a
   * failed activation leaves the deactivation done.
   */
  function ActivationOutcome(rows: seq<CaseTypeGroupRow>, ct: Id, g: Id, deactivateFails: bool, activateFails: bool)
    : seq<CaseTypeGroupRow>
  {
    if deactivateFails then rows
    else if activateFails then WithActive(rows, ct, None, false)
    else Activate(rows, ct, g)
  }

  /** The table after a successful `assignGroupToCaseType`: one new row, `is_active` unset. */
  function Associate(rows: seq<CaseTypeGroupRow>, ct: Id, g: Id, defensoria: Id, newId: Id): (r: seq<CaseTypeGroupRow>)
    ensures |r| == |rows| + 1 && r[..|rows|] == rows
    ensures r[|rows|] == CaseTypeGroupRow(newId, ct, g, defensoria, None)
  {
    rows + [CaseTypeGroupRow(newId, ct, g, defensoria, None)]
  }

  /** The rows `getGroupsForCaseType(ct)` returns, in table order. */
  function AssociationsOf(rows: seq<CaseTypeGroupRow>, ct: Id): (r: seq<CaseTypeGroupRow>)
    ensures |r| <= |rows|
    ensures forall x :: x in r <==> x in rows && x.caseTypeId == ct
  {
    if rows == [] then []
    else
      var last := rows[|rows| - 1];
      AssociationsOf(rows[..|rows| - 1], ct) + (if last.caseTypeId == ct then [last] else [])
  }

  /** The number of associations of `ct` that are active. */
  function ActiveCount(rows: seq<CaseTypeGroupRow>, ct: Id): (n: nat)
    ensures n <= |rows|
  {
    if rows == [] then 0
    else
      var last := rows[|rows| - 1];
      ActiveCount(rows[..|rows| - 1], ct) + (if last.caseTypeId == ct && Truthy(last.isActive) then 1 else 0)
  }

  // ---------------------------------------------------------------------
  // Specification functions over group_members

  /** The user ids `getGroupMembers(g)` returns, in table order. */
  function MemberIds(rows: seq<GroupMemberRow>, g: Id): (r: seq<Id>)
    ensures |r| <= |rows|
    ensures forall u :: u in r <==> exists k :: 0 <= k < |rows| && rows[k].groupId == g && rows[k].userId == u
  {
    if rows == [] then []
    else
      var last := rows[|rows| - 1];
      var init := MemberIds(rows[..|rows| - 1], g);
      assert forall k :: 0 <= k < |rows| - 1 ==> rows[..|rows| - 1][k] == rows[k];
      init + (if last.groupId == g then [last.userId] else [])
  }

  predicate Membership(row: GroupMemberRow, g: Id, u: Id) {
    row.groupId == g && row.userId == u
  }

  /** `group_members` after `delete().eq('group_id', g).eq('user_id', u)`. */
  function WithoutMember(rows: seq<GroupMemberRow>, g: Id, u: Id): (r: seq<GroupMemberRow>)
    ensures |r| <= |rows|
    ensures forall x :: x in r <==> x in rows && !Membership(x, g, u)
  {
    if rows == [] then []
    else
      var last := rows[|rows| - 1];
      WithoutMember(rows[..|rows| - 1], g, u) + (if Membership(last, g, u) then [] else [last])
  }

  // ---------------------------------------------------------------------
  // Properties

  /** Activating a group that has no association row for `ct` leaves `ct` with no active association. */
  lemma {:induction false} ActivateUnknownGroupLeavesNoneActive(rows: seq<CaseTypeGroupRow>, ct: Id, g: Id)
    requires forall k :: 0 <= k < |rows| && rows[k].caseTypeId == ct ==> rows[k].groupId != g
    ensures ActiveCount(Activate(rows, ct, g), ct) == 0
  {
    var r := Activate(rows, ct, g);
    forall k | 0 <= k < |r| && r[k].caseTypeId == ct ensures !Truthy(r[k].isActive) {
    }
    NoneActiveCountsZero(r, ct);
  }

  lemma {:induction false} NoneActiveCountsZero(rows: seq<CaseTypeGroupRow>, ct: Id)
    requires forall k :: 0 <= k < |rows| && rows[k].caseTypeId == ct ==> !Truthy(rows[k].isActive)
    ensures ActiveCount(rows, ct) == 0
  {
    if rows != [] {
      NoneActiveCountsZero(rows[..|rows| - 1], ct);
    }
  }

  /** The number of associations linking `ct` to `g`. */
  function PairCount(rows: seq<CaseTypeGroupRow>, ct: Id, g: Id): (n: nat)
    ensures n <= |rows|
  {
    if rows == [] then 0
    else
      var last := rows[|rows| - 1];
      PairCount(rows[..|rows| - 1], ct, g) + (if last.caseTypeId == ct && last.groupId == g then 1 else 0)
  }

  /**
   * After activation, the number of active associations of `ct` is the
   * number of rows linking `ct` to `g`: exactly one when the pair was
   * associated once, zero when it was never associated.
   */
  lemma {:induction false} ActivateCountsPairRows(rows: seq<CaseTypeGroupRow>, ct: Id, g: Id)
    ensures ActiveCount(Activate(rows, ct, g), ct) == PairCount(rows, ct, g)
  {
    if rows != [] {
      var init := rows[..|rows| - 1];
      ActivateCountsPairRows(init, ct, g);
      assert Activate(rows, ct, g)[..|rows| - 1] == Activate(init, ct, g);
    }
  }

  /** Activation is idempotent. */
  lemma ActivateIdempotent(rows: seq<CaseTypeGroupRow>, ct: Id, g: Id)
    ensures Activate(Activate(rows, ct, g), ct, g) == Activate(rows, ct, g)
  {
    var once := Activate(rows, ct, g);
    var twice := Activate(once, ct, g);
    assert |twice| == |once|;
    forall k | 0 <= k < |once| ensures twice[k] == once[k] {
    }
  }

  /** A later activation of `g2` supersedes an earlier activation of `g1`. */
  lemma ActivateSupersedes(rows: seq<CaseTypeGroupRow>, ct: Id, g1: Id, g2: Id)
    ensures Activate(Activate(rows, ct, g1), ct, g2) == Activate(rows, ct, g2)
  {
    var a := Activate(Activate(rows, ct, g1), ct, g2);
    var b := Activate(rows, ct, g2);
    assert |a| == |b|;
    forall k | 0 <= k < |a| ensures a[k] == b[k] {
    }
  }

  /**
   * The routing invariant the activation flow is meant to keep: at most one
   * association of a case type is active.
   */
  predicate AtMostOneActive(rows: seq<CaseTypeGroupRow>, ct: Id) {
    ActiveCount(rows, ct) <= 1
  }

  /** A new association starts with `is_active` unset, so no case type gains an active row. */
  lemma AssociateKeepsActiveCount(rows: seq<CaseTypeGroupRow>, ct: Id, g: Id, d: Id, newId: Id, c: Id)
    ensures ActiveCount(Associate(rows, ct, g, d, newId), c) == ActiveCount(rows, c)
  {
    var r := Associate(rows, ct, g, d, newId);
    assert r[..|r| - 1] == rows;
  }

  /** An update scoped to case type `ct` leaves the active count of every other case type alone. */
  lemma {:induction false} WithActiveKeepsOtherCounts(rows: seq<CaseTypeGroupRow>, ct: Id, onlyGroup: Option<Id>, value: bool, c: Id)
    requires c != ct
    ensures ActiveCount(WithActive(rows, ct, onlyGroup, value), c) == ActiveCount(rows, c)
  {
    if rows != [] {
      var init := rows[..|rows| - 1];
      WithActiveKeepsOtherCounts(init, ct, onlyGroup, value, c);
      assert WithActive(rows, ct, onlyGroup, value)[..|rows| - 1] == WithActive(init, ct, onlyGroup, value);
    }
  }

  /** The deactivation statement alone leaves `ct` with no active association. */
  lemma DeactivateLeavesNoneActive(rows: seq<CaseTypeGroupRow>, ct: Id)
    ensures ActiveCount(WithActive(rows, ct, None, false), ct) == 0
  {
    NoneActiveCountsZero(WithActive(rows, ct, None, false), ct);
  }

  /**
   * Every outcome of `activateGroupForCaseType` (both statements done, only the
   * first, or neither) keeps "at most one active" for every case type, as long
   * as the chosen pair is not associated twice.
   */
  lemma ActivationKeepsAtMostOne(rows: seq<CaseTypeGroupRow>, ct: Id, g: Id, deactivateFails: bool, activateFails: bool, c: Id)
    requires AtMostOneActive(rows, c)
    requires PairCount(rows, ct, g) <= 1
    ensures AtMostOneActive(ActivationOutcome(rows, ct, g, deactivateFails, activateFails), c)
  {
    if !deactivateFails {
      var cleared := WithActive(rows, ct, None, false);
      if c == ct {
        if activateFails {
          DeactivateLeavesNoneActive(rows, ct);
        } else {
          ActivateCountsPairRows(rows, ct, g);
        }
      } else {
        WithActiveKeepsOtherCounts(rows, ct, None, false, c);
        WithActiveKeepsOtherCounts(cleared, ct, Some(g), true, c);
      }
    }
  }

  // ---------------------------------------------------------------------
  // The store

  class GroupStore {
    var caseTypeGroups: seq<CaseTypeGroupRow>
    var groupMembers: seq<GroupMemberRow>

    constructor (associations: seq<CaseTypeGroupRow>, members: seq<GroupMemberRow>)
      ensures caseTypeGroups == associations && groupMembers == members
    {
      caseTypeGroups := associations;
      groupMembers := members;
    }

    /** One `update({ is_active: value })` statement over the selected rows. */
    method UpdateActive(ct: Id, onlyGroup: Option<Id>, value: bool)
      modifies this
      ensures caseTypeGroups == WithActive(old(caseTypeGroups), ct, onlyGroup, value)
      ensures groupMembers == old(groupMembers)
    {
      var i := 0;
      while i < |caseTypeGroups|
        invariant 0 <= i <= |caseTypeGroups| == |old(caseTypeGroups)|
        invariant groupMembers == old(groupMembers)
        invariant forall k :: 0 <= k < i ==> caseTypeGroups[k] == WithActive(old(caseTypeGroups), ct, onlyGroup, value)[k]
        invariant forall k :: i <= k < |caseTypeGroups| ==> caseTypeGroups[k] == old(caseTypeGroups)[k]
      {
        if Selects(caseTypeGroups[i], ct, onlyGroup) {
          caseTypeGroups := caseTypeGroups[i := caseTypeGroups[i].(isActive := Some(value))];
        }
        i := i + 1;
      }
    }

    /**
     * `activateGroupForCaseType`: deactivate every association of `ct`, then
     * activate the one(s) with group `g`. A failed deactivation is raised
     * before the activation is attempted; a failed activation leaves the
     * deactivation in place.
     */
    method ActivateGroupForCaseType(ct: Id, g: Id, deactivateFails: bool, activateFails: bool)
      returns (r: Outcome)
      modifies this
      ensures r == (if deactivateFails || activateFails then Err else Ok)
      ensures caseTypeGroups == ActivationOutcome(old(caseTypeGroups), ct, g, deactivateFails, activateFails)
      ensures groupMembers == old(groupMembers)
    {
      if deactivateFails {
        return Err;
      }
      UpdateActive(ct, None, false);
      if activateFails {
        return Err;
      }
      UpdateActive(ct, Some(g), true);
      r := Ok;
    }

    /** `assignGroupToCaseType`: insert one association; `is_active` is left unset. */
    method AssignGroupToCaseType(ct: Id, g: Id, defensoria: Id, newId: Id, fails: bool)
      returns (r: Outcome)
      modifies this
      ensures r == (if fails then Err else Ok)
      ensures caseTypeGroups ==
        if fails then old(caseTypeGroups) else Associate(old(caseTypeGroups), ct, g, defensoria, newId)
      ensures groupMembers == old(groupMembers)
    {
      if fails {
        return Err;
      }
      caseTypeGroups := caseTypeGroups + [CaseTypeGroupRow(newId, ct, g, defensoria, None)];
      r := Ok;
    }

    /** `addUserToGroup`: insert one membership row, with no duplicate check. */
    method AddUserToGroup(g: Id, u: Id, newId: Id, now: Timestamp, fails: bool)
      returns (r: Outcome)
      modifies this
      ensures r == (if fails then Err else Ok)
      ensures groupMembers ==
        if fails then old(groupMembers)
        else old(groupMembers) + [GroupMemberRow(newId, g, u, now)]
      ensures caseTypeGroups == old(caseTypeGroups)
    {
      if fails {
        return Err;
      }
      groupMembers := groupMembers + [GroupMemberRow(newId, g, u, now)];
      r := Ok;
    }

    /** `removeUserFromGroup`: delete every membership row of `u` in `g`. */
    method RemoveUserFromGroup(g: Id, u: Id, fails: bool) returns (r: Outcome)
      modifies this
      ensures r == (if fails then Err else Ok)
      ensures groupMembers == if fails then old(groupMembers) else WithoutMember(old(groupMembers), g, u)
      ensures caseTypeGroups == old(caseTypeGroups)
    {
      if fails {
        return Err;
      }
      var kept: seq<GroupMemberRow> := [];
      var i := 0;
      while i < |groupMembers|
        invariant 0 <= i <= |groupMembers|
        invariant kept == WithoutMember(groupMembers[..i], g, u)
      {
        assert groupMembers[..i + 1][..i] == groupMembers[..i];
        if !Membership(groupMembers[i], g, u) {
          kept := kept + [groupMembers[i]];
        }
        i := i + 1;
      }
      assert groupMembers[..i] == groupMembers;
      groupMembers := kept;
      r := Ok;
    }

    /** `getGroupMembers`: the user ids of the rows of group `g`. */
    method GetGroupMembers(g: Id, fails: bool) returns (r: Option<seq<Id>>)
      ensures fails <==> r.None?
      ensures r.Some? ==> forall u :: u in r.value <==>
        exists k :: 0 <= k < |groupMembers| && groupMembers[k].groupId == g && groupMembers[k].userId == u
      ensures r.Some? ==> r.value == MemberIds(groupMembers, g)
    {
      if fails {
        return None;
      }
      var ids: seq<Id> := [];
      var i := 0;
      while i < |groupMembers|
        invariant 0 <= i <= |groupMembers|
        invariant ids == MemberIds(groupMembers[..i], g)
      {
        assert groupMembers[..i + 1][..i] == groupMembers[..i];
        if groupMembers[i].groupId == g {
          ids := ids + [groupMembers[i].userId];
        }
        i := i + 1;
      }
      assert groupMembers[..i] == groupMembers;
      r := Some(ids);
    }

    /** `getGroupsForCaseType`: the association rows of case type `ct`. */
    method GetGroupsForCaseType(ct: Id, fails: bool) returns (r: Option<seq<CaseTypeGroupRow>>)
      ensures fails <==> r.None?
      ensures r.Some? ==> forall x :: x in r.value <==> x in caseTypeGroups && x.caseTypeId == ct
      ensures r.Some? ==> r.value == AssociationsOf(caseTypeGroups, ct)
    {
      if fails {
        return None;
      }
      var found: seq<CaseTypeGroupRow> := [];
      var i := 0;
      while i < |caseTypeGroups|
        invariant 0 <= i <= |caseTypeGroups|
        invariant found == AssociationsOf(caseTypeGroups[..i], ct)
      {
        assert caseTypeGroups[..i + 1][..i] == caseTypeGroups[..i];
        if caseTypeGroups[i].caseTypeId == ct {
          found := found + [caseTypeGroups[i]];
        }
        i := i + 1;
      }
      assert caseTypeGroups[..i] == caseTypeGroups;
      r := Some(found);
    }
  }
}

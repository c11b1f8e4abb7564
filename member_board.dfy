/**
 * The group-membership board: a column of attorneys in no group and one
 * column per group. Dragging a card onto a column calls the group store and,
 * only when that call succeeds, moves the card.
 *
 * The board's record of group columns is a sequence of slots in the order of
 * the `grupos` it was initialised from (the order in which the record's keys
 * were inserted, which is the order a `for ... in` walk visits them).
 */
module MemberBoard {
  import opened Rows
  import GroupsService

  /** Where a card was dropped: the "available" column or a group's column. */
  datatype DropTarget = AvailableZone | GroupZone(groupId: Id)

  /** One group's column: the group id and the attorneys shown in it. */
  datatype Slot = Slot(groupId: Id, members: seq<User>)

  datatype BoardState = BoardState(available: seq<User>, slots: seq<Slot>)

  /** What a drop does, decided before any call to the store. */
  datatype Move =
    | Ignore
    | Release(from: nat)          // from a group back to "available"
    | Join(to: nat)               // from "available" into a group
    | Transfer(from: nat, to: nat) // from one group to another

  // ---------------------------------------------------------------------
  // Initial partition

  /** An attorney is placed in a group listing its id, or whose name the attorney lists. */
  predicate BelongsTo(a: User, g: Group) {
    a.id in g.members || (a.groups.Some? && g.name in a.groups.value)
  }

  /** The attorneys placed in group `g`, in `abogados` order. */
  function InitialMembers(abogados: seq<User>, g: Group): (r: seq<User>)
    ensures |r| <= |abogados|
    ensures forall x :: x in r <==> x in abogados && BelongsTo(x, g)
  {
    if abogados == [] then []
    else
      var last := abogados[|abogados| - 1];
      InitialMembers(abogados[..|abogados| - 1], g) + (if BelongsTo(last, g) then [last] else [])
  }

  /** The ids of the groups attorney `a` is placed in, in `grupos` order. */
  function GroupIdsOf(a: User, grupos: seq<Group>): (r: seq<Id>)
    ensures r == [] <==> forall j :: 0 <= j < |grupos| ==> !BelongsTo(a, grupos[j])
  {
    if grupos == [] then []
    else
      var last := grupos[|grupos| - 1];
      var init := GroupIdsOf(a, grupos[..|grupos| - 1]);
      assert forall j :: 0 <= j < |grupos| - 1 ==> grupos[..|grupos| - 1][j] == grupos[j];
      init + (if BelongsTo(a, last) then [last.id] else [])
  }

  /** The attorneys placed in no group, in `abogados` order. */
  function InitialAvailable(abogados: seq<User>, grupos: seq<Group>): (r: seq<User>)
    ensures |r| <= |abogados|
    ensures forall x :: x in r <==> x in abogados && GroupIdsOf(x, grupos) == []
  {
    if abogados == [] then []
    else
      var last := abogados[|abogados| - 1];
      InitialAvailable(abogados[..|abogados| - 1], grupos) + (if GroupIdsOf(last, grupos) == [] then [last] else [])
  }

  function InitialSlots(abogados: seq<User>, grupos: seq<Group>): (r: seq<Slot>)
    ensures |r| == |grupos|
    ensures forall j :: 0 <= j < |grupos| ==>
      r[j].groupId == grupos[j].id && r[j].members == InitialMembers(abogados, grupos[j])
  {
    seq(|grupos|, j requires 0 <= j < |grupos| => Slot(grupos[j].id, InitialMembers(abogados, grupos[j])))
  }

  /**
   * After initialisation every attorney is either available or in at least
   * one group, never both.
   */
  lemma InitialPartition(abogados: seq<User>, grupos: seq<Group>, a: User)
    requires a in abogados
    ensures a in InitialAvailable(abogados, grupos) <==>
      forall j :: 0 <= j < |grupos| ==> a !in InitialSlots(abogados, grupos)[j].members
  {
    var slots := InitialSlots(abogados, grupos);
    if a !in InitialAvailable(abogados, grupos) {
      var j :| 0 <= j < |grupos| && BelongsTo(a, grupos[j]);
      assert a in slots[j].members;
    }
  }

  // ---------------------------------------------------------------------
  // Lookups

  /** The first slot, in board order, holding a user with id `uid`. */
  function FirstHolder(slots: seq<Slot>, uid: Id): (r: Option<nat>)
    ensures r.Some? ==> r.value < |slots| && HasId(slots[r.value].members, uid)
    ensures r.Some? ==> forall q :: 0 <= q < r.value ==> !HasId(slots[q].members, uid)
    ensures r.None? ==> forall q :: 0 <= q < |slots| ==> !HasId(slots[q].members, uid)
  {
    if slots == [] then None
    else if HasId(slots[0].members, uid) then Some(0)
    else
      match FirstHolder(slots[1..], uid)
      case None => None
      case Some(j) => Some(j + 1)
  }

  /** The first index showing `uid` is what `FirstHolder` finds. */
  lemma {:induction false} FirstHolderIs(slots: seq<Slot>, uid: Id, j: nat)
    requires j < |slots| && HasId(slots[j].members, uid)
    requires forall q :: 0 <= q < j ==> !HasId(slots[q].members, uid)
    ensures FirstHolder(slots, uid) == Some(j)
  {
    if j > 0 {
      FirstHolderIs(slots[1..], uid, j - 1);
    }
  }

  /** `findUserById`: the available column first, then the groups in board order. */
  function FindUser(s: BoardState, uid: Id): (r: Option<User>)
    ensures r.Some? ==> r.value.id == uid
    ensures r.None? <==> !HasId(s.available, uid) && FirstHolder(s.slots, uid).None?
  {
    if HasId(s.available, uid) then FindIn(s.available, uid)
    else
      match FirstHolder(s.slots, uid)
      case None => None
      case Some(j) => FindIn(s.slots[j].members, uid)
  }

  /** The slot index of group `gid` (the record key lookup `groupMembers[gid]`). */
  function SlotIndex(slots: seq<Slot>, gid: Id): (r: Option<nat>)
    ensures r.Some? ==> r.value < |slots| && slots[r.value].groupId == gid
    ensures r.None? ==> forall q :: 0 <= q < |slots| ==> slots[q].groupId != gid
  {
    if slots == [] then None
    else if slots[0].groupId == gid then Some(0)
    else
      match SlotIndex(slots[1..], gid)
      case None => None
      case Some(j) => Some(j + 1)
  }

  /** `users.filter(u => u.id !== uid)`. */
  function WithoutId(users: seq<User>, uid: Id): (r: seq<User>)
    ensures forall x :: x in r <==> x in users && x.id != uid
    ensures !HasId(r, uid)
  {
    if users == [] then []
    else
      var last := users[|users| - 1];
      var init := WithoutId(users[..|users| - 1], uid);
      var r := init + (if last.id == uid then [] else [last]);
      assert forall k :: 0 <= k < |r| ==> r[k] in r;
      r
  }

  /** Every drop zone is the available column or a group column on the board. */
  predicate KnownTarget(s: BoardState, over: Option<DropTarget>) {
    over.Some? && over.value.GroupZone? ==> SlotIndex(s.slots, over.value.groupId).Some?
  }

  // ---------------------------------------------------------------------
  // The drop handler as a decision and a state update

  /** What dropping `uid` on `over` does. */
  function PlanDrop(s: BoardState, uid: Id, over: Option<DropTarget>): (m: Move)
    requires KnownTarget(s, over)
    ensures over.None? || FindUser(s, uid).None? ==> m == Ignore
    // a grouped card dropped on "available" leaves its first group
    ensures m.Release? ==> over == Some(AvailableZone) && FirstHolder(s.slots, uid) == Some(m.from)
    // an available card joins the target group
    ensures m.Join? ==> (over.value.GroupZone? && HasId(s.available, uid)
      && m.to < |s.slots| && s.slots[m.to].groupId == over.value.groupId)
    // a grouped card moves from its first group, unless that is the target
    ensures m.Transfer? ==> (over.value.GroupZone? && !HasId(s.available, uid)
      && FirstHolder(s.slots, uid) == Some(m.from) && m.to < |s.slots|
      && s.slots[m.to].groupId == over.value.groupId && s.slots[m.from].groupId != over.value.groupId)
    // a grouped card dropped on the group it is first shown in stays put
    ensures (over.Some? && over.value.GroupZone? && !HasId(s.available, uid) && FirstHolder(s.slots, uid).Some?
      && s.slots[FirstHolder(s.slots, uid).value].groupId == over.value.groupId) ==> m == Ignore
    // conversely: a grouped card dropped on "available" is released from its first group,
    // and a card shown only in "available" stays put there
    ensures over == Some(AvailableZone) && FirstHolder(s.slots, uid).Some? ==>
      m == Release(FirstHolder(s.slots, uid).value)
    ensures over == Some(AvailableZone) && FirstHolder(s.slots, uid).None? ==> m == Ignore
    // an available card dropped on a group joins that group
    ensures (over.Some? && over.value.GroupZone? && HasId(s.available, uid)) ==>
      m == Join(SlotIndex(s.slots, over.value.groupId).value)
    // a grouped card dropped on another group is transferred from its first group
    ensures (over.Some? && over.value.GroupZone? && !HasId(s.available, uid) && FirstHolder(s.slots, uid).Some?
      && s.slots[FirstHolder(s.slots, uid).value].groupId != over.value.groupId) ==>
      m == Transfer(FirstHolder(s.slots, uid).value, SlotIndex(s.slots, over.value.groupId).value)
  {
    if over.None? || FindUser(s, uid).None? then Ignore
    else
      match over.value
      case AvailableZone =>
        (match FirstHolder(s.slots, uid)
         case None => Ignore
         case Some(j) => Release(j))
      case GroupZone(gid) =>
        var t := SlotIndex(s.slots, gid).value;
        if HasId(s.available, uid) then Join(t)
        else
          match FirstHolder(s.slots, uid)
          case None => Ignore
          case Some(j) => if s.slots[j].groupId == gid then Ignore else Transfer(j, t)
  }

  predicate MoveFits(s: BoardState, m: Move) {
    match m
    case Ignore => true
    case Release(j) => j < |s.slots|
    case Join(t) => t < |s.slots|
    case Transfer(j, t) => j < |s.slots| && t < |s.slots|
  }

  function DropSlot(slot: Slot, uid: Id): Slot {
    slot.(members := WithoutId(slot.members, uid))
  }

  function AddToSlot(slot: Slot, user: User): Slot {
    slot.(members := slot.members + [user])
  }

  /** The board after the move, given whether the store calls failed. */
  function After(s: BoardState, m: Move, user: User, removeFails: bool, addFails: bool): (r: BoardState)
    requires MoveFits(s, m)
    ensures |r.slots| == |s.slots|
    ensures forall q :: 0 <= q < |s.slots| ==> r.slots[q].groupId == s.slots[q].groupId
  {
    match m
    case Ignore => s
    case Release(j) =>
      if removeFails then s
      else BoardState(s.available + [user], s.slots[j := DropSlot(s.slots[j], user.id)])
    case Join(t) =>
      if addFails then s
      else BoardState(WithoutId(s.available, user.id), s.slots[t := AddToSlot(s.slots[t], user)])
    case Transfer(j, t) =>
      if removeFails || addFails then s
      else BoardState(s.available, s.slots[j := DropSlot(s.slots[j], user.id)][t := AddToSlot(s.slots[t], user)])
  }

  /** `group_members` after the store calls the move makes. */
  function StoreAfter(rows: seq<GroupMemberRow>, s: BoardState, m: Move, uid: Id,
                      rowId: Id, now: Timestamp, removeFails: bool, addFails: bool): seq<GroupMemberRow>
    requires MoveFits(s, m)
  {
    match m
    case Ignore => rows
    case Release(j) =>
      if removeFails then rows else GroupsService.WithoutMember(rows, s.slots[j].groupId, uid)
    case Join(t) =>
      if addFails then rows else rows + [GroupMemberRow(rowId, s.slots[t].groupId, uid, now)]
    case Transfer(j, t) =>
      if removeFails then rows
      else
        var removed := GroupsService.WithoutMember(rows, s.slots[j].groupId, uid);
        if addFails then removed else removed + [GroupMemberRow(rowId, s.slots[t].groupId, uid, now)]
  }

  // ---------------------------------------------------------------------
  // Properties of a drop

  /**
   * Dropping a grouped card on "available" takes it out of its first group
   * only, where every other member stays: any later group that also shows it
   * keeps it.
   */
  lemma ReleaseTouchesFirstGroupOnly(s: BoardState, uid: Id)
    requires FirstHolder(s.slots, uid).Some?
    ensures var j := PlanDrop(s, uid, Some(AvailableZone)).from;
      var r := After(s, Release(j), FindUser(s, uid).value, false, false);
      && !HasId(r.slots[j].members, uid)
      && r.slots[j] == s.slots[j].(members := WithoutId(s.slots[j].members, uid))
      && (forall q :: 0 <= q < |s.slots| && q != j ==> r.slots[q] == s.slots[q])
      && r.available == s.available + [FindUser(s, uid).value]
  {
  }

  /**
   * Dropping an available card on a group moves it out of "available" and to
   * the end of that group; the rest of "available" and every other column stay.
   */
  lemma JoinMovesCard(s: BoardState, uid: Id, gid: Id)
    requires KnownTarget(s, Some(GroupZone(gid)))
    requires HasId(s.available, uid)
    ensures var t := PlanDrop(s, uid, Some(GroupZone(gid))).to;
      var user := FindUser(s, uid).value;
      var r := After(s, Join(t), user, false, false);
      && !HasId(r.available, uid)
      && r.available == WithoutId(s.available, uid)
      && r.slots[t].members == s.slots[t].members + [user]
      && r.slots[t].groupId == gid
      && (forall q :: 0 <= q < |s.slots| && q != t ==> r.slots[q] == s.slots[q])
  {
  }

  /**
   * Dropping a card shown only in groups on another group takes it out of its
   * first group, where every other member stays, and appends it to the target;
   * "available" and every other column stay.
   */
  lemma TransferMovesCard(s: BoardState, uid: Id, gid: Id)
    requires KnownTarget(s, Some(GroupZone(gid)))
    requires !HasId(s.available, uid) && FirstHolder(s.slots, uid).Some?
    requires s.slots[FirstHolder(s.slots, uid).value].groupId != gid
    ensures var m := PlanDrop(s, uid, Some(GroupZone(gid)));
      var user := FindUser(s, uid).value;
      var r := After(s, m, user, false, false);
      && m.Transfer? && m.from != m.to
      && m.from == FirstHolder(s.slots, uid).value && s.slots[m.to].groupId == gid
      && r.available == s.available
      && !HasId(r.slots[m.from].members, uid)
      && r.slots[m.from].members == WithoutId(s.slots[m.from].members, uid)
      && r.slots[m.to].members == s.slots[m.to].members + [user]
      && (forall q :: 0 <= q < |s.slots| && q != m.from && q != m.to ==> r.slots[q] == s.slots[q])
  {
  }

  /** A failed store call leaves the board as it was. */
  lemma FailureLeavesBoard(s: BoardState, uid: Id, over: Option<DropTarget>, removeFails: bool, addFails: bool)
    requires KnownTarget(s, over)
    ensures var m := PlanDrop(s, uid, over);
      && MoveFits(s, m)
      && (m.Release? && removeFails ==> After(s, m, FindUser(s, uid).value, removeFails, addFails) == s)
      && (m.Join? && addFails ==> After(s, m, FindUser(s, uid).value, removeFails, addFails) == s)
      && (m.Transfer? && (removeFails || addFails) ==> After(s, m, FindUser(s, uid).value, removeFails, addFails) == s)
  {
  }

  /**
   * A transfer whose removal succeeds and whose insertion fails leaves the
   * card in its source column while the table no longer holds any row of
   * `uid` in the source group: the board and the table disagree.
   */
  lemma TransferHalfDoneDiverges(s: BoardState, uid: Id, gid: Id, rows: seq<GroupMemberRow>, rowId: Id, now: Timestamp)
    requires KnownTarget(s, Some(GroupZone(gid)))
    requires PlanDrop(s, uid, Some(GroupZone(gid))).Transfer?
    ensures var m := PlanDrop(s, uid, Some(GroupZone(gid)));
      var after := After(s, m, FindUser(s, uid).value, false, true);
      var table := StoreAfter(rows, s, m, uid, rowId, now, false, true);
      && after == s
      && HasId(after.slots[m.from].members, uid)
      && forall x :: x in table ==> !GroupsService.Membership(x, s.slots[m.from].groupId, uid)
  {
  }

  /** The board and the table after handling the drop, related to those before it. */
  ghost predicate Dropped(s0: BoardState, rows0: seq<GroupMemberRow>, s1: BoardState, rows1: seq<GroupMemberRow>,
                          uid: Id, over: Option<DropTarget>, rowId: Id, now: Timestamp,
                          removeFails: bool, addFails: bool)
    requires KnownTarget(s0, over)
  {
    var m := PlanDrop(s0, uid, over);
    && MoveFits(s0, m)
    && (m.Ignore? ==> s1 == s0)
    && (!m.Ignore? ==> s1 == After(s0, m, FindUser(s0, uid).value, removeFails, addFails))
    && rows1 == StoreAfter(rows0, s0, m, uid, rowId, now, removeFails, addFails)
  }

  // ---------------------------------------------------------------------
  // Initialisation loops

  /** One empty column per group, in `grupos` order. */
  method EmptyColumns(grupos: seq<Group>) returns (columns: seq<Slot>)
    ensures columns == InitialSlots([], grupos)
  {
    columns := [];
    var j := 0;
    while j < |grupos|
      invariant 0 <= j <= |grupos|
      invariant |columns| == j
      invariant forall q :: 0 <= q < j ==> columns[q] == Slot(grupos[q].id, [])
    {
      columns := columns + [Slot(grupos[j].id, [])];
      j := j + 1;
    }
  }

  /** Every column of a group `a` belongs to gets `a` appended. */
  function Extended(columns: seq<Slot>, a: User, grupos: seq<Group>): (r: seq<Slot>)
    requires |columns| == |grupos|
    ensures |r| == |grupos|
  {
    seq(|grupos|, q requires 0 <= q < |grupos| =>
      if BelongsTo(a, grupos[q]) then columns[q].(members := columns[q].members + [a]) else columns[q])
  }

  /** Placing one more attorney extends each group's list by that attorney, when it belongs. */
  lemma InitialSlotsSnoc(placed: seq<User>, a: User, grupos: seq<Group>)
    ensures Extended(InitialSlots(placed, grupos), a, grupos) == InitialSlots(placed + [a], grupos)
  {
    assert (placed + [a])[..|placed|] == placed;
    var e := Extended(InitialSlots(placed, grupos), a, grupos);
    forall q | 0 <= q < |grupos|
      ensures e[q] == InitialSlots(placed + [a], grupos)[q]
    {
      assert InitialMembers(placed + [a], grupos[q]) ==
        InitialMembers(placed, grupos[q]) + (if BelongsTo(a, grupos[q]) then [a] else []);
    }
  }

  /**
   * The inner walk over the groups for one attorney `a`: push `a` on every
   * group it belongs to and collect those group ids.
   */
  method PlaceAttorney(a: User, grupos: seq<Group>, columns: seq<Slot>)
    returns (columns': seq<Slot>, ids: seq<Id>)
    requires |columns| == |grupos|
    ensures columns' == Extended(columns, a, grupos)
    ensures ids == GroupIdsOf(a, grupos)
  {
    columns' := columns;
    ids := [];
    var j := 0;
    while j < |grupos|
      invariant 0 <= j <= |grupos|
      invariant |columns'| == |grupos|
      invariant forall q :: 0 <= q < j ==> columns'[q] == Extended(columns, a, grupos)[q]
      invariant forall q :: j <= q < |grupos| ==> columns'[q] == columns[q]
      invariant ids == GroupIdsOf(a, grupos[..j])
    {
      assert grupos[..j + 1][..j] == grupos[..j];
      if BelongsTo(a, grupos[j]) {
        columns' := columns'[j := columns'[j].(members := columns'[j].members + [a])];
        ids := ids + [grupos[j].id];
      }
      j := j + 1;
    }
    assert grupos[..j] == grupos;
  }

  /** The attorneys whose collected group ids are empty, in `abogados` order. */
  method Unplaced(abogados: seq<User>, grupos: seq<Group>, userGroups: map<Id, seq<Id>>)
    returns (free: seq<User>)
    requires forall p :: 0 <= p < |abogados| ==>
      abogados[p].id in userGroups && userGroups[abogados[p].id] == GroupIdsOf(abogados[p], grupos)
    ensures free == InitialAvailable(abogados, grupos)
  {
    free := [];
    var i := 0;
    while i < |abogados|
      invariant 0 <= i <= |abogados|
      invariant free == InitialAvailable(abogados[..i], grupos)
    {
      assert abogados[..i + 1][..i] == abogados[..i];
      if userGroups[abogados[i].id] == [] {
        free := free + [abogados[i]];
      }
      i := i + 1;
    }
    assert abogados[..i] == abogados;
  }

  // ---------------------------------------------------------------------
  // The board

  class Board {
    var available: seq<User>
    var slots: seq<Slot>
    const store: GroupsService.GroupStore

    function State(): BoardState
      reads this
    {
      BoardState(available, slots)
    }

    /** Group columns are keyed by group id. */
    ghost predicate Valid()
      reads this
    {
      forall p, q :: 0 <= p < q < |slots| ==> slots[p].groupId != slots[q].groupId
    }

    /** The board before its first initialisation: nothing shown. */
    constructor (store: GroupsService.GroupStore)
      ensures Valid() && this.store == store
      ensures available == [] && slots == []
    {
      this.store := store;
      available := [];
      slots := [];
    }

    /**
     * Rebuild both columns from the attorneys and groups: each group shows,
     * in `abogados` order, the attorneys placed in it, and "available" shows
     * the attorneys placed in none.
     */
    method Initialize(abogados: seq<User>, grupos: seq<Group>)
      requires forall p, q :: 0 <= p < q < |abogados| ==> abogados[p].id != abogados[q].id
      requires forall p, q :: 0 <= p < q < |grupos| ==> grupos[p].id != grupos[q].id
      modifies this
      ensures Valid()
      ensures slots == InitialSlots(abogados, grupos)
      ensures available == InitialAvailable(abogados, grupos)
    {
      var columns := EmptyColumns(grupos);
      var userGroups: map<Id, seq<Id>> := map[];
      var i := 0;
      while i < |abogados|
        invariant 0 <= i <= |abogados|
        invariant columns == InitialSlots(abogados[..i], grupos)
        invariant forall p :: 0 <= p < i ==>
          abogados[p].id in userGroups && userGroups[abogados[p].id] == GroupIdsOf(abogados[p], grupos)
      {
        var a := abogados[i];
        assert abogados[..i + 1] == abogados[..i] + [a];
        InitialSlotsSnoc(abogados[..i], a, grupos);
        var ids;
        columns, ids := PlaceAttorney(a, grupos, columns);
        assert forall p :: 0 <= p < i ==> abogados[p].id != a.id;
        userGroups := userGroups[a.id := ids];
        i := i + 1;
      }
      assert abogados[..i] == abogados;
      assert forall q :: 0 <= q < |columns| ==> columns[q].groupId == grupos[q].id;
      var free := Unplaced(abogados, grupos, userGroups);
      slots := columns;
      available := free;
    }

    /** `findUserById`: search "available", then each group in board order. */
    method FindUserById(uid: Id) returns (r: Option<User>)
      ensures r == FindUser(State(), uid)
      ensures r.Some? ==> r.value.id == uid
    {
      if HasId(available, uid) {
        return FindIn(available, uid);
      }
      var j := 0;
      while j < |slots|
        invariant 0 <= j <= |slots|
        invariant forall q :: 0 <= q < j ==> !HasId(slots[q].members, uid)
      {
        var u := FindIn(slots[j].members, uid);
        if u.Some? {
          return u;
        }
        j := j + 1;
      }
      r := None;
    }

    /**
     * `handleDragEnd`: the card `uid` was dropped on `over`. The store's
     * answers are `removeFails` and `addFails`; an inserted membership row
     * gets id `rowId` and time `now`.
     */
    method HandleDragEnd(uid: Id, over: Option<DropTarget>, rowId: Id, now: Timestamp,
                         removeFails: bool, addFails: bool)
      requires Valid()
      requires KnownTarget(State(), over)
      modifies this, store
      ensures Valid()
      ensures Dropped(old(State()), old(store.groupMembers), State(), store.groupMembers,
                      uid, over, rowId, now, removeFails, addFails)
      ensures store.caseTypeGroups == old(store.caseTypeGroups)
    {
      if over.None? {
        return;
      }
      var user := FindUserById(uid);
      if user.None? {
        return;
      }
      match over.value {
        case AvailableZone =>
          DropOnAvailable(uid, user.value, rowId, now, removeFails, addFails);
        case GroupZone(gid) =>
          if HasId(available, uid) {
            JoinGroup(uid, gid, user.value, rowId, now, removeFails, addFails);
          } else {
            TransferCard(uid, gid, user.value, rowId, now, removeFails, addFails);
          }
      }
    }

    /** The "available" branch: remove the card from the first group that shows it. */
    method DropOnAvailable(uid: Id, user: User, rowId: Id, now: Timestamp, removeFails: bool, addFails: bool)
      requires Valid()
      requires FindUser(State(), uid) == Some(user)
      modifies this, store
      ensures Valid()
      ensures Dropped(old(State()), old(store.groupMembers), State(), store.groupMembers,
                      uid, Some(AvailableZone), rowId, now, removeFails, addFails)
      ensures store.caseTypeGroups == old(store.caseTypeGroups)
    {
      var j := 0;
      while j < |slots| && !HasId(slots[j].members, uid)
        invariant 0 <= j <= |slots|
        invariant forall q :: 0 <= q < j ==> !HasId(slots[q].members, uid)
      {
        j := j + 1;
      }
      if j == |slots| {
        assert FirstHolder(slots, uid).None?;
        return;
      }
      FirstHolderIs(slots, uid, j);
      assert PlanDrop(State(), uid, Some(AvailableZone)) == Release(j);
      ReleaseFrom(uid, j, user, removeFails);
    }

    /** Remove the card's membership in column `j` and, if that succeeds, move the card to "available". */
    method ReleaseFrom(uid: Id, j: nat, user: User, removeFails: bool)
      requires Valid()
      requires j < |slots| && user.id == uid
      modifies this, store
      ensures Valid()
      ensures State() == After(old(State()), Release(j), user, removeFails, false)
      ensures store.groupMembers == if removeFails then old(store.groupMembers)
        else GroupsService.WithoutMember(old(store.groupMembers), old(slots)[j].groupId, uid)
      ensures store.caseTypeGroups == old(store.caseTypeGroups)
    {
      ghost var s0 := State();
      var r := store.RemoveUserFromGroup(slots[j].groupId, uid, removeFails);
      if r == Err {
        return;
      }
      var moved := slots[j := DropSlot(slots[j], uid)];
      assert BoardState(available + [user], moved) == After(s0, Release(j), user, false, false);
      assert forall q :: 0 <= q < |moved| ==> moved[q].groupId == slots[q].groupId;
      slots := moved;
      available := available + [user];
    }

    /** A card from "available" dropped on group `gid`. */
    method JoinGroup(uid: Id, gid: Id, user: User, rowId: Id, now: Timestamp, removeFails: bool, addFails: bool)
      requires Valid()
      requires KnownTarget(State(), Some(GroupZone(gid)))
      requires FindUser(State(), uid) == Some(user) && HasId(available, uid)
      modifies this, store
      ensures Valid()
      ensures Dropped(old(State()), old(store.groupMembers), State(), store.groupMembers,
                      uid, Some(GroupZone(gid)), rowId, now, removeFails, addFails)
      ensures store.caseTypeGroups == old(store.caseTypeGroups)
    {
      ghost var s0 := State();
      var t := SlotIndex(slots, gid).value;
      assert PlanDrop(s0, uid, Some(GroupZone(gid))) == Join(t);
      var r := store.AddUserToGroup(gid, uid, rowId, now, addFails);
      if r == Err {
        return;
      }
      var moved := slots[t := AddToSlot(slots[t], user)];
      assert BoardState(WithoutId(available, uid), moved) == After(s0, Join(t), user, removeFails, false);
      assert forall q :: 0 <= q < |moved| ==> moved[q].groupId == slots[q].groupId;
      available := WithoutId(available, uid);
      slots := moved;
    }

    /** A grouped card dropped on group `gid`: move it from the first group that shows it. */
    method TransferCard(uid: Id, gid: Id, user: User, rowId: Id, now: Timestamp, removeFails: bool, addFails: bool)
      requires Valid()
      requires KnownTarget(State(), Some(GroupZone(gid)))
      requires FindUser(State(), uid) == Some(user) && !HasId(available, uid)
      modifies this, store
      ensures Valid()
      ensures Dropped(old(State()), old(store.groupMembers), State(), store.groupMembers,
                      uid, Some(GroupZone(gid)), rowId, now, removeFails, addFails)
      ensures store.caseTypeGroups == old(store.caseTypeGroups)
    {
      // the walk stops at the first group showing the card, which exists
      var j := 0;
      while j < |slots| && !HasId(slots[j].members, uid)
        invariant 0 <= j <= |slots|
        invariant forall q :: 0 <= q < j ==> !HasId(slots[q].members, uid)
      {
        j := j + 1;
      }
      assert j < |slots| by {
        var h := FirstHolder(slots, uid).value;
        assert HasId(slots[h].members, uid);
      }
      FirstHolderIs(slots, uid, j);
      if slots[j].groupId == gid {
        assert PlanDrop(State(), uid, Some(GroupZone(gid))) == Ignore;
        return;
      }
      var t := SlotIndex(slots, gid).value;
      assert PlanDrop(State(), uid, Some(GroupZone(gid))) == Transfer(j, t);
      MoveBetween(uid, j, t, user, rowId, now, removeFails, addFails);
    }

    /** Remove the card's membership in column `j`, then add it to column `t`; update the board only if both succeed. */
    method MoveBetween(uid: Id, j: nat, t: nat, user: User, rowId: Id, now: Timestamp, removeFails: bool, addFails: bool)
      requires Valid()
      requires j < |slots| && t < |slots| && user.id == uid
      modifies this, store
      ensures Valid()
      ensures State() == After(old(State()), Transfer(j, t), user, removeFails, addFails)
      ensures store.groupMembers ==
        StoreAfter(old(store.groupMembers), old(State()), Transfer(j, t), uid, rowId, now, removeFails, addFails)
      ensures store.caseTypeGroups == old(store.caseTypeGroups)
    {
      ghost var s0 := State();
      var r := store.RemoveUserFromGroup(slots[j].groupId, uid, removeFails);
      if r == Err {
        return;
      }
      r := store.AddUserToGroup(slots[t].groupId, uid, rowId, now, addFails);
      if r == Err {
        return;
      }
      var moved := slots[j := DropSlot(slots[j], uid)][t := AddToSlot(slots[t], user)];
      assert BoardState(available, moved) == After(s0, Transfer(j, t), user, false, false);
      assert forall q :: 0 <= q < |moved| ==> moved[q].groupId == slots[q].groupId;
      slots := moved;
    }
  }
}

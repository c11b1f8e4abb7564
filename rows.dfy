/**
 * Row shapes of the relational store (the `cases`, `case_type_groups` and
 * `group_members` tables) and the application's User and Group records.
 * Columns typed `T | null` in the store become `Option<T>`; identifiers and
 * ISO timestamps are opaque strings supplied from outside.
 */
module Rows {

  type Id = string

  /** An ISO-8601 timestamp produced by the caller's clock; never interpreted. */
  type Timestamp = string

  datatype Option<T> = None | Some(value: T)

  /** Success or failure of one call into the store. */
  datatype Outcome = Ok | Err

  /** A single-row answer: the row, or the error `.single()` raises. */
  datatype Answer<T> = Found(row: T) | Failed

  /** JavaScript truthiness of a `boolean | null | undefined` column. */
  predicate Truthy(b: Option<bool>) {
    b == Some(true)
  }

  /** JavaScript truthiness of an optional id: present and not the empty string. */
  predicate Present(d: Option<Id>) {
    d.Some? && d.value != ""
  }

  /** A row of `case_type_groups`: the association of a group with a case type. */
  datatype CaseTypeGroupRow = CaseTypeGroupRow(
    id: Id,
    caseTypeId: Id,
    groupId: Id,
    defensoria: Id,
    isActive: Option<bool>)

  /** A row of `group_members`. */
  datatype GroupMemberRow = GroupMemberRow(
    id: Id,
    groupId: Id,
    userId: Id,
    joinedAt: Timestamp)

  /** A row of `cases` (an expediente). */
  datatype CaseRow = CaseRow(
    id: Id,
    caseNumber: string,
    caseTypeId: Option<Id>,
    defensoria: Id,
    assignedToId: Option<Id>,
    assignedAt: Option<Timestamp>,
    isTaken: Option<bool>,
    takenAt: Option<Timestamp>,
    createdAt: Timestamp)

  datatype Role = Administrador | Defensor | Mostrador | Abogado

  /** The application's user record; optional fields are `Option`. */
  datatype User = User(
    id: Id,
    email: string,
    name: string,
    role: Role,
    defensoria: Option<Id>,
    groups: Option<seq<string>>,
    active: bool,
    onLeave: Option<bool>,
    leaveEndDate: Option<Timestamp>)

  /** The application's group record, with the ids of its members. */
  datatype Group = Group(
    id: Id,
    name: string,
    caseTypeId: Id,
    isActive: bool,
    defensoria: Id,
    members: seq<Id>)

  /** `users.some(u => u.id === uid)`. */
  predicate HasId(users: seq<User>, uid: Id) {
    exists k :: 0 <= k < |users| && users[k].id == uid
  }

  /** `users.find(u => u.id === uid)`: the first user with that id. */
  function FindIn(users: seq<User>, uid: Id): (r: Option<User>)
    ensures r.None? <==> !HasId(users, uid)
    ensures r.Some? ==> r.value in users && r.value.id == uid
    ensures r.Some? ==> exists k :: (0 <= k < |users| && users[k] == r.value
      && forall j :: 0 <= j < k ==> users[j].id != uid)
  {
    if users == [] then None
    else if users[0].id == uid then Some(users[0])
    else
      var rest := FindIn(users[1..], uid);
      assert forall k :: 1 <= k < |users| ==> users[k] == users[1..][k - 1];
      if rest.Some? then
        var k :| 0 <= k < |users[1..]| && users[1..][k] == rest.value
          && forall j :: 0 <= j < k ==> users[1..][j].id != uid;
        assert users[k + 1] == rest.value;
        rest
      else rest
  }
}

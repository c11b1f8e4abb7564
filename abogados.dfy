/**
 * The attorneys page: the status shown for each attorney, which actions
 * are offered, the availability update each action asks for, the record
 * a new attorney is created with, and the groups column.
 */
module Abogados {
  import opened Rows
  import Expedientes

  datatype Status = Inactivo | Ausente | Disponible

  /** The "Estado" cell: inactive first, regardless of leave. */
  function StatusOf(a: User): Status {
    if !a.active then Inactivo else if Truthy(a.onLeave) then Ausente else Disponible
  }

  /** Shown as available exactly when the attorney is a reassignment candidate. */
  lemma DisponibleIffEligible(a: User)
    ensures StatusOf(a) == Disponible <==> Expedientes.Eligible(a)
    ensures StatusOf(a) == Inactivo <==> !a.active
    ensures StatusOf(a) == Ausente <==> a.active && Truthy(a.onLeave)
  {
  }

  /** The availability button: mark an absent attorney available, or open the leave dialog. */
  datatype Action = MarkAvailable | OpenLeaveDialog

  /** The row's actions appear only for active attorneys. */
  function ActionFor(a: User): (r: Option<Action>)
    ensures r.Some? <==> a.active
    ensures r == Some(MarkAvailable) <==> StatusOf(a) == Ausente
    ensures r == Some(OpenLeaveDialog) <==> StatusOf(a) == Disponible
  {
    if !a.active then None else if Truthy(a.onLeave) then Some(MarkAvailable) else Some(OpenLeaveDialog)
  }

  /** One `updateUserAvailability(userId, isOnLeave, leaveEndDate)` call. */
  datatype AvailabilityCall = AvailabilityCall(userId: Id, onLeave: bool, leaveEndDate: Option<Timestamp>)

  /** `toggleAvailability`: sends the negation of the current leave flag and no end date. */
  function ToggleCall(a: User): AvailabilityCall {
    AvailabilityCall(a.id, !Truthy(a.onLeave), None)
  }

  /** `handleLeaveSubmit`: with an attorney selected, a leave with the chosen date, or none when the field is blank. */
  function LeaveCall(selected: Option<User>, leaveEndDate: string): (r: Option<AvailabilityCall>)
    ensures r.Some? <==> selected.Some?
    ensures r.Some? ==> r.value.userId == selected.value.id && r.value.onLeave
    ensures r.Some? ==> (r.value.leaveEndDate.None? <==> leaveEndDate == "")
  {
    if selected.None? then None
    else Some(AvailabilityCall(selected.value.id, true, if leaveEndDate == "" then None else Some(leaveEndDate)))
  }

  /** The attorney record once an availability update for it is stored. */
  function Updated(a: User, c: AvailabilityCall): (r: User)
    requires c.userId == a.id
  {
    a.(onLeave := Some(c.onLeave), leaveEndDate := c.leaveEndDate)
  }

  /** The call the availability button makes for an attorney, with the leave dialog's date field. */
  function PressAvailability(a: User, leaveEndDate: string): Option<AvailabilityCall> {
    match ActionFor(a)
    case None => None
    case Some(MarkAvailable) => Some(ToggleCall(a))
    case Some(OpenLeaveDialog) => LeaveCall(Some(a), leaveEndDate)
  }

  /**
   * The button flips the shown status between "Ausente" and "Disponible",
   * clearing the end date on return; an inactive attorney has no button.
   */
  lemma PressFlipsStatus(a: User, leaveEndDate: string)
    ensures PressAvailability(a, leaveEndDate).None? <==> StatusOf(a) == Inactivo
    ensures StatusOf(a) == Ausente ==>
      var c := PressAvailability(a, leaveEndDate).value;
      !c.onLeave && c.leaveEndDate.None? && StatusOf(Updated(a, c)) == Disponible
    ensures StatusOf(a) == Disponible ==>
      var c := PressAvailability(a, leaveEndDate).value;
      c.onLeave && StatusOf(Updated(a, c)) == Ausente
      && (c.leaveEndDate == if leaveEndDate == "" then None else Some(leaveEndDate))
  {
  }

  /** Pressing twice (leave, then return) brings an available attorney back to available with no end date. */
  lemma LeaveThenReturn(a: User, leaveEndDate: string)
    requires StatusOf(a) == Disponible
    ensures var a1 := Updated(a, PressAvailability(a, leaveEndDate).value);
      var a2 := Updated(a1, PressAvailability(a1, leaveEndDate).value);
      StatusOf(a2) == Disponible && a2.leaveEndDate.None? && a2.onLeave == Some(false)
  {
    PressFlipsStatus(a, leaveEndDate);
    var a1 := Updated(a, PressAvailability(a, leaveEndDate).value);
    PressFlipsStatus(a1, leaveEndDate);
  }

  /** The creation form's fields. */
  datatype Form = Form(name: string, email: string, password: string)

  /** The record `handleSubmit` sends: the form, role `abogado`, the current defensoria, active. */
  datatype NewUser = NewUser(name: string, email: string, password: string, role: Role, defensoria: Id, active: bool)

  /** `handleSubmit`'s payload; nothing is sent without a current defensoria. */
  function NewAbogado(form: Form, defensoria: Option<Id>): (r: Option<NewUser>)
    ensures r.Some? <==> Present(defensoria)
    ensures r.Some? ==> (r.value.active && r.value.role == Abogado && r.value.defensoria == defensoria.value
      && r.value.name == form.name && r.value.email == form.email)
  {
    if !Present(defensoria) then None
    else Some(NewUser(form.name, form.email, form.password, Abogado, defensoria.value, true))
  }

  /** The user record the payload describes, under the id the store assigns. */
  function AsUser(n: NewUser, id: Id): User {
    User(id, n.email, n.name, n.role, Some(n.defensoria), None, n.active, None, None)
  }

  /** A newly created attorney shows as available and is offered for reassignment. */
  lemma NewAbogadoIsAvailable(form: Form, defensoria: Id, id: Id)
    requires defensoria != ""
    ensures var u := AsUser(NewAbogado(form, Some(defensoria)).value, id);
      StatusOf(u) == Disponible && Expedientes.Eligible(u) && ActionFor(u) == Some(OpenLeaveDialog)
  {
  }

  const NoGroups: string := "Sin grupos"

  /** `Array.prototype.join(sep)`. */
  function Join(parts: seq<string>, sep: string): string
    decreases |parts|
  {
    if parts == [] then "" else if |parts| == 1 then parts[0] else parts[0] + sep + Join(parts[1..], sep)
  }

  /** With a non-empty separator, a join is empty only for no parts or a single empty part. */
  lemma {:induction false} JoinEmptyIff(parts: seq<string>, sep: string)
    requires sep != ""
    ensures Join(parts, sep) == "" <==> parts == [] || parts == [""]
  {
    if |parts| > 1 {
      assert |Join(parts, sep)| >= |sep|;
    }
  }

  /** The "Grupos" cell: `groups?.join(', ') || 'Sin grupos'`. */
  function GroupsLabel(a: User): string {
    var joined := if a.groups.Some? then Join(a.groups.value, ", ") else "";
    if joined == "" then NoGroups else joined
  }

  /** "Sin grupos" shows for a missing or empty list and a list of one empty name; otherwise the names joined by ", ". */
  lemma GroupsLabelCases(a: User)
    ensures a.groups.None? || a.groups.value == [] || a.groups.value == [""] ==> GroupsLabel(a) == NoGroups
    ensures a.groups.Some? && a.groups.value != [] && a.groups.value != [""] ==>
      GroupsLabel(a) == Join(a.groups.value, ", ")
  {
    if a.groups.Some? {
      JoinEmptyIff(a.groups.value, ", ");
    }
  }
}

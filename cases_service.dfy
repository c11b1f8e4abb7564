/**
 * The `cases` table as an in-memory store, with the two guarded updates that
 * move a case through its lifecycle: unassigned -> assigned (any number of
 * times while not taken) -> taken.
 *
 * `assignCase` and `takeCase` are `update(...).eq(...).eq(...).select().single()`:
 * one statement that updates every row its filters select, answered with
 * that row; `.single()` raises unless exactly one row was selected, and the
 * failed statement leaves the table unchanged.
 */
module CasesService {
  import opened Rows

  // ---------------------------------------------------------------------
  // The two guarded updates, row by row

  /** `.eq('id', id).eq('is_taken', false)`: a null `is_taken` does not match. */
  predicate Reassignable(row: CaseRow, id: Id) {
    row.id == id && row.isTaken == Some(false)
  }

  /** `.eq('id', id).eq('assigned_to_id', u)`. */
  predicate TakeableBy(row: CaseRow, id: Id, u: Id) {
    row.id == id && row.assignedToId == Some(u)
  }

  function Assigned(row: CaseRow, u: Id, now: Timestamp): CaseRow {
    row.(assignedToId := Some(u), assignedAt := Some(now))
  }

  function Taken(row: CaseRow, now: Timestamp): CaseRow {
    row.(isTaken := Some(true), takenAt := Some(now))
  }

  /** The commands that change a case; `now` is the caller's clock reading. */
  datatype Command =
    | AssignCmd(caseId: Id, userId: Id, now: Timestamp)
    | TakeCmd(caseId: Id, userId: Id, now: Timestamp)

  predicate Selected(row: CaseRow, c: Command) {
    match c
    case AssignCmd(id, _, _) => Reassignable(row, id)
    case TakeCmd(id, u, _) => TakeableBy(row, id, u)
  }

  function Updated(row: CaseRow, c: Command): CaseRow {
    match c
    case AssignCmd(_, u, now) => Assigned(row, u, now)
    case TakeCmd(_, _, now) => Taken(row, now)
  }

  /** How many rows the command's filters select. */
  function SelectedCount(rows: seq<CaseRow>, c: Command): (n: nat)
    ensures n <= |rows|
  {
    if rows == [] then 0
    else SelectedCount(rows[..|rows| - 1], c) + (if Selected(rows[|rows| - 1], c) then 1 else 0)
  }

  /** The table after the command: updated when exactly one row is selected, else unchanged. */
  function Apply(rows: seq<CaseRow>, c: Command): (r: seq<CaseRow>)
    ensures |r| == |rows|
    ensures SelectedCount(rows, c) != 1 ==> r == rows
    ensures SelectedCount(rows, c) == 1 ==> forall k :: 0 <= k < |rows| ==>
      r[k] == if Selected(rows[k], c) then Updated(rows[k], c) else rows[k]
  {
    if SelectedCount(rows, c) == 1 then
      seq(|rows|, k requires 0 <= k < |rows| => if Selected(rows[k], c) then Updated(rows[k], c) else rows[k])
    else rows
  }

  /** The table after a sequence of commands, in order. */
  function Run(rows: seq<CaseRow>, cs: seq<Command>): (r: seq<CaseRow>)
    decreases |cs|
  {
    if cs == [] then rows else Run(Apply(rows, cs[0]), cs[1..])
  }

  /** Case ids are the table's primary key. */
  predicate UniqueIds(rows: seq<CaseRow>) {
    forall i, j :: 0 <= i < j < |rows| ==> rows[i].id != rows[j].id
  }

  // ---------------------------------------------------------------------
  // Filters of the read operations

  /** The rows `getAssignedCases(u)` returns, in table order. */
  function AssignedTo(rows: seq<CaseRow>, u: Id): (r: seq<CaseRow>)
    ensures |r| <= |rows|
    ensures forall x :: x in r <==> x in rows && x.assignedToId == Some(u)
  {
    if rows == [] then []
    else
      var last := rows[|rows| - 1];
      AssignedTo(rows[..|rows| - 1], u) + (if last.assignedToId == Some(u) then [last] else [])
  }

  /** The rows `getCases(d)` returns, in table order. */
  function OfDefensoria(rows: seq<CaseRow>, d: Id): (r: seq<CaseRow>)
    ensures |r| <= |rows|
    ensures forall x :: x in r <==> x in rows && x.defensoria == d
  {
    if rows == [] then []
    else
      var last := rows[|rows| - 1];
      OfDefensoria(rows[..|rows| - 1], d) + (if last.defensoria == d then [last] else [])
  }

  // ---------------------------------------------------------------------
  // Properties of the lifecycle

  /** With unique ids, at most one row matches a command, and one does exactly when some row has the id and passes the guard. */
  lemma {:induction false} SelectedCountUnique(rows: seq<CaseRow>, c: Command)
    requires UniqueIds(rows)
    ensures SelectedCount(rows, c) <= 1
    ensures SelectedCount(rows, c) == 1 <==> exists k :: 0 <= k < |rows| && Selected(rows[k], c)
  {
    if rows != [] {
      var init := rows[..|rows| - 1];
      assert UniqueIds(init);
      SelectedCountUnique(init, c);
      if Selected(rows[|rows| - 1], c) {
        assert forall k :: 0 <= k < |init| ==> init[k].id != rows[|rows| - 1].id;
        NoneSelectedCountsZero(init, c);
      }
      if exists k :: 0 <= k < |rows| && Selected(rows[k], c) {
        var k :| 0 <= k < |rows| && Selected(rows[k], c);
        if k < |rows| - 1 {
          assert Selected(init[k], c);
        }
      }
    }
  }

  lemma {:induction false} NoneSelectedCountsZero(rows: seq<CaseRow>, c: Command)
    requires forall k :: 0 <= k < |rows| ==> !Selected(rows[k], c)
    ensures SelectedCount(rows, c) == 0
  {
    if rows != [] {
      NoneSelectedCountsZero(rows[..|rows| - 1], c);
    }
  }

  /** Reassigning a case that is not taken changes its assignee and assignment time and nothing else. */
  lemma AssignAccepted(rows: seq<CaseRow>, k: nat, u: Id, now: Timestamp)
    requires UniqueIds(rows)
    requires k < |rows| && rows[k].isTaken == Some(false)
    ensures Apply(rows, AssignCmd(rows[k].id, u, now)) == rows[k := Assigned(rows[k], u, now)]
  {
    var c := AssignCmd(rows[k].id, u, now);
    SelectedCountUnique(rows, c);
    var r := Apply(rows, c);
    forall j | 0 <= j < |rows| ensures r[j] == rows[k := Assigned(rows[k], u, now)][j] {
      if j != k {
        assert rows[j].id != rows[k].id;
      }
    }
  }

  /** The assignee taking a case marks it taken and stamps `taken_at`, and changes nothing else. */
  lemma TakeAccepted(rows: seq<CaseRow>, k: nat, now: Timestamp)
    requires UniqueIds(rows)
    requires k < |rows| && rows[k].assignedToId.Some?
    ensures Apply(rows, TakeCmd(rows[k].id, rows[k].assignedToId.value, now)) == rows[k := Taken(rows[k], now)]
  {
    var c := TakeCmd(rows[k].id, rows[k].assignedToId.value, now);
    SelectedCountUnique(rows, c);
    var r := Apply(rows, c);
    forall j | 0 <= j < |rows| ensures r[j] == rows[k := Taken(rows[k], now)][j] {
      if j != k {
        assert rows[j].id != rows[k].id;
      }
    }
  }

  /** A case whose `is_taken` is true, or null, cannot be reassigned: the table is unchanged. */
  lemma {:induction false} AssignRejectsUnlessNotTaken(rows: seq<CaseRow>, k: nat, u: Id, now: Timestamp)
    requires UniqueIds(rows)
    requires k < |rows| && rows[k].isTaken != Some(false)
    ensures Apply(rows, AssignCmd(rows[k].id, u, now)) == rows
  {
    var c := AssignCmd(rows[k].id, u, now);
    forall j | 0 <= j < |rows| ensures !Selected(rows[j], c) {
      if j != k {
        assert rows[j].id != rows[k].id;
      }
    }
    NoneSelectedCountsZero(rows, c);
  }

  /** Only the assignee can take a case; anyone else leaves the table unchanged. */
  lemma {:induction false} TakeRejectsOthers(rows: seq<CaseRow>, k: nat, u: Id, now: Timestamp)
    requires UniqueIds(rows)
    requires k < |rows| && rows[k].assignedToId != Some(u)
    ensures Apply(rows, TakeCmd(rows[k].id, u, now)) == rows
  {
    var c := TakeCmd(rows[k].id, u, now);
    forall j | 0 <= j < |rows| ensures !Selected(rows[j], c) {
      if j != k {
        assert rows[j].id != rows[k].id;
      }
    }
    NoneSelectedCountsZero(rows, c);
  }

  /** `takeCase` does not look at `is_taken`: the assignee may take a taken case again, re-stamping `taken_at`. */
  lemma RetakeRestamps(rows: seq<CaseRow>, k: nat, now: Timestamp)
    requires UniqueIds(rows)
    requires k < |rows| && rows[k].isTaken == Some(true) && rows[k].assignedToId.Some?
    ensures Apply(rows, TakeCmd(rows[k].id, rows[k].assignedToId.value, now))[k]
      == rows[k].(takenAt := Some(now))
  {
    TakeAccepted(rows, k, now);
  }

  /** Commands keep the ids, so they keep the primary key. */
  lemma ApplyKeepsIds(rows: seq<CaseRow>, c: Command)
    ensures forall k :: 0 <= k < |rows| ==> Apply(rows, c)[k].id == rows[k].id
  {
  }

  /**
   * Taken is absorbing: once a case is taken, no sequence of assign and take
   * commands makes it untaken or changes its assignee or assignment time.
   */
  lemma {:induction false} TakenIsAbsorbing(rows: seq<CaseRow>, cs: seq<Command>, k: nat)
    requires UniqueIds(rows)
    requires k < |rows| && rows[k].isTaken == Some(true)
    ensures |Run(rows, cs)| == |rows|
    ensures Run(rows, cs)[k].isTaken == Some(true)
    ensures Run(rows, cs)[k].assignedToId == rows[k].assignedToId
    ensures Run(rows, cs)[k].assignedAt == rows[k].assignedAt
    ensures Run(rows, cs)[k].id == rows[k].id
    decreases |cs|
  {
    if cs != [] {
      var next := Apply(rows, cs[0]);
      ApplyKeepsIds(rows, cs[0]);
      assert UniqueIds(next);
      TakenIsAbsorbing(next, cs[1..], k);
    }
  }

  // ---------------------------------------------------------------------
  // The store

  class CaseStore {
    var cases: seq<CaseRow>

    ghost predicate Valid()
      reads this
    {
      UniqueIds(cases)
    }

    constructor (rows: seq<CaseRow>)
      requires UniqueIds(rows)
      ensures Valid() && cases == rows
    {
      cases := rows;
    }

    /** One `update(...).select().single()` statement. */
    method UpdateSingle(c: Command) returns (r: Answer<CaseRow>)
      requires Valid()
      modifies this
      ensures Valid()
      ensures cases == Apply(old(cases), c)
      ensures r.Found? <==> SelectedCount(old(cases), c) == 1
      ensures r.Found? ==> exists k :: 0 <= k < |cases| && Selected(old(cases)[k], c) && r.row == cases[k]
    {
      var n, at := CountSelected(c);
      if n != 1 {
        return Failed;
      }
      var updated := UpdatedRows(c);
      ApplyKeepsIds(cases, c);
      assert updated == Apply(cases, c);
      cases := updated;
      r := Found(cases[at]);
    }

    /** How many rows the statement's filters select, and the last of them. */
    method CountSelected(c: Command) returns (n: nat, at: nat)
      ensures n == SelectedCount(cases, c)
      ensures n > 0 ==> at < |cases| && Selected(cases[at], c)
    {
      n, at := 0, 0;
      var i := 0;
      while i < |cases|
        invariant 0 <= i <= |cases|
        invariant n == SelectedCount(cases[..i], c)
        invariant n > 0 ==> at < i && Selected(cases[at], c)
      {
        assert cases[..i + 1][..i] == cases[..i];
        if Selected(cases[i], c) {
          n, at := n + 1, i;
        }
        i := i + 1;
      }
      assert cases[..i] == cases;
    }

    /** The rows with the statement's update applied to every selected row. */
    method UpdatedRows(c: Command) returns (updated: seq<CaseRow>)
      ensures |updated| == |cases|
      ensures forall k :: 0 <= k < |cases| ==>
        updated[k] == if Selected(cases[k], c) then Updated(cases[k], c) else cases[k]
    {
      updated := [];
      var i := 0;
      while i < |cases|
        invariant 0 <= i <= |cases|
        invariant |updated| == i
        invariant forall k :: 0 <= k < i ==>
          updated[k] == if Selected(cases[k], c) then Updated(cases[k], c) else cases[k]
      {
        updated := updated + [if Selected(cases[i], c) then Updated(cases[i], c) else cases[i]];
        i := i + 1;
      }
    }

    /**
     * `assignCase`: reassign a case that is not taken to user `u`. `fails` is a
     * transport or server error, after which nothing is written.
     */
    method AssignCase(id: Id, u: Id, now: Timestamp, fails: bool) returns (r: Answer<CaseRow>)
      requires Valid()
      modifies this
      ensures Valid()
      ensures cases == if fails then old(cases) else Apply(old(cases), AssignCmd(id, u, now))
      ensures r.Found? <==> !fails && exists k :: 0 <= k < |old(cases)| && Reassignable(old(cases)[k], id)
      ensures r.Found? ==> exists k :: (0 <= k < |cases| && Reassignable(old(cases)[k], id)
        && r.row == cases[k] && r.row == Assigned(old(cases)[k], u, now))
    {
      if fails {
        return Failed;
      }
      SelectedCountUnique(cases, AssignCmd(id, u, now));
      r := UpdateSingle(AssignCmd(id, u, now));
    }

    /** `takeCase`: the assignee `u` takes the case; `fails` as for `AssignCase`. */
    method TakeCase(id: Id, u: Id, now: Timestamp, fails: bool) returns (r: Answer<CaseRow>)
      requires Valid()
      modifies this
      ensures Valid()
      ensures cases == if fails then old(cases) else Apply(old(cases), TakeCmd(id, u, now))
      ensures r.Found? <==> !fails && exists k :: 0 <= k < |old(cases)| && TakeableBy(old(cases)[k], id, u)
      ensures r.Found? ==> exists k :: (0 <= k < |cases| && TakeableBy(old(cases)[k], id, u)
        && r.row == cases[k] && r.row == Taken(old(cases)[k], now))
    {
      if fails {
        return Failed;
      }
      SelectedCountUnique(cases, TakeCmd(id, u, now));
      r := UpdateSingle(TakeCmd(id, u, now));
    }

    /** `createCase`: insert one row under a fresh id chosen by the store. */
    method CreateCase(row: CaseRow, newId: Id) returns (r: CaseRow)
      requires Valid()
      requires forall k :: 0 <= k < |cases| ==> cases[k].id != newId
      modifies this
      ensures Valid()
      ensures r == row.(id := newId)
      ensures cases == old(cases) + [r]
    {
      r := row.(id := newId);
      cases := cases + [r];
    }

    /** `getAssignedCases(u)`: every case assigned to `u`, taken or not. */
    method GetAssignedCases(u: Id) returns (r: seq<CaseRow>)
      ensures forall x :: x in r <==> x in cases && x.assignedToId == Some(u)
      ensures r == AssignedTo(cases, u)
    {
      r := [];
      var i := 0;
      while i < |cases|
        invariant 0 <= i <= |cases|
        invariant r == AssignedTo(cases[..i], u)
      {
        assert cases[..i + 1][..i] == cases[..i];
        if cases[i].assignedToId == Some(u) {
          r := r + [cases[i]];
        }
        i := i + 1;
      }
      assert cases[..i] == cases;
    }

    /** `getCases(d)`: every case of defensoria `d`. */
    method GetCases(d: Id) returns (r: seq<CaseRow>)
      ensures forall x :: x in r <==> x in cases && x.defensoria == d
      ensures r == OfDefensoria(cases, d)
    {
      r := [];
      var i := 0;
      while i < |cases|
        invariant 0 <= i <= |cases|
        invariant r == OfDefensoria(cases[..i], d)
      {
        assert cases[..i + 1][..i] == cases[..i];
        if cases[i].defensoria == d {
          r := r + [cases[i]];
        }
        i := i + 1;
      }
      assert cases[..i] == cases;
    }
  }
}

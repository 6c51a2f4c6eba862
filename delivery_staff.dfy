/**
 * Delivery staff: couriers with two unique columns, the email and the
 * employee id, checked in that order by create and by update. The list
 * handler filters on is_active only.
 */
module DeliveryStaff {
  import opened Common
  import Store

  datatype Staff = Staff(
    id: int,
    name: string,
    email: string,
    phone: string,
    employeeId: string,
    isActive: bool,
    createdAt: Time,
    updatedAt: Time)

  datatype StaffInput = StaffInput(
    name: string,
    email: string,
    phone: string,
    employeeId: string,
    isActive: Field<bool>)

  datatype StaffPatch = StaffPatch(
    name: Field<string>,
    email: Field<string>,
    phone: Field<string>,
    employeeId: Field<string>,
    isActive: Field<bool>)

  const EmptyPatch := StaffPatch(Unset, Unset, Unset, Unset, Unset)

  const EmailTaken := "Email already registered"
  const EmployeeIdTaken := "Employee ID already exists"

  /** The two unique columns. */
  function EmailOf(s: Staff): string
  {
    s.email
  }

  function EmployeeIdOf(s: Staff): string
  {
    s.employeeId
  }

  ghost predicate Keyed(rows: map<int, Staff>)
  {
    forall id :: id in rows ==> rows[id].id == id
  }

  /** The row stored for a create body. */
  function NewStaff(input: StaffInput, id: int, now: Time): (s: Staff)
    ensures s.id == id && s.email == input.email && s.employeeId == input.employeeId
    ensures s.createdAt == now && s.updatedAt == now
    ensures s.isActive <==> input.isActive != Set(false)
  {
    Staff(id, input.name, input.email, input.phone, input.employeeId, Apply(input.isActive, true), now, now)
  }

  /** The row after the supplied fields are written and `updated_at` refreshed. */
  function Patched(s: Staff, p: StaffPatch, now: Time): (d: Staff)
    ensures d.id == s.id && d.createdAt == s.createdAt && d.updatedAt == now
    ensures EmailOf(d) == Apply(p.email, EmailOf(s))
    ensures EmployeeIdOf(d) == Apply(p.employeeId, EmployeeIdOf(s))
  {
    Staff(s.id, Apply(p.name, s.name), Apply(p.email, s.email), Apply(p.phone, s.phone),
          Apply(p.employeeId, s.employeeId), Apply(p.isActive, s.isActive), s.createdAt, now)
  }

  /** An empty update body changes `updated_at` and nothing else. */
  lemma EmptyPatchOnlyRefreshes(s: Staff, now: Time)
    ensures Patched(s, EmptyPatch, now) == s.(updatedAt := now)
  {
  }

  predicate Matches(s: Staff, isActive: Option<bool>)
  {
    isActive.Some? ==> s.isActive == isActive.value
  }

  function Filter(isActive: Option<bool>): Staff -> bool
  {
    s => Matches(s, isActive)
  }

  /** get_delivery_staff: matching rows only, none twice, as many as
      OFFSET/LIMIT leave of all matching rows. */
  method List(rows: map<int, Staff>, skip: nat, limit: nat, isActive: Option<bool>)
    returns (r: seq<Staff>)
    requires Keyed(rows)
    ensures |r| == PageSize(|Store.MatchingIds(rows, Filter(isActive))|, skip, limit)
    ensures forall i :: 0 <= i < |r| ==> r[i].id in rows && rows[r[i].id] == r[i] && Matches(r[i], isActive)
    ensures forall i, j :: 0 <= i < j < |r| ==> r[i].id != r[j].id
  {
    var ids := Store.Page(rows, Filter(isActive), skip, limit);
    r := Store.Rows(rows, ids);
    forall i | 0 <= i < |r|
      ensures r[i].id == ids[i] && Matches(r[i], isActive)
    {
      assert ids[i] in rows && Filter(isActive)(rows[ids[i]]);
    }
  }

  /** get_delivery_staff_by_employee_id: the courier with that employee id,
      or 404. */
  method GetByEmployeeId(rows: map<int, Staff>, employeeId: string) returns (r: Result<Staff>)
    requires Keyed(rows)
    ensures r.Ok? <==> exists id :: id in rows && rows[id].employeeId == employeeId
    ensures r.Err? ==> r.error == NotFound
    ensures r.Ok? ==> r.value.employeeId == employeeId && r.value.id in rows && rows[r.value.id] == r.value
  {
    r := Store.FindBy(rows, EmployeeIdOf, employeeId);
    if r.Ok? {
      var id :| id in rows && rows[id] == r.value;
    }
  }

  class StaffTable {
    var rows: map<int, Staff>
    var nextId: int

    ghost predicate Valid()
      reads this
    {
      && (forall id :: id in rows ==> rows[id].id == id && id < nextId)
      && Store.Unique(rows, EmailOf)
      && Store.Unique(rows, EmployeeIdOf)
    }

    constructor ()
      ensures Valid() && rows == map[] && nextId == 1
    {
      rows := map[];
      nextId := 1;
    }

    /** get_delivery_staff: the row stored under the primary key, which carries that key
        as its id, or 404. */
    function Get(id: int): (r: Result<Staff>)
      reads this
      requires Valid()
      ensures r.Ok? <==> id in rows
      ensures r.Ok? ==> r.value.id == id && r.value == rows[id]
      ensures r.Err? ==> r.error == NotFound
    {
      Store.Lookup(rows, id)
    }

    /** create_delivery_staff: 400 on a taken email, else 400 on a taken
        employee id, else insert. */
    method Create(input: StaffInput, now: Time) returns (r: Result<Staff>)
      requires Valid()
      modifies this
      ensures Valid()
      ensures Store.Held(old(rows), EmailOf, input.email) ==>
                r == Err(Conflict(EmailTaken)) && rows == old(rows) && nextId == old(nextId)
      ensures !Store.Held(old(rows), EmailOf, input.email) && Store.Held(old(rows), EmployeeIdOf, input.employeeId) ==>
                r == Err(Conflict(EmployeeIdTaken)) && rows == old(rows) && nextId == old(nextId)
      ensures !Store.Held(old(rows), EmailOf, input.email) && !Store.Held(old(rows), EmployeeIdOf, input.employeeId) ==>
                && r == Ok(NewStaff(input, old(nextId), now))
                && rows == old(rows)[old(nextId) := r.value]
                && nextId == old(nextId) + 1
    {
      var byEmail := Store.FindBy(rows, EmailOf, input.email);
      if byEmail.Ok? {
        r := Err(Conflict(EmailTaken));
        return;
      }
      var byEmployeeId := Store.FindBy(rows, EmployeeIdOf, input.employeeId);
      if byEmployeeId.Ok? {
        r := Err(Conflict(EmployeeIdTaken));
        return;
      }
      var s := NewStaff(input, nextId, now);
      Store.PutKeepsUnique(rows, EmailOf, nextId, s);
      Store.PutKeepsUnique(rows, EmployeeIdOf, nextId, s);
      rows := rows[nextId := s];
      nextId := nextId + 1;
      r := Ok(s);
    }

    /** update_delivery_staff: 404; then 400 when the supplied email is
        truthy and another courier holds it; then 400 when the supplied
        employee id is truthy and another courier holds it; then the supplied
        fields are written and `updated_at` refreshed. A supplied "" skips its
        check, so when another courier holds "" in that column the unique
        index refuses the commit. */
    method Update(id: int, p: StaffPatch, now: Time) returns (r: Result<Staff>)
      requires Valid()
      modifies this
      ensures Valid() && nextId == old(nextId)
      ensures id !in old(rows) ==> r == Err(NotFound) && rows == old(rows)
      ensures id in old(rows) && Store.UpdateConflictAsWritten(old(rows), EmailOf, id, p.email) ==>
                r == Err(Conflict(EmailTaken)) && rows == old(rows)
      ensures id in old(rows) && !Store.UpdateConflictAsWritten(old(rows), EmailOf, id, p.email)
              && Store.UpdateConflictAsWritten(old(rows), EmployeeIdOf, id, p.employeeId) ==>
                r == Err(Conflict(EmployeeIdTaken)) && rows == old(rows)
      ensures id in old(rows) && !Store.UpdateConflictAsWritten(old(rows), EmailOf, id, p.email)
              && !Store.UpdateConflictAsWritten(old(rows), EmployeeIdOf, id, p.employeeId)
              && (Store.UpdateConflict(old(rows), EmailOf, id, p.email)
                  || Store.UpdateConflict(old(rows), EmployeeIdOf, id, p.employeeId)) ==>
                r == Err(Rejected) && rows == old(rows)
      ensures id in old(rows) && !Store.UpdateConflict(old(rows), EmailOf, id, p.email)
              && !Store.UpdateConflict(old(rows), EmployeeIdOf, id, p.employeeId) ==>
                r == Ok(Patched(old(rows)[id], p, now)) && rows == old(rows)[id := r.value]
    {
      if id !in rows {
        r := Err(NotFound);
        return;
      }
      if Store.UpdateConflictAsWritten(rows, EmailOf, id, p.email) {
        r := Err(Conflict(EmailTaken));
        return;
      }
      if Store.UpdateConflictAsWritten(rows, EmployeeIdOf, id, p.employeeId) {
        r := Err(Conflict(EmployeeIdTaken));
        return;
      }
      var s := Patched(rows[id], p, now);
      Store.IndexRejectsIffConflict(rows, EmailOf, id, p.email, s);
      Store.IndexRejectsIffConflict(rows, EmployeeIdOf, id, p.employeeId, s);
      if Store.HeldByOther(rows, EmailOf, EmailOf(s), id) || Store.HeldByOther(rows, EmployeeIdOf, EmployeeIdOf(s), id) {
        r := Err(Rejected);
        return;
      }
      Store.PutKeepsUnique(rows, EmailOf, id, s);
      Store.PutKeepsUnique(rows, EmployeeIdOf, id, s);
      rows := rows[id := s];
      r := Ok(s);
    }

    /** delete_delivery_staff: remove the row, or 404. */
    method Delete(id: int) returns (r: Result<()>)
      requires Valid()
      modifies this
      ensures Valid() && nextId == old(nextId)
      ensures r.Ok? <==> id in old(rows)
      ensures r.Err? ==> r.error == NotFound
      ensures rows == old(rows) - {id}
    {
      if id !in rows {
        r := Err(NotFound);
        assert rows == rows - {id};
        return;
      }
      rows := rows - {id};
      r := Ok(());
    }
  }
}

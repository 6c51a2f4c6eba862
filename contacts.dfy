/**
 * Customers, receivers and senders: three database tables with the same
 * columns (name, unique email, optional phone and address, is_active and
 * the two timestamps) and the same handlers. `ContactTable` is one such
 * table; the customer, receiver and sender routers each own an instance.
 */
module Contacts {
  import opened Common
  import Store

  datatype Contact = Contact(
    id: int,
    name: string,
    email: string,
    phone: Option<string>,
    address: Option<string>,
    isActive: bool,
    createdAt: Time,
    updatedAt: Time)

  /** A create body: phone and address may be omitted (null); an omitted
      is_active is `Unset` and defaults to true. */
  datatype ContactInput = ContactInput(
    name: string,
    email: string,
    phone: Option<string>,
    address: Option<string>,
    isActive: Field<bool>)

  /** An update body: every column optional, `Unset` when left out. */
  datatype ContactPatch = ContactPatch(
    name: Field<string>,
    email: Field<string>,
    phone: Field<Option<string>>,
    address: Field<Option<string>>,
    isActive: Field<bool>)

  const EmptyPatch := ContactPatch(Unset, Unset, Unset, Unset, Unset)

  const EmailTaken := "Email already registered"

  /** The unique column. */
  function EmailOf(c: Contact): string
  {
    c.email
  }

  /** Every row is stored under its own id. */
  ghost predicate Keyed(rows: map<int, Contact>)
  {
    forall id :: id in rows ==> rows[id].id == id
  }

  /** The row the database stores for a create body: a fresh id, both
      timestamps from one clock reading, is_active true unless the body
      says false. */
  function NewContact(input: ContactInput, id: int, now: Time): (c: Contact)
    ensures c.id == id && c.createdAt == now && c.updatedAt == now
    ensures c.isActive <==> input.isActive != Set(false)
  {
    Contact(id, input.name, input.email, input.phone, input.address,
            Apply(input.isActive, true), now, now)
  }

  /** The row after `setattr` has run for each supplied field and
      `updated_at` has been refreshed. */
  function Patched(c: Contact, p: ContactPatch, now: Time): (d: Contact)
    ensures d.id == c.id && d.createdAt == c.createdAt && d.updatedAt == now
    ensures EmailOf(d) == Apply(p.email, EmailOf(c))
  {
    Contact(c.id, Apply(p.name, c.name), Apply(p.email, c.email),
            Apply(p.phone, c.phone), Apply(p.address, c.address),
            Apply(p.isActive, c.isActive), c.createdAt, now)
  }

  /** An update body that supplies every column, copied from d. */
  function FullPatch(d: Contact): ContactPatch
  {
    ContactPatch(Set(d.name), Set(d.email), Set(d.phone), Set(d.address), Set(d.isActive))
  }

  /** An empty update body changes `updated_at` and nothing else. */
  lemma EmptyPatchOnlyRefreshes(c: Contact, now: Time)
    ensures Patched(c, EmptyPatch, now) == c.(updatedAt := now)
  {
  }

  /** Sending the same update twice at the same instant is the same as
      sending it once. */
  lemma PatchIdempotent(c: Contact, p: ContactPatch, now: Time)
    ensures Patched(Patched(c, p, now), p, now) == Patched(c, p, now)
  {
  }

  /** A body supplying every column replaces the row, except that the id
      and `created_at` survive. */
  lemma FullPatchReplaces(c: Contact, d: Contact, now: Time)
    ensures Patched(c, FullPatch(d), now) == d.(id := c.id, createdAt := c.createdAt, updatedAt := now)
  {
  }

  /** Activating or deactivating is the update that supplies only is_active. */
  lemma ActivationIsPatch(c: Contact, active: bool, now: Time)
    ensures c.(isActive := active, updatedAt := now) == Patched(c, EmptyPatch.(isActive := Set(active)), now)
  {
  }

  /** The update guard as the routers write it, `if update.email:`, skips
      an empty email. With one sender already stored under "" (the sender
      email is a plain, non-unique string column), a second sender can be
      updated to "" and the table then holds the email twice; the corrected
      guard refuses that update. */
  lemma EmptyEmailSlipsPastAsWrittenGuard(now: Time)
    ensures var t := map[1 := Contact(1, "Ann", "", None, None, true, 0, 0),
                         2 := Contact(2, "Bob", "bob@example.com", None, None, true, 0, 0)];
            var p := EmptyPatch.(email := Set(""));
            && Store.Unique(t, EmailOf)
            && !Store.UpdateConflictAsWritten(t, EmailOf, 2, p.email)
            && !Store.Unique(t[2 := Patched(t[2], p, now)], EmailOf)
            && Store.UpdateConflict(t, EmailOf, 2, p.email)
  {
    var t := map[1 := Contact(1, "Ann", "", None, None, true, 0, 0),
                 2 := Contact(2, "Bob", "bob@example.com", None, None, true, 0, 0)];
    var p := EmptyPatch.(email := Set(""));
    var u := t[2 := Patched(t[2], p, now)];
    assert 1 in u && 2 in u && EmailOf(u[1]) == EmailOf(u[2]);
    assert 1 in t && 1 != 2 && EmailOf(t[1]) == "";
  }

  /** The WHERE clause of the list handlers: is_active when given, and for
      customers a name-or-email ILIKE search when the search text is
      truthy. Receivers and senders have no search (None). */
  predicate Matches(c: Contact, isActive: Option<bool>, search: Option<string>)
  {
    && (isActive.Some? ==> c.isActive == isActive.value)
    && (TruthyText(search) ==> ILike(c.name, search.value) || ILike(c.email, search.value))
  }

  function Filter(isActive: Option<bool>, search: Option<string>): Contact -> bool
  {
    c => Matches(c, isActive, search)
  }

  /** The list handler: matching rows only, none twice, and as many as
      OFFSET/LIMIT leave of all matching rows (in the database's order). */
  method List(rows: map<int, Contact>, skip: nat, limit: nat, isActive: Option<bool>, search: Option<string>)
    returns (r: seq<Contact>)
    requires Keyed(rows)
    ensures |r| == PageSize(|Store.MatchingIds(rows, Filter(isActive, search))|, skip, limit)
    ensures forall i :: 0 <= i < |r| ==> r[i].id in rows && rows[r[i].id] == r[i] && Matches(r[i], isActive, search)
    ensures forall i, j :: 0 <= i < j < |r| ==> r[i].id != r[j].id
  {
    var ids := Store.Page(rows, Filter(isActive, search), skip, limit);
    r := Store.Rows(rows, ids);
    forall i | 0 <= i < |r|
      ensures r[i].id == ids[i] && Matches(r[i], isActive, search)
    {
      assert ids[i] in rows && Filter(isActive, search)(rows[ids[i]]);
    }
  }

  /** get_customer_by_email: the customer stored with that email, or 404. */
  method GetByEmail(rows: map<int, Contact>, email: string) returns (r: Result<Contact>)
    requires Keyed(rows)
    ensures r.Ok? <==> exists id :: id in rows && rows[id].email == email
    ensures r.Err? ==> r.error == NotFound
    ensures r.Ok? ==> r.value.email == email && r.value.id in rows && rows[r.value.id] == r.value
  {
    r := Store.FindBy(rows, EmailOf, email);
    if r.Ok? {
      var id :| id in rows && rows[id] == r.value;
    }
  }

  /** One of the three tables, with the database's id sequence. */
  class ContactTable {
    var rows: map<int, Contact>
    var nextId: int

    ghost predicate Valid()
      reads this
    {
      && (forall id :: id in rows ==> rows[id].id == id && id < nextId)
      && Store.Unique(rows, EmailOf)
    }

    constructor ()
      ensures Valid() && rows == map[] && nextId == 1
    {
      rows := map[];
      nextId := 1;
    }

    /** get_customer, get_receiver, get_sender: the row stored under the primary key, which carries that key
        as its id, or 404. */
    function Get(id: int): (r: Result<Contact>)
      reads this
      requires Valid()
      ensures r.Ok? <==> id in rows
      ensures r.Ok? ==> r.value.id == id && r.value == rows[id]
      ensures r.Err? ==> r.error == NotFound
    {
      Store.Lookup(rows, id)
    }

    /** create: 400 when some row already has the email, else insert. */
    method Create(input: ContactInput, now: Time) returns (r: Result<Contact>)
      requires Valid()
      modifies this
      ensures Valid()
      ensures Store.Held(old(rows), EmailOf, input.email) ==>
                r == Err(Conflict(EmailTaken)) && rows == old(rows) && nextId == old(nextId)
      ensures !Store.Held(old(rows), EmailOf, input.email) ==>
                && r == Ok(NewContact(input, old(nextId), now))
                && rows == old(rows)[old(nextId) := r.value]
                && nextId == old(nextId) + 1
      ensures Store.Held(rows, EmailOf, input.email)
    {
      var existing := Store.FindBy(rows, EmailOf, input.email);
      if existing.Ok? {
        r := Err(Conflict(EmailTaken));
        return;
      }
      var c := NewContact(input, nextId, now);
      Store.PutKeepsUnique(rows, EmailOf, nextId, c);
      rows := rows[nextId := c];
      nextId := nextId + 1;
      r := Ok(c);
      assert rows[c.id] == c;
    }

    /** update: 404 first, then 400 when the supplied email belongs to
        another row, else overwrite the supplied fields and refresh
        `updated_at` (even for an empty body). */
    method Update(id: int, p: ContactPatch, now: Time) returns (r: Result<Contact>)
      requires Valid()
      modifies this
      ensures Valid() && nextId == old(nextId)
      ensures id !in old(rows) ==> r == Err(NotFound) && rows == old(rows)
      ensures id in old(rows) && Store.UpdateConflict(old(rows), EmailOf, id, p.email) ==>
                r == Err(Conflict(EmailTaken)) && rows == old(rows)
      ensures id in old(rows) && !Store.UpdateConflict(old(rows), EmailOf, id, p.email) ==>
                r == Ok(Patched(old(rows)[id], p, now)) && rows == old(rows)[id := r.value]
    {
      if id !in rows {
        r := Err(NotFound);
        return;
      }
      if Store.UpdateConflict(rows, EmailOf, id, p.email) {
        r := Err(Conflict(EmailTaken));
        return;
      }
      var c := Patched(rows[id], p, now);
      Store.GuardedUpdateKeepsUnique(rows, EmailOf, id, p.email, c);
      rows := rows[id := c];
      r := Ok(c);
    }

    /** activate: is_active := true and refresh `updated_at`, or 404. */
    method Activate(id: int, now: Time) returns (r: Result<Contact>)
      requires Valid()
      modifies this
      ensures Valid() && nextId == old(nextId)
      ensures id !in old(rows) ==> r == Err(NotFound) && rows == old(rows)
      ensures id in old(rows) ==>
                r == Ok(old(rows)[id].(isActive := true, updatedAt := now)) && rows == old(rows)[id := r.value]
    {
      if id !in rows {
        r := Err(NotFound);
        return;
      }
      var c := rows[id].(isActive := true, updatedAt := now);
      Store.PutKeepsUnique(rows, EmailOf, id, c);
      rows := rows[id := c];
      r := Ok(c);
    }

    /** deactivate: is_active := false and refresh `updated_at`, or 404. */
    method Deactivate(id: int, now: Time) returns (r: Result<Contact>)
      requires Valid()
      modifies this
      ensures Valid() && nextId == old(nextId)
      ensures id !in old(rows) ==> r == Err(NotFound) && rows == old(rows)
      ensures id in old(rows) ==>
                r == Ok(old(rows)[id].(isActive := false, updatedAt := now)) && rows == old(rows)[id := r.value]
    {
      if id !in rows {
        r := Err(NotFound);
        return;
      }
      var c := rows[id].(isActive := false, updatedAt := now);
      Store.PutKeepsUnique(rows, EmailOf, id, c);
      rows := rows[id := c];
      r := Ok(c);
    }

    /** delete: remove the row, after which a get answers 404; or 404. */
    method Delete(id: int) returns (r: Result<()>)
      requires Valid()
      modifies this
      ensures Valid() && nextId == old(nextId)
      ensures r.Ok? <==> id in old(rows)
      ensures r.Err? ==> r.error == NotFound
      ensures rows == old(rows) - {id}
      ensures Get(id) == Err(NotFound)
    {
      if id !in rows {
        r := Err(NotFound);
        assert rows == rows - {id};
        return;
      }
      rows := rows - {id};
      r := Ok(());
    }
  }

  /** Two creates with the same email on a fresh table: the first is
      stored, the second is refused with 400 "Email already registered". */
  method SameEmailTwice(a: ContactInput, b: ContactInput, t1: Time, t2: Time)
    returns (first: Result<Contact>, second: Result<Contact>)
    requires a.email == b.email
    ensures first == Ok(NewContact(a, 1, t1))
    ensures second == Err(Conflict(EmailTaken))
  {
    var table := new ContactTable();
    first := table.Create(a, t1);
    second := table.Create(b, t2);
  }
}

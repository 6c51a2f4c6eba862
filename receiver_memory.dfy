/**
 * The older in-memory receiver router: a module-level dictionary from id to
 * receiver and an id counter, kept in the process rather than the database.
 * Its rows are the same contacts the database-backed routers store; unlike
 * the database, the dictionary remembers insertion order, and its list
 * handler slices with Python's integer slice semantics.
 */
module ReceiverMemory {
  import opened Common
  import opened Contacts
  import Store

  /** Some entry other than `except` already holds `email`: the loop over
      `receivers_db.values()` in create (except = None) and over
      `receivers_db.items()` skipping the receiver itself in update. */
  method ScanEmails(db: map<int, Contact>, order: seq<int>, email: string, except: Option<int>)
    returns (found: bool)
    requires forall k :: k in order <==> k in db
    ensures except.None? ==> (found <==> Store.Held(db, EmailOf, email))
    ensures except.Some? ==> (found <==> Store.HeldByOther(db, EmailOf, email, except.value))
  {
    Store.KeysAt(db, order);
    var i := 0;
    while i < |order|
      invariant 0 <= i <= |order|
      invariant forall j :: 0 <= j < i ==> Some(order[j]) == except || db[order[j]].email != email
    {
      var rid := order[i];
      if except != Some(rid) && db[rid].email == email {
        return true;
      }
      i := i + 1;
    }
    found := false;
    forall id | id in db && Some(id) != except
      ensures EmailOf(db[id]) != email
    {
      assert id in order;
      var j :| 0 <= j < |order| && order[j] == id;
    }
  }

  /** The keys of `s` other than `k`, in the same order. */
  function Without(s: seq<int>, k: int): (r: seq<int>)
    ensures forall x :: x in r <==> x in s && x != k
    ensures NoDup(s) ==> NoDup(r)
  {
    if s == [] then []
    else
      var rest := Without(s[1..], k);
      if s[0] == k then rest
      else
        assert NoDup(s) ==> s[0] !in s[1..];
        [s[0]] + rest
  }

  /** Dropping a key from a concatenation drops it from each part. */
  lemma {:induction false} WithoutAppend(s: seq<int>, t: seq<int>, k: int)
    ensures Without(s + t, k) == Without(s, k) + Without(t, k)
  {
    if s == [] {
      assert s + t == t;
    } else {
      var st := s + t;
      assert st[0] == s[0] && st[1..] == s[1..] + t;
      WithoutAppend(s[1..], t, k);
      if s[0] == k {
        assert Without(st, k) == Without(s[1..] + t, k);
        assert Without(s, k) == Without(s[1..], k);
      } else {
        assert Without(st, k) == [s[0]] + Without(s[1..] + t, k);
        assert Without(s, k) == [s[0]] + Without(s[1..], k);
      }
    }
  }

  /** Dropping a key that does not occur changes nothing. */
  lemma {:induction false} WithoutAbsent(s: seq<int>, k: int)
    requires k !in s
    ensures Without(s, k) == s
  {
    if s != [] {
      WithoutAbsent(s[1..], k);
      assert s == [s[0]] + s[1..];
    }
  }

  /** In an order without repeats, the key at position i occurs neither
      before nor after it. */
  lemma OnlyAt(s: seq<int>, i: int)
    requires NoDup(s) && 0 <= i < |s|
    ensures s[i] !in s[..i] && s[i] !in s[i + 1..]
  {
    forall j | 0 <= j < i
      ensures s[..i][j] != s[i]
    {
      assert s[..i][j] == s[j];
    }
    forall j | i + 1 <= j < |s|
      ensures s[j] != s[i]
    {
    }
  }

  /** In an order without repeats, dropping the key at position i leaves
      the keys before it and the keys after it, in order. */
  lemma WithoutAt(s: seq<int>, i: int)
    requires NoDup(s) && 0 <= i < |s|
    ensures Without(s, s[i]) == s[..i] + s[i + 1..]
  {
    var k, before, after := s[i], s[..i], s[i + 1..];
    OnlyAt(s, i);
    assert s == (before + [k]) + after;
    WithoutAppend(before + [k], after, k);
    WithoutAppend(before, [k], k);
    WithoutAbsent(before, k);
    WithoutAbsent(after, k);
    assert [k][1..] == [];
    assert Without([k], k) == Without([], k) == [];
    assert Without(s, k) == (before + []) + after;
    assert before + [] == before;
  }

  /** The receivers of `s` whose is_active equals the filter, when given,
      keeping their order; without a filter, all of them. */
  function KeepActive(s: seq<Contact>, isActive: Option<bool>): (r: seq<Contact>)
    ensures |r| <= |s|
    ensures forall c :: c in r <==> c in s && (isActive.Some? ==> c.isActive == isActive.value)
    ensures isActive.None? ==> r == s
  {
    if s == [] then []
    else
      var rest := KeepActive(s[1..], isActive);
      if isActive.None? || s[0].isActive == isActive.value then
        assert isActive.None? ==> [s[0]] + s[1..] == s;
        [s[0]] + rest
      else rest
  }

  /** The comprehension filters each part of a concatenation on its own, so
      it keeps every matching receiver, each as often as it occurs, in the
      order given. */
  lemma {:induction false} KeepActiveAppend(s: seq<Contact>, t: seq<Contact>, isActive: Option<bool>)
    ensures KeepActive(s + t, isActive) == KeepActive(s, isActive) + KeepActive(t, isActive)
  {
    if s == [] {
      assert s + t == t;
    } else {
      var st := s + t;
      assert st[0] == s[0] && st[1..] == s[1..] + t;
      KeepActiveAppend(s[1..], t, isActive);
      if isActive.None? || s[0].isActive == isActive.value {
        assert KeepActive(st, isActive) == [s[0]] + KeepActive(s[1..] + t, isActive);
        assert KeepActive(s, isActive) == [s[0]] + KeepActive(s[1..], isActive);
      } else {
        assert KeepActive(st, isActive) == KeepActive(s[1..] + t, isActive);
        assert KeepActive(s, isActive) == KeepActive(s[1..], isActive);
      }
    }
  }

  /** `receivers_db` with its insertion order, and `next_id`. */
  class ReceiverRegistry {
    var db: map<int, Contact>
    var order: seq<int>
    var nextId: int

    ghost predicate Valid()
      reads this
    {
      && NoDup(order)
      && (forall k :: k in order <==> k in db)
      && (forall id :: id in db ==> db[id].id == id && id < nextId)
      && Store.Unique(db, EmailOf)
    }

    /** The registry with the counter bound, as the router needs it. */
    constructor ()
      ensures Valid() && db == map[] && order == [] && nextId == 1
    {
      db := map[];
      order := [];
      nextId := 1;
    }

    /** get_receiver: the entry under the id, or 404. */
    function Get(id: int): (r: Result<Contact>)
      reads this
      requires Valid()
      ensures r.Ok? <==> id in db
      ensures r.Ok? ==> r.value == db[id] && r.value.id == id
      ensures r.Err? ==> r.error == NotFound
    {
      Store.Lookup(db, id)
    }

    /** `list(receivers_db.values())`: the receivers in insertion order. */
    function Values(): (r: seq<Contact>)
      reads this
      requires Valid()
      ensures |r| == |order|
      ensures forall i :: 0 <= i < |order| ==> order[i] in db && r[i] == db[order[i]]
    {
      Store.KeysAt(db, order);
      Store.Rows(db, order)
    }

    /** get_receivers: filter by is_active, then `[skip : skip + limit]`. */
    function List(skip: int, limit: int, isActive: Option<bool>): (r: seq<Contact>)
      reads this
      requires Valid()
      ensures forall c :: c in r ==> c.id in db && db[c.id] == c
      ensures forall c :: c in r ==> isActive.Some? ==> c.isActive == isActive.value
      ensures 0 <= limit ==> |r| <= limit
      ensures 0 <= skip && 0 <= limit ==>
                && r == Window(KeepActive(Values(), isActive), skip, limit)
                && |r| == PageSize(|KeepActive(Values(), isActive)|, skip, limit)
    {
      var all := Values();
      var kept := KeepActive(all, isActive);
      assert 0 <= limit ==> |PySlice(kept, skip, skip + limit)| <= limit by {
        if 0 <= limit {
          PySliceLength(kept, skip, limit);
        }
      }
      assert 0 <= skip && 0 <= limit ==> PySlice(kept, skip, skip + limit) == Window(kept, skip, limit) by {
        if 0 <= skip && 0 <= limit {
          PySliceIsWindow(kept, skip, limit);
        }
      }
      assert forall c :: c in all ==> c.id in db && db[c.id] == c by {
        forall c | c in all
          ensures c.id in db && db[c.id] == c
        {
          var i :| 0 <= i < |all| && all[i] == c;
          var id := order[i];
          assert id in db && c == db[id];
        }
      }
      PySlice(kept, skip, skip + limit)
    }

    /** create_receiver once `next_id` is bound: 400 on a known email, else
        store the new receiver under the counter, at the end of the order. */
    method Create(input: ContactInput, now: Time) returns (r: Result<Contact>)
      requires Valid()
      modifies this
      ensures Valid()
      ensures Store.Held(old(db), EmailOf, input.email) ==>
                && r == Err(Conflict(EmailTaken))
                && db == old(db) && order == old(order) && nextId == old(nextId)
      ensures !Store.Held(old(db), EmailOf, input.email) ==>
                && r == Ok(NewContact(input, old(nextId), now))
                && db == old(db)[old(nextId) := r.value]
                && order == old(order) + [old(nextId)]
                && nextId == old(nextId) + 1
      ensures r.Ok? ==> Values() == old(Values()) + [r.value]
    {
      var taken := ScanEmails(db, order, input.email, None);
      if taken {
        r := Err(Conflict(EmailTaken));
        return;
      }
      var c := NewContact(input, nextId, now);
      Store.PutKeepsUnique(db, EmailOf, nextId, c);
      assert nextId !in order;
      db := db[nextId := c];
      order := order + [nextId];
      nextId := nextId + 1;
      r := Ok(c);
    }

    /** update_receiver (and patch_receiver, which delegates to it): 404,
        then 400 when another receiver holds the supplied email, else merge
        the supplied fields; only a non-empty body refreshes `updated_at`. */
    method Update(id: int, p: ContactPatch, now: Time) returns (r: Result<Contact>)
      requires Valid()
      modifies this
      ensures Valid() && order == old(order) && nextId == old(nextId)
      ensures id !in old(db) ==> r == Err(NotFound) && db == old(db)
      ensures id in old(db) && Store.UpdateConflict(old(db), EmailOf, id, p.email) ==>
                r == Err(Conflict(EmailTaken)) && db == old(db)
      ensures id in old(db) && !Store.UpdateConflict(old(db), EmailOf, id, p.email) && p == EmptyPatch ==>
                r == Ok(old(db)[id]) && db == old(db)
      ensures id in old(db) && !Store.UpdateConflict(old(db), EmailOf, id, p.email) && p != EmptyPatch ==>
                r == Ok(Patched(old(db)[id], p, now)) && db == old(db)[id := r.value]
    {
      if id !in db {
        r := Err(NotFound);
        return;
      }
      if p.email.Set? {
        var taken := ScanEmails(db, order, p.email.value, Some(id));
        if taken {
          r := Err(Conflict(EmailTaken));
          return;
        }
      }
      if p == EmptyPatch {
        r := Ok(db[id]);
        return;
      }
      var c := Patched(db[id], p, now);
      Store.GuardedUpdateKeepsUnique(db, EmailOf, id, p.email, c);
      db := db[id := c];
      r := Ok(c);
    }

    /** activate_receiver / deactivate_receiver: set is_active and refresh
        `updated_at`, or 404. */
    method SetActive(id: int, active: bool, now: Time) returns (r: Result<Contact>)
      requires Valid()
      modifies this
      ensures Valid() && order == old(order) && nextId == old(nextId)
      ensures id !in old(db) ==> r == Err(NotFound) && db == old(db)
      ensures id in old(db) ==>
                r == Ok(old(db)[id].(isActive := active, updatedAt := now)) && db == old(db)[id := r.value]
    {
      if id !in db {
        r := Err(NotFound);
        return;
      }
      var c := db[id].(isActive := active, updatedAt := now);
      Store.PutKeepsUnique(db, EmailOf, id, c);
      db := db[id := c];
      r := Ok(c);
    }

    /** delete_receiver: drop the entry, keeping the order of the rest. */
    method Delete(id: int) returns (r: Result<()>)
      requires Valid()
      modifies this
      ensures Valid() && nextId == old(nextId)
      ensures r.Ok? <==> id in old(db)
      ensures r.Err? ==> r.error == NotFound && db == old(db) && order == old(order)
      ensures r.Ok? ==> db == old(db) - {id} && order == Without(old(order), id)
    {
      if id !in db {
        r := Err(NotFound);
        return;
      }
      db := db - {id};
      order := Without(order, id);
      r := Ok(());
    }
  }

  /** The module's globals as the file leaves them at import time: the
      dictionary, and `next_id`, which `create_receiver` declares `global`
      but nothing ever assigns (None = unbound). */
  datatype Globals = Globals(db: map<int, Contact>, nextId: Option<int>)

  const AtImport := Globals(map[], None)

  /** create_receiver as written: the email scan, then the read of
      `next_id`, which raises NameError while the name is unbound. */
  function CreateAsWritten(g: Globals, input: ContactInput, now: Time): (res: (Result<Contact>, Globals))
    ensures g.nextId.None? ==> res.1 == g && res.0.Err?
    ensures g.nextId.Some? && res.0.Ok? ==> res.0.value.id == g.nextId.value
  {
    if Store.Held(g.db, EmailOf, input.email) then (Err(Conflict(EmailTaken)), g)
    else match g.nextId
      case None => (Err(Unbound("next_id")), g)
      case Some(n) =>
        var c := NewContact(input, n, now);
        (Ok(c), Globals(g.db[n := c], Some(n + 1)))
  }

  /** Every create of a sequence in turn, from the given globals. */
  function CreateAllAsWritten(g: Globals, inputs: seq<ContactInput>, now: Time): Globals
    decreases inputs
  {
    if inputs == [] then g
    else CreateAllAsWritten(CreateAsWritten(g, inputs[0], now).1, inputs[1..], now)
  }

  /** As written, the first create after import fails with NameError. */
  lemma FirstCreateFailsAsWritten(input: ContactInput, now: Time)
    ensures CreateAsWritten(AtImport, input, now).0 == Err(Unbound("next_id"))
  {
  }

  /** As written, no sequence of creates ever stores a receiver. */
  lemma {:induction false} NoCreateSucceedsAsWritten(inputs: seq<ContactInput>, now: Time)
    ensures CreateAllAsWritten(AtImport, inputs, now) == AtImport
  {
    if inputs != [] {
      NoCreateSucceedsAsWritten(inputs[1..], now);
    }
  }

  /** With the counter bound to 1, a fresh registry stores its first
      receiver under id 1 and lists it. */
  method FirstReceiverStored(input: ContactInput, now: Time) returns (r: Result<Contact>, listed: seq<Contact>)
    ensures r == Ok(NewContact(input, 1, now))
    ensures listed == [NewContact(input, 1, now)]
  {
    var registry := new ReceiverRegistry();
    r := registry.Create(input, now);
    listed := registry.List(0, 100, None);
  }
}

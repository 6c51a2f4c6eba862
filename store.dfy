/**
 * The keyed-record discipline every resource handler repeats, stated once
 * over an abstract table `map<int, R>` from primary key to row: uniqueness
 * of a key column, the look-ups behind `session.get` and
 * `select(...).where(col == v).first()`, the conflict checks of create and
 * update, and the filtered, paged list query.
 */
module Store {
  import opened Common

  /** No two rows of `t` share a value of the column `key`. */
  ghost predicate Unique<R>(t: map<int, R>, key: R -> string)
  {
    forall i, j :: i in t && j in t && i != j ==> key(t[i]) != key(t[j])
  }

  /** Some row holds `k` in the column `key`: the create-time check. */
  predicate Held<R>(t: map<int, R>, key: R -> string, k: string)
  {
    exists id :: id in t && key(t[id]) == k
  }

  /** A row other than `self` holds `k`: `where(col == k, id != self)`. */
  predicate HeldByOther<R>(t: map<int, R>, key: R -> string, k: string, self: int)
  {
    exists id :: id in t && id != self && key(t[id]) == k
  }

  /** The update-time conflict check for a unique column, applied whenever
      the request supplies the column: only a supplied value can conflict,
      and resubmitting the row's own value never does. */
  predicate UpdateConflict<R>(t: map<int, R>, key: R -> string, self: int, f: Field<string>): (b: bool)
    ensures b ==> f.Set?
    ensures Unique(t, key) && self in t && f == Set(key(t[self])) ==> !b
  {
    f.Set? && HeldByOther(t, key, f.value, self)
  }

  /** The same check as the handlers write it, `if update.col:`, which
      Python skips for an empty string: it reports only conflicts the full
      check reports, and misses exactly an empty value held by another row. */
  predicate UpdateConflictAsWritten<R>(t: map<int, R>, key: R -> string, self: int, f: Field<string>): (b: bool)
    ensures b ==> UpdateConflict(t, key, self, f)
    ensures UpdateConflict(t, key, self, f) && !b <==> f == Set("") && HeldByOther(t, key, "", self)
  {
    f.Set? && f.value != "" && HeldByOther(t, key, f.value, self)
  }

  /** Writing row r under `id` keeps a column unique when no other row
      already holds r's value: covers both insert and in-place update. */
  lemma PutKeepsUnique<R>(t: map<int, R>, key: R -> string, id: int, r: R)
    requires Unique(t, key)
    requires !HeldByOther(t, key, key(r), id)
    ensures Unique(t[id := r], key)
  {
    var u := t[id := r];
    forall i, j | i in u && j in u && i != j
      ensures key(u[i]) != key(u[j])
    {
      if i == id {
        assert u[j] == t[j];
      } else if j == id {
        assert u[i] == t[i];
      }
    }
  }

  /** Removing a row keeps every column unique. */
  lemma RemoveKeepsUnique<R>(t: map<int, R>, key: R -> string, id: int)
    requires Unique(t, key)
    ensures Unique(t - {id}, key)
  {
  }

  /** An update that leaves the unique column alone cannot conflict. */
  lemma SameKeyNoConflict<R>(t: map<int, R>, key: R -> string, id: int, r: R)
    requires Unique(t, key) && id in t && key(r) == key(t[id])
    ensures !HeldByOther(t, key, key(r), id)
  {
  }

  /** The corrected update check keeps the column unique: if the request
      does not conflict, the row written (whose column is the supplied value
      or else the old one) leaves the table without duplicates. */
  lemma GuardedUpdateKeepsUnique<R>(t: map<int, R>, key: R -> string, id: int, f: Field<string>, r: R)
    requires Unique(t, key) && id in t
    requires !UpdateConflict(t, key, id, f)
    requires key(r) == Apply(f, key(t[id]))
    ensures Unique(t[id := r], key)
  {
    if f.Unset? {
      SameKeyNoConflict(t, key, id, r);
    }
    PutKeepsUnique(t, key, id, r);
  }

  /** A unique index refuses the commit of an updated row exactly when the
      full update check would have reported a conflict: the written value
      (the supplied one, or else the row's own) is held by another row. */
  lemma IndexRejectsIffConflict<R>(t: map<int, R>, key: R -> string, id: int, f: Field<string>, r: R)
    requires Unique(t, key) && id in t
    requires key(r) == Apply(f, key(t[id]))
    ensures HeldByOther(t, key, key(r), id) <==> UpdateConflict(t, key, id, f)
  {
    if f.Unset? {
      SameKeyNoConflict(t, key, id, r);
    }
  }

  /** `select(R).where(key == k).first()`: some row holding k, or nothing.
      The query has no ORDER BY, so which row is unspecified; once the
      column is unique the answer is the one row that holds k. */
  method FindBy<R>(t: map<int, R>, key: R -> string, k: string) returns (r: Result<R>)
    ensures r.Ok? <==> Held(t, key, k)
    ensures r.Err? ==> r.error == NotFound
    ensures r.Ok? ==> key(r.value) == k && exists id :: id in t && t[id] == r.value
    ensures r.Ok? && Unique(t, key) ==> forall id :: id in t && key(t[id]) == k ==> t[id] == r.value
  {
    if id :| id in t && key(t[id]) == k {
      r := Ok(t[id]);
    } else {
      r := Err(NotFound);
    }
  }

  /** `session.get(R, id)`, or 404. */
  function Lookup<R>(t: map<int, R>, id: int): (r: Result<R>)
    ensures r.Ok? <==> id in t
    ensures r.Ok? ==> r.value == t[id]
    ensures r.Err? ==> r.error == NotFound
  {
    if id in t then Ok(t[id]) else Err(NotFound)
  }

  /** The keys of the rows a WHERE clause `keep` admits. */
  ghost function MatchingIds<R>(t: map<int, R>, keep: R -> bool): set<int>
  {
    set id | id in t && keep(t[id])
  }

  /** The keys of `order`, in that order, whose rows `keep` admits. */
  function ScanIds<R>(t: map<int, R>, order: seq<int>, keep: R -> bool): (r: seq<int>)
    requires forall k :: k in order ==> k in t
    ensures forall k :: k in r <==> k in order && keep(t[k])
    ensures NoDup(order) ==> NoDup(r)
  {
    if order == [] then []
    else
      var first, rest := order[0], ScanIds(t, order[1..], keep);
      assert first in order;
      if keep(t[first]) then
        assert NoDup(order) ==> first !in order[1..];
        [first] + rest
      else rest
  }

  /** A sequence without repetitions has as many elements as its set. */
  lemma {:induction false} DistinctCount(s: seq<int>)
    requires NoDup(s)
    ensures |set k | k in s| == |s|
  {
    if s != [] {
      DistinctCount(s[1..]);
      assert (set k | k in s) == {s[0]} + (set k | k in s[1..]);
      assert s[0] !in s[1..];
    }
  }

  /** Scanning an enumeration of the whole table finds every matching row
      exactly once. */
  lemma ScanCount<R>(t: map<int, R>, order: seq<int>, keep: R -> bool)
    requires NoDup(order) && forall k :: k in order <==> k in t
    ensures |ScanIds(t, order, keep)| == |MatchingIds(t, keep)|
  {
    var r := ScanIds(t, order, keep);
    DistinctCount(r);
    forall k
      ensures k in (set k | k in r) <==> k in MatchingIds(t, keep)
    {
      assert k in r <==> k in order && keep(t[k]);
    }
    assert (set k | k in r) == MatchingIds(t, keep);
  }

  /** A non-empty set has an element. */
  lemma Inhabited(s: set<int>)
    requires s != {}
    ensures exists k :: k in s
  {
    if forall k :: k !in s {
      assert false;
    }
  }

  /** The storage engine's row order: every key once, in an order nobody
      specifies. */
  method Enumerate<R>(t: map<int, R>) returns (order: seq<int>)
    ensures NoDup(order)
    ensures forall k :: k in order <==> k in t
  {
    order := [];
    var rest := t.Keys;
    while rest != {}
      invariant rest <= t.Keys
      invariant NoDup(order)
      invariant forall k :: k in order <==> k in t && k !in rest
      decreases rest
    {
      Inhabited(rest);
      var k :| k in rest;
      order := order + [k];
      rest := rest - {k};
    }
  }

  /** `select(R).where(keep).offset(skip).limit(limit)`: the keys of the
      page, each of a matching row, none twice, and exactly as many as
      OFFSET/LIMIT leave of all the matching rows. */
  method Page<R>(t: map<int, R>, keep: R -> bool, skip: nat, limit: nat) returns (ids: seq<int>)
    ensures NoDup(ids)
    ensures forall i :: 0 <= i < |ids| ==> ids[i] in t && keep(t[ids[i]])
    ensures |ids| == PageSize(|MatchingIds(t, keep)|, skip, limit)
  {
    var order := Enumerate(t);
    var matching := ScanIds(t, order, keep);
    ScanCount(t, order, keep);
    ids := Window(matching, skip, limit);
    WindowNoDup(matching, skip, limit);
  }

  /** Every position of a sequence of keys of `t` holds a key of `t`. */
  lemma KeysAt<R>(t: map<int, R>, order: seq<int>)
    requires forall k :: k in order ==> k in t
    ensures forall i :: 0 <= i < |order| ==> order[i] in t
  {
    forall i | 0 <= i < |order|
      ensures order[i] in t
    {
      var k := order[i];
      assert k in order;
    }
  }

  /** The rows of the keys `ids`, in that order. */
  function Rows<R>(t: map<int, R>, ids: seq<int>): (r: seq<R>)
    requires forall i :: 0 <= i < |ids| ==> ids[i] in t
    ensures |r| == |ids| && forall i :: 0 <= i < |ids| ==> r[i] == t[ids[i]]
  {
    seq(|ids|, i requires 0 <= i < |ids| => t[ids[i]])
  }
}

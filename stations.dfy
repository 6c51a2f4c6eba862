/**
 * Stations: depots with a unique code, an address split into city, state
 * and postal code, and an optional phone. The list handler filters on city
 * and state by ILIKE and on is_active.
 */
module Stations {
  import opened Common
  import Store

  datatype Station = Station(
    id: int,
    name: string,
    code: string,
    address: string,
    city: string,
    state: string,
    postalCode: string,
    phone: Option<string>,
    isActive: bool,
    createdAt: Time,
    updatedAt: Time)

  datatype StationInput = StationInput(
    name: string,
    code: string,
    address: string,
    city: string,
    state: string,
    postalCode: string,
    phone: Option<string>,
    isActive: Field<bool>)

  datatype StationPatch = StationPatch(
    name: Field<string>,
    code: Field<string>,
    address: Field<string>,
    city: Field<string>,
    state: Field<string>,
    postalCode: Field<string>,
    phone: Field<Option<string>>,
    isActive: Field<bool>)

  const EmptyPatch := StationPatch(Unset, Unset, Unset, Unset, Unset, Unset, Unset, Unset)

  const CodeTaken := "Station code already exists"

  /** The unique column. */
  function CodeOf(s: Station): string
  {
    s.code
  }

  ghost predicate Keyed(rows: map<int, Station>)
  {
    forall id :: id in rows ==> rows[id].id == id
  }

  /** The row stored for a create body. */
  function NewStation(input: StationInput, id: int, now: Time): (s: Station)
    ensures s.id == id && s.code == input.code && s.createdAt == now && s.updatedAt == now
    ensures s.isActive <==> input.isActive != Set(false)
  {
    Station(id, input.name, input.code, input.address, input.city, input.state,
            input.postalCode, input.phone, Apply(input.isActive, true), now, now)
  }

  /** The row after the supplied fields are written and `updated_at` refreshed. */
  function Patched(s: Station, p: StationPatch, now: Time): (d: Station)
    ensures d.id == s.id && d.createdAt == s.createdAt && d.updatedAt == now
    ensures CodeOf(d) == Apply(p.code, CodeOf(s))
  {
    Station(s.id, Apply(p.name, s.name), Apply(p.code, s.code), Apply(p.address, s.address),
            Apply(p.city, s.city), Apply(p.state, s.state), Apply(p.postalCode, s.postalCode),
            Apply(p.phone, s.phone), Apply(p.isActive, s.isActive), s.createdAt, now)
  }

  /** An empty update body changes `updated_at` and nothing else. */
  lemma EmptyPatchOnlyRefreshes(s: Station, now: Time)
    ensures Patched(s, EmptyPatch, now) == s.(updatedAt := now)
  {
  }

  /** The WHERE clause of get_stations: each text filter applies only when
      truthy; is_active applies when given. */
  predicate Matches(s: Station, city: Option<string>, state: Option<string>, isActive: Option<bool>)
  {
    && (TruthyText(city) ==> ILike(s.city, city.value))
    && (TruthyText(state) ==> ILike(s.state, state.value))
    && (isActive.Some? ==> s.isActive == isActive.value)
  }

  function Filter(city: Option<string>, state: Option<string>, isActive: Option<bool>): Station -> bool
  {
    s => Matches(s, city, state, isActive)
  }

  /** get_stations: matching rows only, none twice, as many as OFFSET/LIMIT
      leave of all matching rows. */
  method List(rows: map<int, Station>, skip: nat, limit: nat,
              city: Option<string>, state: Option<string>, isActive: Option<bool>)
    returns (r: seq<Station>)
    requires Keyed(rows)
    ensures |r| == PageSize(|Store.MatchingIds(rows, Filter(city, state, isActive))|, skip, limit)
    ensures forall i :: 0 <= i < |r| ==> r[i].id in rows && rows[r[i].id] == r[i] && Matches(r[i], city, state, isActive)
    ensures forall i, j :: 0 <= i < j < |r| ==> r[i].id != r[j].id
  {
    var ids := Store.Page(rows, Filter(city, state, isActive), skip, limit);
    r := Store.Rows(rows, ids);
    forall i | 0 <= i < |r|
      ensures r[i].id == ids[i] && Matches(r[i], city, state, isActive)
    {
      assert ids[i] in rows && Filter(city, state, isActive)(rows[ids[i]]);
    }
  }

  /** get_station_by_code: the station stored with that code, or 404. */
  method GetByCode(rows: map<int, Station>, code: string) returns (r: Result<Station>)
    requires Keyed(rows)
    ensures r.Ok? <==> exists id :: id in rows && rows[id].code == code
    ensures r.Err? ==> r.error == NotFound
    ensures r.Ok? ==> r.value.code == code && r.value.id in rows && rows[r.value.id] == r.value
  {
    r := Store.FindBy(rows, CodeOf, code);
    if r.Ok? {
      var id :| id in rows && rows[id] == r.value;
    }
  }

  class StationTable {
    var rows: map<int, Station>
    var nextId: int

    ghost predicate Valid()
      reads this
    {
      && (forall id :: id in rows ==> rows[id].id == id && id < nextId)
      && Store.Unique(rows, CodeOf)
    }

    constructor ()
      ensures Valid() && rows == map[] && nextId == 1
    {
      rows := map[];
      nextId := 1;
    }

    /** get_station: the row stored under the primary key, which carries that key
        as its id, or 404. */
    function Get(id: int): (r: Result<Station>)
      reads this
      requires Valid()
      ensures r.Ok? <==> id in rows
      ensures r.Ok? ==> r.value.id == id && r.value == rows[id]
      ensures r.Err? ==> r.error == NotFound
    {
      Store.Lookup(rows, id)
    }

    /** create_station: 400 when the code is taken, else insert. */
    method Create(input: StationInput, now: Time) returns (r: Result<Station>)
      requires Valid()
      modifies this
      ensures Valid()
      ensures Store.Held(old(rows), CodeOf, input.code) ==>
                r == Err(Conflict(CodeTaken)) && rows == old(rows) && nextId == old(nextId)
      ensures !Store.Held(old(rows), CodeOf, input.code) ==>
                && r == Ok(NewStation(input, old(nextId), now))
                && rows == old(rows)[old(nextId) := r.value]
                && nextId == old(nextId) + 1
    {
      var existing := Store.FindBy(rows, CodeOf, input.code);
      if existing.Ok? {
        r := Err(Conflict(CodeTaken));
        return;
      }
      var s := NewStation(input, nextId, now);
      Store.PutKeepsUnique(rows, CodeOf, nextId, s);
      rows := rows[nextId := s];
      nextId := nextId + 1;
      r := Ok(s);
    }

    /** update_station: 404; then 400 when the supplied code is truthy and
        another station holds it; then the supplied fields are written and
        `updated_at` refreshed. A supplied "" skips the check, so when another
        station holds "" the unique index on `code` refuses the commit. */
    method Update(id: int, p: StationPatch, now: Time) returns (r: Result<Station>)
      requires Valid()
      modifies this
      ensures Valid() && nextId == old(nextId)
      ensures id !in old(rows) ==> r == Err(NotFound) && rows == old(rows)
      ensures id in old(rows) && Store.UpdateConflictAsWritten(old(rows), CodeOf, id, p.code) ==>
                r == Err(Conflict(CodeTaken)) && rows == old(rows)
      ensures id in old(rows) && !Store.UpdateConflictAsWritten(old(rows), CodeOf, id, p.code)
              && Store.UpdateConflict(old(rows), CodeOf, id, p.code) ==>
                r == Err(Rejected) && rows == old(rows)
      ensures id in old(rows) && !Store.UpdateConflict(old(rows), CodeOf, id, p.code) ==>
                r == Ok(Patched(old(rows)[id], p, now)) && rows == old(rows)[id := r.value]
    {
      if id !in rows {
        r := Err(NotFound);
        return;
      }
      if Store.UpdateConflictAsWritten(rows, CodeOf, id, p.code) {
        r := Err(Conflict(CodeTaken));
        return;
      }
      var s := Patched(rows[id], p, now);
      Store.IndexRejectsIffConflict(rows, CodeOf, id, p.code, s);
      if Store.HeldByOther(rows, CodeOf, CodeOf(s), id) {
        r := Err(Rejected);
        return;
      }
      Store.PutKeepsUnique(rows, CodeOf, id, s);
      rows := rows[id := s];
      r := Ok(s);
    }

    /** delete_station: remove the row, or 404. */
    method Delete(id: int) returns (r: Result<()>)
      requires Valid()
      modifies this
      ensures Valid() && nextId == old(nextId)
      ensures r.Ok? <==> id in old(rows)
      ensures r.Err? ==> r.error == NotFound
      ensures rows == old(rows) - {id}
    {
      if id !in rows {
        r := Err(NotFound);
        assert rows == rows - {id};
        return;
      }
      rows := rows - {id};
      r := Ok(());
    }
  }
}

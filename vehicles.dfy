/**
 * Vehicles: a unique license plate, a free-text type (truck, van,
 * motorcycle, ...) and a capacity. The list handler filters on the type by
 * ILIKE and on is_active.
 */
module Vehicles {
  import opened Common
  import Store

  /** `kind` is the column the schema calls `type`. */
  datatype Vehicle = Vehicle(
    id: int,
    licensePlate: string,
    kind: string,
    capacity: Number,
    isActive: bool,
    createdAt: Time,
    updatedAt: Time)

  datatype VehicleInput = VehicleInput(
    licensePlate: string,
    kind: string,
    capacity: Number,
    isActive: Field<bool>)

  datatype VehiclePatch = VehiclePatch(
    licensePlate: Field<string>,
    kind: Field<string>,
    capacity: Field<Number>,
    isActive: Field<bool>)

  const EmptyPatch := VehiclePatch(Unset, Unset, Unset, Unset)

  const PlateTaken := "License plate already exists"

  /** The unique column. */
  function PlateOf(v: Vehicle): string
  {
    v.licensePlate
  }

  ghost predicate Keyed(rows: map<int, Vehicle>)
  {
    forall id :: id in rows ==> rows[id].id == id
  }

  /** The row stored for a create body. */
  function NewVehicle(input: VehicleInput, id: int, now: Time): (v: Vehicle)
    ensures v.id == id && v.licensePlate == input.licensePlate && v.createdAt == now && v.updatedAt == now
    ensures v.isActive <==> input.isActive != Set(false)
  {
    Vehicle(id, input.licensePlate, input.kind, input.capacity, Apply(input.isActive, true), now, now)
  }

  /** The row after the supplied fields are written and `updated_at` refreshed. */
  function Patched(v: Vehicle, p: VehiclePatch, now: Time): (d: Vehicle)
    ensures d.id == v.id && d.createdAt == v.createdAt && d.updatedAt == now
    ensures PlateOf(d) == Apply(p.licensePlate, PlateOf(v))
  {
    Vehicle(v.id, Apply(p.licensePlate, v.licensePlate), Apply(p.kind, v.kind),
            Apply(p.capacity, v.capacity), Apply(p.isActive, v.isActive), v.createdAt, now)
  }

  /** An empty update body changes `updated_at` and nothing else. */
  lemma EmptyPatchOnlyRefreshes(v: Vehicle, now: Time)
    ensures Patched(v, EmptyPatch, now) == v.(updatedAt := now)
  {
  }

  /** The WHERE clause of get_vehicles. */
  predicate Matches(v: Vehicle, kind: Option<string>, isActive: Option<bool>)
  {
    && (TruthyText(kind) ==> ILike(v.kind, kind.value))
    && (isActive.Some? ==> v.isActive == isActive.value)
  }

  function Filter(kind: Option<string>, isActive: Option<bool>): Vehicle -> bool
  {
    v => Matches(v, kind, isActive)
  }

  /** get_vehicles: matching rows only, none twice, as many as OFFSET/LIMIT
      leave of all matching rows. */
  method List(rows: map<int, Vehicle>, skip: nat, limit: nat, kind: Option<string>, isActive: Option<bool>)
    returns (r: seq<Vehicle>)
    requires Keyed(rows)
    ensures |r| == PageSize(|Store.MatchingIds(rows, Filter(kind, isActive))|, skip, limit)
    ensures forall i :: 0 <= i < |r| ==> r[i].id in rows && rows[r[i].id] == r[i] && Matches(r[i], kind, isActive)
    ensures forall i, j :: 0 <= i < j < |r| ==> r[i].id != r[j].id
  {
    var ids := Store.Page(rows, Filter(kind, isActive), skip, limit);
    r := Store.Rows(rows, ids);
    forall i | 0 <= i < |r|
      ensures r[i].id == ids[i] && Matches(r[i], kind, isActive)
    {
      assert ids[i] in rows && Filter(kind, isActive)(rows[ids[i]]);
    }
  }

  /** get_vehicle_by_license: the vehicle with that plate, or 404. */
  method GetByLicense(rows: map<int, Vehicle>, plate: string) returns (r: Result<Vehicle>)
    requires Keyed(rows)
    ensures r.Ok? <==> exists id :: id in rows && rows[id].licensePlate == plate
    ensures r.Err? ==> r.error == NotFound
    ensures r.Ok? ==> r.value.licensePlate == plate && r.value.id in rows && rows[r.value.id] == r.value
  {
    r := Store.FindBy(rows, PlateOf, plate);
    if r.Ok? {
      var id :| id in rows && rows[id] == r.value;
    }
  }

  class VehicleTable {
    var rows: map<int, Vehicle>
    var nextId: int

    ghost predicate Valid()
      reads this
    {
      && (forall id :: id in rows ==> rows[id].id == id && id < nextId)
      && Store.Unique(rows, PlateOf)
    }

    constructor ()
      ensures Valid() && rows == map[] && nextId == 1
    {
      rows := map[];
      nextId := 1;
    }

    /** get_vehicle: the row stored under the primary key, which carries that key
        as its id, or 404. */
    function Get(id: int): (r: Result<Vehicle>)
      reads this
      requires Valid()
      ensures r.Ok? <==> id in rows
      ensures r.Ok? ==> r.value.id == id && r.value == rows[id]
      ensures r.Err? ==> r.error == NotFound
    {
      Store.Lookup(rows, id)
    }

    /** create_vehicle: 400 when the plate is taken, else insert. */
    method Create(input: VehicleInput, now: Time) returns (r: Result<Vehicle>)
      requires Valid()
      modifies this
      ensures Valid()
      ensures Store.Held(old(rows), PlateOf, input.licensePlate) ==>
                r == Err(Conflict(PlateTaken)) && rows == old(rows) && nextId == old(nextId)
      ensures !Store.Held(old(rows), PlateOf, input.licensePlate) ==>
                && r == Ok(NewVehicle(input, old(nextId), now))
                && rows == old(rows)[old(nextId) := r.value]
                && nextId == old(nextId) + 1
    {
      var existing := Store.FindBy(rows, PlateOf, input.licensePlate);
      if existing.Ok? {
        r := Err(Conflict(PlateTaken));
        return;
      }
      var v := NewVehicle(input, nextId, now);
      Store.PutKeepsUnique(rows, PlateOf, nextId, v);
      rows := rows[nextId := v];
      nextId := nextId + 1;
      r := Ok(v);
    }

    /** update_vehicle: 404; then 400 when the supplied plate is truthy and
        another vehicle holds it; then the supplied fields are written and
        `updated_at` refreshed. A supplied "" skips the check, so when another
        vehicle holds "" the unique index on `license_plate` refuses the
        commit. */
    method Update(id: int, p: VehiclePatch, now: Time) returns (r: Result<Vehicle>)
      requires Valid()
      modifies this
      ensures Valid() && nextId == old(nextId)
      ensures id !in old(rows) ==> r == Err(NotFound) && rows == old(rows)
      ensures id in old(rows) && Store.UpdateConflictAsWritten(old(rows), PlateOf, id, p.licensePlate) ==>
                r == Err(Conflict(PlateTaken)) && rows == old(rows)
      ensures id in old(rows) && !Store.UpdateConflictAsWritten(old(rows), PlateOf, id, p.licensePlate)
              && Store.UpdateConflict(old(rows), PlateOf, id, p.licensePlate) ==>
                r == Err(Rejected) && rows == old(rows)
      ensures id in old(rows) && !Store.UpdateConflict(old(rows), PlateOf, id, p.licensePlate) ==>
                r == Ok(Patched(old(rows)[id], p, now)) && rows == old(rows)[id := r.value]
    {
      if id !in rows {
        r := Err(NotFound);
        return;
      }
      if Store.UpdateConflictAsWritten(rows, PlateOf, id, p.licensePlate) {
        r := Err(Conflict(PlateTaken));
        return;
      }
      var v := Patched(rows[id], p, now);
      Store.IndexRejectsIffConflict(rows, PlateOf, id, p.licensePlate, v);
      if Store.HeldByOther(rows, PlateOf, PlateOf(v), id) {
        r := Err(Rejected);
        return;
      }
      Store.PutKeepsUnique(rows, PlateOf, id, v);
      rows := rows[id := v];
      r := Ok(v);
    }

    /** delete_vehicle: remove the row, or 404. */
    method Delete(id: int) returns (r: Result<()>)
      requires Valid()
      modifies this
      ensures Valid() && nextId == old(nextId)
      ensures r.Ok? <==> id in old(rows)
      ensures r.Err? ==> r.error == NotFound
      ensures rows == old(rows) - {id}
    {
      if id !in rows {
        r := Err(NotFound);
        assert rows == rows - {id};
        return;
      }
      rows := rows - {id};
      r := Ok(());
    }
  }
}

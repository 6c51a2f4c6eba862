/**
 * Parcels: the record shape and its defaults, the create handler's
 * generate-and-recheck loop for a fresh tracking number, the full and the
 * narrow updates, the filtered list and the public tracking projection.
 */
module Parcels {
  import opened Common
  import Store
  import Tracking
  import Stations

  datatype ParcelStatus =
    | Created
    | PickedUp
    | InTransit
    | AtDestination
    | OutForDelivery
    | Delivered
    | FailedDelivery
    | Returned

  /** The value a status is stored and sent as. */
  function StatusValue(s: ParcelStatus): string
  {
    match s
    case Created => "created"
    case PickedUp => "picked_up"
    case InTransit => "in_transit"
    case AtDestination => "at_destination"
    case OutForDelivery => "out_for_delivery"
    case Delivered => "delivered"
    case FailedDelivery => "failed_delivery"
    case Returned => "returned"
  }

  /** The status a stored or received value names, if any. */
  function ParseStatus(v: string): (r: Option<ParcelStatus>)
    ensures r.Some? ==> StatusValue(r.value) == v
  {
    if v == "created" then Some(Created)
    else if v == "picked_up" then Some(PickedUp)
    else if v == "in_transit" then Some(InTransit)
    else if v == "at_destination" then Some(AtDestination)
    else if v == "out_for_delivery" then Some(OutForDelivery)
    else if v == "delivered" then Some(Delivered)
    else if v == "failed_delivery" then Some(FailedDelivery)
    else if v == "returned" then Some(Returned)
    else None
  }

  /** Every status reads back from its value, so no two share one. */
  lemma ParseStatusValue(s: ParcelStatus)
    ensures ParseStatus(StatusValue(s)) == Some(s)
  {
  }

  datatype Parcel = Parcel(
    id: int,
    trackingNumber: string,
    weight: Number,
    length: Number,
    width: Number,
    height: Number,
    servicePrice: Number,
    status: ParcelStatus,
    description: Option<string>,
    specialInstructions: Option<string>,
    senderId: int,
    receiverId: int,
    originStationId: Option<int>,
    destinationStationId: Option<int>,
    vehicleId: Option<int>,
    deliveryStaffId: Option<int>,
    createdAt: Time,
    updatedAt: Time)

  /** A create body. It carries a tracking number of the client's, which the
      handler replaces; an omitted status is `Unset` and defaults to created. */
  datatype ParcelInput = ParcelInput(
    trackingNumber: string,
    weight: Number,
    length: Number,
    width: Number,
    height: Number,
    servicePrice: Number,
    status: Field<ParcelStatus>,
    description: Option<string>,
    specialInstructions: Option<string>,
    senderId: int,
    receiverId: int,
    originStationId: Option<int>,
    destinationStationId: Option<int>)

  /** An update body: the columns a client may change. The tracking number,
      the sender and the receiver are not among them. */
  datatype ParcelPatch = ParcelPatch(
    weight: Field<Number>,
    length: Field<Number>,
    width: Field<Number>,
    height: Field<Number>,
    servicePrice: Field<Number>,
    status: Field<ParcelStatus>,
    description: Field<Option<string>>,
    specialInstructions: Field<Option<string>>,
    originStationId: Field<Option<int>>,
    destinationStationId: Field<Option<int>>,
    vehicleId: Field<Option<int>>,
    deliveryStaffId: Field<Option<int>>)

  const EmptyPatch := ParcelPatch(Unset, Unset, Unset, Unset, Unset, Unset, Unset, Unset, Unset, Unset, Unset, Unset)

  /** The unique column. */
  function TrackingOf(p: Parcel): string
  {
    p.trackingNumber
  }

  ghost predicate Keyed(rows: map<int, Parcel>)
  {
    forall id :: id in rows ==> rows[id].id == id
  }

  /** The row stored for a create body under the chosen tracking number:
      status created unless given, no vehicle and no courier yet. */
  function NewParcel(input: ParcelInput, tn: string, id: int, now: Time): (p: Parcel)
    ensures p.id == id && p.trackingNumber == tn && p.createdAt == now && p.updatedAt == now
    ensures p.status == (if input.status.Set? then input.status.value else Created)
    ensures p.vehicleId == None && p.deliveryStaffId == None
    ensures p.senderId == input.senderId && p.receiverId == input.receiverId
  {
    Parcel(id, tn, input.weight, input.length, input.width, input.height, input.servicePrice,
           Apply(input.status, Created), input.description, input.specialInstructions,
           input.senderId, input.receiverId, input.originStationId, input.destinationStationId,
           None, None, now, now)
  }

  /** The tracking number a client sends is never stored: two bodies that
      differ only there give the same row. */
  lemma ClientNumberIgnored(input: ParcelInput, other: string, tn: string, id: int, now: Time)
    ensures NewParcel(input.(trackingNumber := other), tn, id, now) == NewParcel(input, tn, id, now)
  {
  }

  /** The row after the supplied fields are written and `updated_at` refreshed. */
  function Patched(p: Parcel, u: ParcelPatch, now: Time): (d: Parcel)
    ensures d.id == p.id && d.createdAt == p.createdAt && d.updatedAt == now
    ensures d.trackingNumber == p.trackingNumber && d.senderId == p.senderId && d.receiverId == p.receiverId
  {
    Parcel(p.id, p.trackingNumber, Apply(u.weight, p.weight), Apply(u.length, p.length),
           Apply(u.width, p.width), Apply(u.height, p.height), Apply(u.servicePrice, p.servicePrice),
           Apply(u.status, p.status), Apply(u.description, p.description),
           Apply(u.specialInstructions, p.specialInstructions), p.senderId, p.receiverId,
           Apply(u.originStationId, p.originStationId), Apply(u.destinationStationId, p.destinationStationId),
           Apply(u.vehicleId, p.vehicleId), Apply(u.deliveryStaffId, p.deliveryStaffId),
           p.createdAt, now)
  }

  /** An empty update body changes `updated_at` and nothing else. */
  lemma EmptyPatchOnlyRefreshes(p: Parcel, now: Time)
    ensures Patched(p, EmptyPatch, now) == p.(updatedAt := now)
  {
  }

  /** Each narrow mutation is the update that supplies only its one column. */
  lemma NarrowMutationsArePatches(p: Parcel, s: ParcelStatus, vehicleId: int, staffId: int, now: Time)
    ensures p.(status := s, updatedAt := now) == Patched(p, EmptyPatch.(status := Set(s)), now)
    ensures p.(vehicleId := Some(vehicleId), updatedAt := now)
            == Patched(p, EmptyPatch.(vehicleId := Set(Some(vehicleId))), now)
    ensures p.(deliveryStaffId := Some(staffId), updatedAt := now)
            == Patched(p, EmptyPatch.(deliveryStaffId := Set(Some(staffId))), now)
  {
  }

  /** The numbers a sequence of draws generates, in order. */
  function Candidates(draws: seq<Tracking.Draw>): (tns: seq<string>)
    requires forall i :: 0 <= i < |draws| ==> Tracking.ValidDraw(draws[i])
    ensures |tns| == |draws|
    ensures forall i :: 0 <= i < |draws| ==> tns[i] == Tracking.Generate(draws[i]) && Tracking.Shaped(tns[i])
  {
    seq(|draws|, i requires 0 <= i < |draws| && Tracking.ValidDraw(draws[i]) => Tracking.Generate(draws[i]))
  }

  /** The create loop: take a number, look it up, take the next while it
      is taken. The candidates are given in advance; the loop stops at the
      first one that no stored parcel holds. */
  method ChooseTrackingNumber(rows: map<int, Parcel>, candidates: seq<string>)
    returns (tn: string, k: nat)
    requires exists i :: 0 <= i < |candidates| && !Store.Held(rows, TrackingOf, candidates[i])
    ensures k < |candidates| && tn == candidates[k]
    ensures !Store.Held(rows, TrackingOf, tn)
    ensures forall j :: 0 <= j < k ==> Store.Held(rows, TrackingOf, candidates[j])
  {
    ghost var target :| 0 <= target < |candidates| && !Store.Held(rows, TrackingOf, candidates[target]);
    k := 0;
    tn := candidates[0];
    while true
      invariant k <= target && tn == candidates[k]
      invariant forall j :: 0 <= j < k ==> Store.Held(rows, TrackingOf, candidates[j])
      decreases target - k
    {
      var existing := Store.FindBy(rows, TrackingOf, tn);
      if existing.Err? {
        return;
      }
      k := k + 1;
      tn := candidates[k];
    }
  }

  /** The WHERE clause of get_parcels: the status when given, the sender and
      the receiver only when truthy (None and 0 mean no filter). */
  predicate Matches(p: Parcel, status: Option<ParcelStatus>, senderId: Option<int>, receiverId: Option<int>)
  {
    && (status.Some? ==> p.status == status.value)
    && (TruthyId(senderId) ==> p.senderId == senderId.value)
    && (TruthyId(receiverId) ==> p.receiverId == receiverId.value)
  }

  function Filter(status: Option<ParcelStatus>, senderId: Option<int>, receiverId: Option<int>): Parcel -> bool
  {
    p => Matches(p, status, senderId, receiverId)
  }

  /** get_parcels: matching rows only, none twice, as many as OFFSET/LIMIT
      leave of all matching rows. */
  method List(rows: map<int, Parcel>, skip: nat, limit: nat,
              status: Option<ParcelStatus>, senderId: Option<int>, receiverId: Option<int>)
    returns (r: seq<Parcel>)
    requires Keyed(rows)
    ensures |r| == PageSize(|Store.MatchingIds(rows, Filter(status, senderId, receiverId))|, skip, limit)
    ensures forall i :: 0 <= i < |r| ==>
              r[i].id in rows && rows[r[i].id] == r[i] && Matches(r[i], status, senderId, receiverId)
    ensures forall i, j :: 0 <= i < j < |r| ==> r[i].id != r[j].id
  {
    var ids := Store.Page(rows, Filter(status, senderId, receiverId), skip, limit);
    r := Store.Rows(rows, ids);
    forall i | 0 <= i < |r|
      ensures r[i].id == ids[i] && Matches(r[i], status, senderId, receiverId)
    {
      assert ids[i] in rows && Filter(status, senderId, receiverId)(rows[ids[i]]);
    }
  }

  /** A filter value of 0 for the sender is no filter at all. */
  lemma ZeroSenderIsNoFilter(p: Parcel, status: Option<ParcelStatus>, receiverId: Option<int>)
    ensures Matches(p, status, Some(0), receiverId) == Matches(p, status, None, receiverId)
  {
  }

  /** The public tracking answer. */
  datatype TrackingView = TrackingView(
    trackingNumber: string,
    status: ParcelStatus,
    createdAt: Time,
    updatedAt: Time,
    originStationName: Option<string>,
    destinationStationName: Option<string>)

  /** A station reference resolved to a name: only a truthy id is looked up,
      and a missing station gives no name. */
  function StationName(stations: map<int, Stations.Station>, ref: Option<int>): (n: Option<string>)
    ensures n.Some? <==> TruthyId(ref) && ref.value in stations
    ensures n.Some? ==> n.value == stations[ref.value].name
  {
    if TruthyId(ref) && ref.value in stations then Some(stations[ref.value].name) else None
  }

  /** The projection track_parcel returns for a parcel. */
  function View(p: Parcel, stations: map<int, Stations.Station>): (v: TrackingView)
    ensures v.trackingNumber == p.trackingNumber && v.status == p.status
    ensures v.createdAt == p.createdAt && v.updatedAt == p.updatedAt
    ensures v.originStationName == StationName(stations, p.originStationId)
    ensures v.destinationStationName == StationName(stations, p.destinationStationId)
  {
    TrackingView(p.trackingNumber, p.status, p.createdAt, p.updatedAt,
                 StationName(stations, p.originStationId),
                 StationName(stations, p.destinationStationId))
  }

  /** The origin name depends on the origin reference alone and the
      destination name on the destination reference alone, so one can be
      found while the other is missing. */
  lemma IndependentResolution(p: Parcel, stations: map<int, Stations.Station>, origin: Option<int>, destination: Option<int>)
    ensures View(p.(destinationStationId := destination), stations).originStationName
            == View(p, stations).originStationName
    ensures View(p.(originStationId := origin), stations).destinationStationName
            == View(p, stations).destinationStationName
  {
  }

  /** track_parcel: the projection of the parcel holding the tracking
      number, or 404; it reads and changes nothing else. */
  method Track(rows: map<int, Parcel>, stations: map<int, Stations.Station>, tn: string)
    returns (r: Result<TrackingView>)
    ensures r.Ok? <==> Store.Held(rows, TrackingOf, tn)
    ensures r.Err? ==> r.error == NotFound
    ensures r.Ok? ==> r.value.trackingNumber == tn
    ensures r.Ok? ==> exists id :: id in rows && r.value == View(rows[id], stations)
  {
    var found := Store.FindBy(rows, TrackingOf, tn);
    if found.Err? {
      r := Err(NotFound);
      return;
    }
    r := Ok(View(found.value, stations));
  }

  class ParcelTable {
    var rows: map<int, Parcel>
    var nextId: int

    /** Rows keyed by id below the counter, tracking numbers unique and all
        of the issued shape. */
    ghost predicate Valid()
      reads this
    {
      && (forall id :: id in rows ==> rows[id].id == id && id < nextId)
      && (forall id :: id in rows ==> Tracking.Shaped(rows[id].trackingNumber))
      && Store.Unique(rows, TrackingOf)
    }

    constructor ()
      ensures Valid() && rows == map[] && nextId == 1
    {
      rows := map[];
      nextId := 1;
    }

    /** get_parcel: the row stored under the primary key, which carries that key
        as its id, or 404. */
    function Get(id: int): (r: Result<Parcel>)
      reads this
      requires Valid()
      ensures r.Ok? <==> id in rows
      ensures r.Ok? ==> r.value.id == id && r.value == rows[id]
      ensures r.Err? ==> r.error == NotFound
    {
      Store.Lookup(rows, id)
    }

    /** create_parcel: choose a fresh number from the draws and store the
        body under it, whatever number the body carried. */
    method Create(input: ParcelInput, draws: seq<Tracking.Draw>, now: Time) returns (p: Parcel)
      requires Valid()
      requires forall i :: 0 <= i < |draws| ==> Tracking.ValidDraw(draws[i])
      requires exists i :: 0 <= i < |draws| && !Store.Held(rows, TrackingOf, Candidates(draws)[i])
      modifies this
      ensures Valid()
      ensures exists k :: && 0 <= k < |draws|
                          && p == NewParcel(input, Candidates(draws)[k], old(nextId), now)
                          && forall j :: 0 <= j < k ==> Store.Held(old(rows), TrackingOf, Candidates(draws)[j])
      ensures !Store.Held(old(rows), TrackingOf, p.trackingNumber)
      ensures rows == old(rows)[old(nextId) := p] && nextId == old(nextId) + 1
    {
      var tn, k := ChooseTrackingNumber(rows, Candidates(draws));
      p := NewParcel(input, tn, nextId, now);
      Store.PutKeepsUnique(rows, TrackingOf, nextId, p);
      rows := rows[nextId := p];
      nextId := nextId + 1;
    }

    /** update_parcel: 404, else write the supplied fields and refresh
        `updated_at`. */
    method Update(id: int, u: ParcelPatch, now: Time) returns (r: Result<Parcel>)
      requires Valid()
      modifies this
      ensures Valid() && nextId == old(nextId)
      ensures id !in old(rows) ==> r == Err(NotFound) && rows == old(rows)
      ensures id in old(rows) ==> r == Ok(Patched(old(rows)[id], u, now)) && rows == old(rows)[id := r.value]
    {
      if id !in rows {
        r := Err(NotFound);
        return;
      }
      var p := Patched(rows[id], u, now);
      Store.PutKeepsUnique(rows, TrackingOf, id, p);
      rows := rows[id := p];
      r := Ok(p);
    }

    /** update_parcel_status: any status may follow any other. */
    method SetStatus(id: int, status: ParcelStatus, now: Time) returns (r: Result<Parcel>)
      requires Valid()
      modifies this
      ensures Valid() && nextId == old(nextId)
      ensures id !in old(rows) ==> r == Err(NotFound) && rows == old(rows)
      ensures id in old(rows) ==>
                r == Ok(old(rows)[id].(status := status, updatedAt := now)) && rows == old(rows)[id := r.value]
    {
      if id !in rows {
        r := Err(NotFound);
        return;
      }
      var p := rows[id].(status := status, updatedAt := now);
      Store.PutKeepsUnique(rows, TrackingOf, id, p);
      rows := rows[id := p];
      r := Ok(p);
    }

    /** assign_vehicle_to_parcel: the vehicle id is stored without checking
        that such a vehicle exists. */
    method AssignVehicle(id: int, vehicleId: int, now: Time) returns (r: Result<Parcel>)
      requires Valid()
      modifies this
      ensures Valid() && nextId == old(nextId)
      ensures id !in old(rows) ==> r == Err(NotFound) && rows == old(rows)
      ensures id in old(rows) ==>
                r == Ok(old(rows)[id].(vehicleId := Some(vehicleId), updatedAt := now))
                && rows == old(rows)[id := r.value]
    {
      if id !in rows {
        r := Err(NotFound);
        return;
      }
      var p := rows[id].(vehicleId := Some(vehicleId), updatedAt := now);
      Store.PutKeepsUnique(rows, TrackingOf, id, p);
      rows := rows[id := p];
      r := Ok(p);
    }

    /** assign_delivery_staff_to_parcel: the courier id is stored without
        checking that such a courier exists. */
    method AssignDeliveryStaff(id: int, staffId: int, now: Time) returns (r: Result<Parcel>)
      requires Valid()
      modifies this
      ensures Valid() && nextId == old(nextId)
      ensures id !in old(rows) ==> r == Err(NotFound) && rows == old(rows)
      ensures id in old(rows) ==>
                r == Ok(old(rows)[id].(deliveryStaffId := Some(staffId), updatedAt := now))
                && rows == old(rows)[id := r.value]
    {
      if id !in rows {
        r := Err(NotFound);
        return;
      }
      var p := rows[id].(deliveryStaffId := Some(staffId), updatedAt := now);
      Store.PutKeepsUnique(rows, TrackingOf, id, p);
      rows := rows[id := p];
      r := Ok(p);
    }

    /** delete_parcel: remove the row, or 404. */
    method Delete(id: int) returns (r: Result<()>)
      requires Valid()
      modifies this
      ensures Valid() && nextId == old(nextId)
      ensures r.Ok? <==> id in old(rows)
      ensures r.Err? ==> r.error == NotFound
      ensures rows == old(rows) - {id}
    {
      if id !in rows {
        r := Err(NotFound);
        assert rows == rows - {id};
        return;
      }
      rows := rows - {id};
      r := Ok(());
    }
  }
}

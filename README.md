# Parcel-logistics store, modelled in Dafny

The backend is a CRUD service for a parcel-delivery business. It keeps
customers, receivers, senders, stations, vehicles, delivery staff and
parcels. Every resource handler follows the same keyed-record discipline
over one table:

- get by id, or 404;
- get by a unique column, or 404;
- create, refused with 400 when the unique column is already held;
- update, which answers 404 first, then checks for a conflict on the unique
  column when the body supplies it, then writes only the supplied fields and
  refreshes `updated_at`;
- delete, or 404;
- list, a conjunction of filters followed by OFFSET/LIMIT.

Parcels add four things:

- a generated tracking number ("PKG", the date as `%Y%m%d`, six random
  upper-case letters or digits);
- a loop that redraws that number until it is fresh;
- narrow mutations for the status, the vehicle and the courier;
- a public tracking view that resolves the station names.

An older router keeps receivers in a process-local dictionary instead of the
database.

The model works at the level of one atomic step per handler. A database
table is a Dafny `map<int, R>` from primary key to row, held in a class
(`ContactTable`, `StationTable`, `VehicleTable`, `StaffTable`, `ParcelTable`)
next to the id counter the database would assign. The in-memory router is
the class `ReceiverRegistry`, which also keeps the dictionary's insertion
order. The clock (`now`) and the random draws are parameters. Each class
carries an invariant `Valid()`: rows are keyed by their own id, ids stay
below the counter, and each unique column is pairwise distinct. For parcels,
every stored tracking number also has the issued shape. Every mutating
method keeps that invariant and states its whole new state.

Modules:

- `Common`: options, results, partial-update fields, Python truthiness,
  OFFSET/LIMIT, Python slicing and the ILIKE filter.
- `Store`: uniqueness and conflict checks, look-ups, and the paged list
  query, written once for any table.
- `Contacts`: customers, receivers and senders, which share one set of
  columns.
- `ReceiverMemory`: the in-memory receiver router.
- `Stations`, `Vehicles`, `DeliveryStaff`: the other tables.
- `Tracking`: the tracking-number format.
- `Parcels`: the parcel record, its handlers and the tracking view.

## Model

| member | source | states |
|---|---|---|
| Common.Window | flasx/routers/v1/customer_router.py:38 | OFFSET skip LIMIT limit keeps `PageSize` rows, never more than limit, the i-th being row skip+i |
| Common.PySliceLength | flasx/routers/v1/receivers.py:31 | `s[skip : skip+limit]` has at most limit elements when limit is not negative, whatever the sign of skip |
| Common.NegativeLimitReturnsRows | flasx/routers/v1/receivers.py:21-31 | a negative limit does not give an empty page: skip 2, limit -3 over ten receivers returns seven |
| Common.PySliceIsWindow | flasx/routers/v1/receivers.py:31 | with skip and limit not negative, the Python slice equals the SQL OFFSET/LIMIT window |
| Store.PutKeepsUnique | flasx/routers/v1/customer_router.py:96-109 | inserting or overwriting a row whose key no other row holds keeps the key column unique |
| Store.RemoveKeepsUnique | flasx/routers/v1/customer_router.py:209-214 | deleting a row keeps the key column unique |
| Store.SameKeyNoConflict | flasx/routers/v1/customer_router.py:129-137 | in a unique table, a row's own key never counts as a conflict for that row |
| Store.UpdateConflict | flasx/routers/v1/customer_router.py:129-137 | the corrected update check: only a supplied value can conflict, and resubmitting the row's own value never does |
| Store.UpdateConflictAsWritten | flasx/routers/v1/station_router.py:130-138 | the truthy guard `if update.col:` reports only conflicts the full check reports, and misses exactly the case where "" is supplied and another row holds "" |
| Store.IndexRejectsIffConflict | flasx/models/station_model.py:11 | a unique index refuses the commit of an updated row exactly when the full update check would report a conflict |
| Store.GuardedUpdateKeepsUnique | flasx/routers/v1/customer_router.py:129-145 | when the update check finds no other row holding the supplied key, writing the patched row keeps the column unique |
| Store.FindBy | flasx/routers/v1/customer_router.py:73-78 | `where(col == k).first()` succeeds iff some row holds k; the row returned holds k and is stored; in a unique table it is the only such row; otherwise NotFound |
| Store.ScanIds | flasx/routers/v1/customer_router.py:30-35 | a key is kept iff it is in the scanned order and its row passes the WHERE clause; no key is kept twice |
| Store.DistinctCount | flasx/routers/v1/customer_router.py:38-41 | a key sequence without repeats has as many entries as its set |
| Store.ScanCount | flasx/routers/v1/customer_router.py:38-41 | scanning an enumeration of the whole table finds exactly as many keys as there are matching rows |
| Store.Enumerate | flasx/routers/v1/customer_router.py:40-41 | the engine's row order lists every stored key exactly once, in an unspecified order |
| Store.Page | flasx/routers/v1/customer_router.py:27-41 | the page's keys are distinct, each is stored and its row matches, and there are exactly `PageSize(#matching, skip, limit)` of them |
| Contacts.NewContact | flasx/routers/v1/customer_router.py:104 | a created row gets the new id, both timestamps from one clock reading, and is active unless the body says false |
| Contacts.Patched | flasx/routers/v1/customer_router.py:140-145 | an update keeps id and created_at, sets updated_at to now, and its email is the supplied one or else the old one |
| Contacts.EmptyPatchOnlyRefreshes | flasx/routers/v1/customer_router.py:140-145 | an empty body changes updated_at and nothing else |
| Contacts.PatchIdempotent | flasx/routers/v1/customer_router.py:140-145 | applying the same body twice at the same instant equals applying it once |
| Contacts.FullPatchReplaces | flasx/routers/v1/customer_router.py:140-145 | a body supplying every column replaces the row except its id and created_at |
| Contacts.ActivationIsPatch | flasx/routers/v1/customer_router.py:163-168 | activate and deactivate equal an update that supplies only is_active |
| Contacts.List | flasx/routers/v1/customer_router.py:19-43 | every listed customer is stored and satisfies the is_active filter and the name-or-email ILIKE search (search only when truthy); no customer twice; exactly as many as OFFSET/LIMIT leave (receivers and senders use it without search) |
| Contacts.GetByEmail | flasx/routers/v1/customer_router.py:69-80 | succeeds iff some customer has the email, and returns a stored customer with that email; otherwise NotFound |
| Contacts.ContactTable.Get | flasx/routers/v1/customer_router.py:52-60 | `session.get` answers the customer stored under the id, whose own id is that id, or NotFound (the same for receivers and senders) |
| Contacts.ContactTable.Create | flasx/routers/v1/customer_router.py:90-109 | a held email gives 400 "Email already registered" and changes nothing; otherwise the new row is stored under the next id, the counter advances by one, and emails stay unique |
| Contacts.ContactTable.Update | flasx/routers/v1/customer_router.py:118-150 | 404 before anything else; 400 when another row holds the supplied email; otherwise the supplied fields are written and updated_at refreshed, even for an empty body, and emails stay unique |
| Contacts.ContactTable.Activate | flasx/routers/v1/customer_router.py:159-173 | is_active := true and updated_at := now on that row only, or 404 with no change |
| Contacts.ContactTable.Deactivate | flasx/routers/v1/customer_router.py:182-196 | is_active := false and updated_at := now on that row only, or 404 with no change |
| Contacts.ContactTable.Delete | flasx/routers/v1/customer_router.py:205-215 | removes exactly that row, after which Get answers NotFound; an absent id gives 404 |
| Contacts.SameEmailTwice | flasx/routers/v1/receiver_router.py:64-83 | two creates with the same email on a fresh table: the first is stored under id 1, the second is refused with 400 |
| Contacts.EmptyEmailSlipsPastAsWrittenGuard | flasx/routers/v1/sender_router.py:104-112 | the guard as written lets a sender take an email "" another sender holds, which leaves the email twice in the table; the corrected guard reports the conflict |
| ReceiverMemory.ScanEmails | flasx/routers/v1/receivers.py:103-106 | the loop over the dictionary finds a match iff some entry other than the excluded id holds the email (with no exclusion it is the create scan at lines 66-68) |
| ReceiverMemory.Without | flasx/routers/v1/receivers.py:143 | deleting a key keeps exactly the other keys of the insertion order, and keeps them distinct |
| ReceiverMemory.WithoutAppend | flasx/routers/v1/receivers.py:143 | dropping a key from a concatenation drops it from each part, so the remaining keys keep their relative order |
| ReceiverMemory.WithoutAbsent | flasx/routers/v1/receivers.py:143 | dropping a key that does not occur leaves the order unchanged |
| ReceiverMemory.WithoutAt | flasx/routers/v1/receivers.py:143 | in the registry's duplicate-free order, deleting the key at position i leaves the keys before it followed by the keys after it |
| ReceiverMemory.KeepActive | flasx/routers/v1/receivers.py:27-28 | the comprehension keeps exactly the receivers matching is_active, and all of them when the filter is absent |
| ReceiverMemory.KeepActiveAppend | flasx/routers/v1/receivers.py:27-28 | the comprehension filters each part of a concatenation on its own, so it keeps each matching receiver as often as it occurs, in insertion order |
| ReceiverMemory.ReceiverRegistry.Get | flasx/routers/v1/receivers.py:42-49 | the entry under the id, whose own id is that id, or NotFound |
| ReceiverMemory.ReceiverRegistry.List | flasx/routers/v1/receivers.py:20-33 | every listed receiver is stored and matches is_active; a non-negative limit bounds the count; with skip and limit not negative, the result is exactly the OFFSET/LIMIT window of the filtered receivers in insertion order |
| ReceiverMemory.ReceiverRegistry.Create | flasx/routers/v1/receivers.py:59-82 | a held email gives 400 with the dictionary, order and counter unchanged; otherwise the receiver is stored under next_id with both timestamps now, `list(receivers_db.values())` gains it at the end, and next_id grows by exactly one |
| ReceiverMemory.ReceiverRegistry.Update | flasx/routers/v1/receivers.py:91-114 | 404 first; 400 when another entry holds the supplied email; an empty body leaves the entry untouched including updated_at; otherwise the supplied keys are merged and updated_at set |
| ReceiverMemory.ReceiverRegistry.SetActive | flasx/routers/v1/receivers.py:153-182 | activate and deactivate set only is_active and updated_at on that entry, or 404 with no change |
| ReceiverMemory.ReceiverRegistry.Delete | flasx/routers/v1/receivers.py:136-144 | removes exactly that key from the dictionary and the order, or 404 with no change |
| ReceiverMemory.CreateAsWritten | flasx/routers/v1/receivers.py:63-80 | with next_id unbound every create fails and changes nothing; with it bound a stored receiver gets its value as id |
| ReceiverMemory.FirstCreateFailsAsWritten | flasx/routers/v1/receivers.py:63 | as written, the first create after import raises NameError on next_id |
| ReceiverMemory.NoCreateSucceedsAsWritten | flasx/routers/v1/receivers.py:63-80 | as written, no sequence of creates ever stores a receiver |
| ReceiverMemory.FirstReceiverStored | flasx/routers/v1/receivers.py:59-82 | with the counter bound to 1, a fresh registry stores its first receiver under id 1 and lists it |
| Stations.NewStation | flasx/routers/v1/station_router.py:105 | a created station gets the new id, the body's code, both timestamps now, active unless the body says false |
| Stations.Patched | flasx/routers/v1/station_router.py:141-146 | keeps id and created_at, sets updated_at, the code is the supplied one or else the old one |
| Stations.EmptyPatchOnlyRefreshes | flasx/routers/v1/station_router.py:141-146 | an empty body changes updated_at and nothing else |
| Stations.List | flasx/routers/v1/station_router.py:19-44 | every listed station is stored and matches city ILIKE and state ILIKE (each only when truthy) and is_active; none twice; exactly as many as OFFSET/LIMIT leave |
| Stations.GetByCode | flasx/routers/v1/station_router.py:70-81 | succeeds iff some station has the code, and returns a stored station with it; otherwise NotFound |
| Stations.StationTable.Get | flasx/routers/v1/station_router.py:53-61 | the station stored under the id, whose own id is that id, or NotFound |
| Stations.StationTable.Create | flasx/routers/v1/station_router.py:91-110 | a held code gives 400 "Station code already exists" with no change; otherwise the station is stored under the next id and codes stay unique |
| Stations.StationTable.Update | flasx/routers/v1/station_router.py:119-151 | 404 first; 400 when the supplied code is truthy and another station holds it; when "" is supplied and another station holds "", the unique index refuses the commit and nothing changes; otherwise supplied fields written, updated_at refreshed, codes unique |
| Stations.StationTable.Delete | flasx/routers/v1/station_router.py:160-168 | removes exactly that row, or 404 with no change |
| Vehicles.NewVehicle | flasx/routers/v1/vehicle_router.py:102 | a created vehicle gets the new id, the body's plate, both timestamps now, active unless the body says false |
| Vehicles.Patched | flasx/routers/v1/vehicle_router.py:139-144 | keeps id and created_at, sets updated_at, the plate is the supplied one or else the old one |
| Vehicles.EmptyPatchOnlyRefreshes | flasx/routers/v1/vehicle_router.py:139-144 | an empty body changes updated_at and nothing else |
| Vehicles.List | flasx/routers/v1/vehicle_router.py:19-41 | every listed vehicle is stored and matches type ILIKE (only when truthy) and is_active; none twice; exactly as many as OFFSET/LIMIT leave |
| Vehicles.GetByLicense | flasx/routers/v1/vehicle_router.py:67-78 | succeeds iff some vehicle has the plate, and returns a stored vehicle with it; otherwise NotFound |
| Vehicles.VehicleTable.Get | flasx/routers/v1/vehicle_router.py:50-58 | the vehicle stored under the id, whose own id is that id, or NotFound |
| Vehicles.VehicleTable.Create | flasx/routers/v1/vehicle_router.py:88-107 | a held plate gives 400 "License plate already exists" with no change; otherwise stored under the next id, plates unique |
| Vehicles.VehicleTable.Update | flasx/routers/v1/vehicle_router.py:116-149 | 404 first; 400 when the supplied plate is truthy and another vehicle holds it; when "" is supplied and another vehicle holds "", the unique index refuses the commit and nothing changes; otherwise supplied fields written, updated_at refreshed, plates unique |
| Vehicles.VehicleTable.Delete | flasx/routers/v1/vehicle_router.py:158-166 | removes exactly that row, or 404 with no change |
| DeliveryStaff.NewStaff | flasx/routers/v1/delivery_staff_router.py:107 | a created courier gets the new id, the body's email and employee id, both timestamps now, active unless the body says false |
| DeliveryStaff.Patched | flasx/routers/v1/delivery_staff_router.py:155-160 | keeps id and created_at, sets updated_at; email and employee id are the supplied ones or else the old ones |
| DeliveryStaff.EmptyPatchOnlyRefreshes | flasx/routers/v1/delivery_staff_router.py:155-160 | an empty body changes updated_at and nothing else |
| DeliveryStaff.List | flasx/routers/v1/delivery_staff_router.py:19-38 | every listed courier is stored and matches is_active; none twice; exactly as many as OFFSET/LIMIT leave |
| DeliveryStaff.GetByEmployeeId | flasx/routers/v1/delivery_staff_router.py:64-75 | succeeds iff some courier has the employee id, and returns a stored courier with it; otherwise NotFound |
| DeliveryStaff.StaffTable.Get | flasx/routers/v1/delivery_staff_router.py:47-55 | the courier stored under the id, whose own id is that id, or NotFound |
| DeliveryStaff.StaffTable.Create | flasx/routers/v1/delivery_staff_router.py:85-112 | a held email gives "Email already registered" even if the employee id is also held; else a held employee id gives "Employee ID already exists"; otherwise stored, with both columns unique |
| DeliveryStaff.StaffTable.Update | flasx/routers/v1/delivery_staff_router.py:121-165 | 404 first; then the email check, then the employee id check, each only for a truthy supplied value held by another courier; a supplied "" held by another courier gets past its check and the unique index refuses the commit with nothing changed; otherwise supplied fields written, updated_at refreshed, both columns unique |
| DeliveryStaff.StaffTable.Delete | flasx/routers/v1/delivery_staff_router.py:174-184 | removes exactly that row, or 404 with no change |
| Tracking.Symbol | flasx/routers/v1/parcel_router.py:19 | pick i is character i of the upper-case letters followed by the digits |
| Tracking.SymbolIndex | flasx/routers/v1/parcel_router.py:19 | every letter or digit is the symbol of its own pick |
| Tracking.DateStamp | flasx/routers/v1/parcel_router.py:18 | `%Y%m%d` of a date is eight decimal digits |
| Tracking.Generate | flasx/routers/v1/parcel_router.py:15-20 | a generated number has 17 characters: "PKG", the date stamp, then the six picked symbols |
| Tracking.Parse | flasx/routers/v1/parcel_router.py:15-20 | reading a number back yields a valid draw, or nothing |
| Tracking.ParseGenerate | flasx/routers/v1/parcel_router.py:15-20 | every generated number parses back to the date and picks it came from |
| Tracking.GenerateParse | flasx/routers/v1/parcel_router.py:15-20 | every number that parses is exactly the number its draw generates |
| Tracking.GenerateInjective | flasx/routers/v1/parcel_router.py:15-20 | two draws give the same number iff they are the same draw |
| Tracking.Pad4Number | flasx/routers/v1/parcel_router.py:18 | the four-digit year reads back as the year |
| Tracking.NumberPad4 | flasx/routers/v1/parcel_router.py:18 | any four decimal digits read as a number below 10000 and print back as themselves |
| Parcels.ParseStatus | flasx/models/parcel_model.py:15-23 | a status read from a value prints back as that value |
| Parcels.ParseStatusValue | flasx/models/parcel_model.py:15-23 | each of the eight statuses reads back from its value, so no two share one |
| Parcels.NewParcel | flasx/routers/v1/parcel_router.py:151-154 | the stored parcel carries the chosen tracking number, status created unless given, no vehicle or courier, the body's sender and receiver, both timestamps now |
| Parcels.ClientNumberIgnored | flasx/routers/v1/parcel_router.py:151-152 | the tracking number in the body never reaches the stored row |
| Parcels.Patched | flasx/routers/v1/parcel_router.py:178-184 | an update keeps id, created_at, tracking number, sender and receiver, and sets updated_at |
| Parcels.EmptyPatchOnlyRefreshes | flasx/routers/v1/parcel_router.py:178-184 | an empty body changes updated_at and nothing else |
| Parcels.NarrowMutationsArePatches | flasx/routers/v1/parcel_router.py:208-259 | setting the status, the vehicle or the courier equals an update supplying only that column |
| Parcels.Candidates | flasx/routers/v1/parcel_router.py:138-148 | the numbers the loop would try are the generated numbers of the draws, all well formed |
| Parcels.ChooseTrackingNumber | flasx/routers/v1/parcel_router.py:138-148 | the loop stops at the first candidate no stored parcel holds; every earlier candidate was held |
| Parcels.List | flasx/routers/v1/parcel_router.py:29-54 | every listed parcel is stored and matches the status (when given), the sender and the receiver (each only when truthy); none twice; exactly as many as OFFSET/LIMIT leave |
| Parcels.ZeroSenderIsNoFilter | flasx/routers/v1/parcel_router.py:43-44 | a sender_id of 0 filters nothing, as if it were absent |
| Parcels.StationName | flasx/routers/v1/parcel_router.py:105-113 | a name is found iff the reference is truthy and the station exists, and it is that station's name |
| Parcels.View | flasx/routers/v1/parcel_router.py:115-122 | the tracking view copies number, status and timestamps and resolves each station reference |
| Parcels.IndependentResolution | flasx/routers/v1/parcel_router.py:102-113 | the origin name depends only on the origin reference and the destination name only on the destination reference |
| Parcels.Track | flasx/routers/v1/parcel_router.py:80-122 | succeeds iff some parcel holds the number, and returns the view of a stored parcel with that number; otherwise NotFound |
| Parcels.ParcelTable.Get | flasx/routers/v1/parcel_router.py:63-71 | the parcel stored under the id, whose own id is that id, or NotFound |
| Parcels.ParcelTable.Create | flasx/routers/v1/parcel_router.py:132-159 | the parcel gets the first generated number no stored parcel holds (every earlier candidate was held), and is stored under the next id; tracking numbers stay unique and well formed |
| Parcels.ParcelTable.Update | flasx/routers/v1/parcel_router.py:168-189 | 404, or the supplied fields written and updated_at refreshed on that row only |
| Parcels.ParcelTable.SetStatus | flasx/routers/v1/parcel_router.py:198-214 | any status may follow any other; only status and updated_at change, or 404 |
| Parcels.ParcelTable.AssignVehicle | flasx/routers/v1/parcel_router.py:223-239 | only vehicle_id and updated_at change, with no check that the vehicle exists, or 404 |
| Parcels.ParcelTable.AssignDeliveryStaff | flasx/routers/v1/parcel_router.py:248-264 | only delivery_staff_id and updated_at change, with no check that the courier exists, or 404 |
| Parcels.ParcelTable.Delete | flasx/routers/v1/parcel_router.py:273-281 | removes exactly that row, or 404 with no change |

The receiver and sender routers (`receiver_router.py`, `sender_router.py`)
have the same handlers as the customer router, and the model uses the same
`ContactTable` operations and list for all three, with no search filter for
receivers and senders. The sender router has no activate or deactivate
handler. Customer and receiver emails are `EmailStr`, which never holds "",
so for them the truthy email guard of update and the full check
`Store.UpdateConflict` agree. Sender emails are plain strings with no unique
index, so the guard as written lets a duplicate through (see Findings).
`ContactTable.Update` uses the corrected check.

Station codes, license plates, staff emails and employee ids have unique
indexes. Their update handlers are modelled as written: a supplied "" skips
the 400 check, and the index then refuses the commit. The model's outcome for
that refusal is `Rejected`, which stands for the IntegrityError the server
answers with 500.

## Left out

- HTTP plumbing: routing, dependency injection, status codes and response validation. A 404 is `NotFound`, without the per-entity detail text.
- The async session. `exec`, `commit` and `refresh` become one atomic map update per handler. The database's id sequence is a counter that never reuses ids. Concurrent check-then-insert races are out of scope.
- Row order of the SQL list queries is unspecified, so only membership, distinctness and count are stated.
- Negative `skip` or `limit` on the SQL queries: the engine decides what they mean, so the SQL list methods take `nat`. The in-memory list keeps Python's integer slice semantics.
- ILIKE is modelled as an ASCII case-insensitive substring test. `%` and `_` inside the search text and the database's collation are not modelled.
- E-mail format validation (`EmailStr`) and every other request-body validation.
- Weights, dimensions, capacity and price are carried as `real` values with no arithmetic. Float and decimal rounding are not modelled.
- A body field sent as an explicit null for a non-null column is not modelled; `Field<string>` cannot hold null.
- The ORM fills `created_at` and `updated_at` from two separate clock readings. The model uses one `now` for both.
- The `setattr` loop over the supplied fields is modelled by its net effect (`Patched`). The keys are distinct, so their order does not matter.
- A commit refused by a unique index is modelled as `Rejected` with the table unchanged. The session rollback and the server's 500 response body are not modelled.
- Foreign keys are not checked by the model: sender, receiver, station, vehicle or courier ids may name missing rows, and a delete does not cascade.
- `patch_receiver` in `receiver_router.py` calls `update_receiver` without a session. It is meant to equal the PUT handler and is not modelled separately. In `receivers.py` the PATCH handler does delegate, so `ReceiverRegistry.Update` covers both.
- `Parcels.ParcelTable.Create`: the source loop retries without bound. The model takes a finite sequence of draws and requires one of them to be fresh.
- `Tracking.Generate`: dates are limited to years 1000 to 9999, where `%Y` prints four digits.
- The clock and the random picks are inputs, never computed.
- User accounts, passwords and JWT tokens (`user_router.py`, `core/security.py`), the item stubs, health and hello endpoints are not part of this model.
- `tests/test_customer.py` expects status 202 from a create that the router declares as 201. Status codes are not modelled.

## Findings

| source | as written | input that shows it | evidently intended | confidence | as-written member | corrected member |
|---|---|---|---|---|---|---|
| flasx/routers/v1/sender_router.py:104-112 | the email conflict check runs only `if sender_update.email:`, so an empty string skips it (the same guard appears in every update handler) | sender 1 stored with email "", sender 2 updated with email "" | the conflict check runs whenever the column is supplied, so a held value is refused | high (not executed) | Contacts.EmptyEmailSlipsPastAsWrittenGuard | Store.GuardedUpdateKeepsUnique |
| flasx/routers/v1/receivers.py:63 | `global next_id` names a variable that the module never assigns, so the first read raises NameError | any create on the freshly imported module | the counter starts at 1 and each create takes the next id | high (not executed) | ReceiverMemory.NoCreateSucceedsAsWritten | ReceiverMemory.FirstReceiverStored |

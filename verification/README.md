# Fleet manager: a Dafny model

This project models the core of a small Java fleet-management program. A
*vehicle* has an id, a model name, a top speed, a mileage and a fuel tank.
There are four concrete kinds:

- a **car** carries up to 5 passengers;
- a **truck** carries up to 5000 kg of cargo, held in an `int`;
- a **bus** carries 50 passengers and 500 kg;
- a **cargo ship** carries 50000 kg and may sail, which means it uses no fuel.

Each kind implements some of these interfaces: fuel consumption, passengers,
cargo and maintenance. The **fleet manager** keeps a list of vehicles and,
beside it, a set of model names. It adds and removes vehicles, starts a
journey for every vehicle, burns fuel fleet-wide and services vehicles. It
also searches by class, sorts, finds the fastest and slowest vehicle,
summarises the fleet in a report, and saves the fleet to a comma-separated
file and loads it back through a vehicle factory.

The model is organised as follows:

- `Errors` turns the exceptions into `Result` values.
- `Text` models the parts of `java.lang.String` that are used: `trim`,
  `split(",", -1)`, `Boolean.parseBoolean`, `compareTo` (on UTF-16 code
  units, as Java stores strings) and the ASCII part of `compareToIgnoreCase`.
- `Numbers` models `%d`, `%.2f` (HALF_UP rounding to hundredths),
  `Integer.parseInt` and the decimal forms of `Double.parseDouble`.
- `Sequences` holds order-preserving filtering and a stable insertion sort.
- `Vehicles` holds the four kinds as one `Vehicle` record with a `Body` per
  kind.
- `VehicleLaws` holds the laws that relate vehicle operations to each other.
- `Fleets` holds the manager.
- `Records` holds the file format and the factory.
- `BoardingOverflow` holds the boarding check as written, in 32-bit `int`
  arithmetic. It is the subject of the finding below.

Doubles are modelled as exact reals. A Java `int` field is an unbounded
`int` except where the 32-bit width matters: the truck's cargo, the wheel
count read back by `Integer.parseInt`, and the boarding sum.

Two behaviours of the program worth knowing:

- A car read back from a file has an empty tank. The factory's car branch
  never calls `refuel`.
- An unknown id in `removeVehicle` raises the same invalid-operation error
  as every other refusal. There is no separate not-found error.

## Model

| member | source | states |
|---|---|---|
| Vehicles.CheckId | src/vehicles/Vehicle.java:11-20 | an id is refused exactly when it has no character above U+0020, i.e. when `trim()` leaves it empty |
| Vehicles.Construct | src/vehicles/Vehicle.java:11-20 | construction fails exactly for a blank id; otherwise it keeps id, model, speed and mileage and starts with an empty tank and no maintenance scheduled |
| Vehicles.NewCar | src/vehicles/Car.java:18-24 | a new car exists iff its id is not blank, and carries no passengers and no fuel |
| Vehicles.NewTruck | src/vehicles/Truck.java:18-24 | a new truck exists iff its id is not blank, and carries no cargo and no fuel |
| Vehicles.NewBus | src/vehicles/Bus.java:21-27 | a new bus exists iff its id is not blank, and carries no passengers, no cargo and no fuel |
| Vehicles.NewCargoShip | src/vehicles/CargoShip.java:17-23 | a new ship exists iff its id is not blank, keeps its sail flag, and has an empty hold and tank |
| Vehicles.Efficiency | src/vehicles/Truck.java:44-51 | efficiency is 0 exactly for a sailing ship, lies between the ship's 4 and the car's 15, and a truck loses efficiency exactly when loaded over half its capacity |
| Vehicles.CompareTo | src/vehicles/Vehicle.java:46-51 | `compareTo` is negative exactly when the first vehicle is more efficient, positive exactly when it is less efficient |
| Vehicles.LandJourneyTime | src/vehicles/LandVehicle.java:13-19 | a land journey's time times the top speed is the distance plus 10%, so never less than distance over top speed |
| Vehicles.WaterJourneyTime | src/vehicles/WaterVehicle.java:18-22 | a water journey's time times the top speed is the distance plus 15%, so never less than distance over top speed |
| Vehicles.JourneyTime | src/vehicles/Vehicle.java:58 | `estimateJourneyTime` dispatches by domain: a land vehicle gets the 10% overhead and a water vehicle the 15% one, and no journey is faster than top speed |
| Vehicles.FuelFor | src/vehicles/Car.java:32 | the fuel a trip needs is the distance over the efficiency (fuel times efficiency gives back the distance), none for a sailing ship, and never negative for a forward trip |
| Vehicles.Move | src/vehicles/CargoShip.java:25-47 | a negative distance is an invalid operation; a sailing ship always moves; any other vehicle moves iff it holds the fuel the trip takes, and then mileage grows by the distance and fuel drops by exactly that fuel; the invariant is kept |
| Vehicles.Refuel | src/vehicles/CargoShip.java:105-114 | refuelling succeeds iff the amount is positive and the vehicle does not sail; the tank grows by exactly the amount and the invariant is kept |
| Vehicles.FuelLevel | src/vehicles/CargoShip.java:116-119 | a sailing ship reports an empty tank, every other valid vehicle its tank |
| Vehicles.ConsumeFuel | src/vehicles/CargoShip.java:121-132 | consumption succeeds iff the vehicle sails or holds enough fuel, reports the fuel burnt and removes exactly that; with no sign check, a non-positive distance never fails |
| Vehicles.Board | src/vehicles/Bus.java:77-87 | boarding succeeds iff the count is positive and the seats suffice; a non-positive count is an invalid operation, too many passengers an overload; on success the passengers grow by exactly the count |
| Vehicles.Disembark | src/vehicles/Bus.java:88-97 | disembarking succeeds iff 0 < count <= passengers, and then the passengers drop by exactly the count |
| Vehicles.LoadCargo | src/vehicles/Truck.java:76-86 | loading succeeds iff the weight is positive and fits; otherwise it is an invalid operation or an overload; a bus or ship gains exactly the weight, a truck's `int` cargo keeps the whole part of the sum |
| Vehicles.UnloadCargo | src/vehicles/Truck.java:87-97 | unloading succeeds iff 0 < weight <= cargo, and then a bus or ship loses exactly the weight and a truck the truncated difference |
| Vehicles.SetCargo | src/vehicles/Truck.java:84 | storing a load in a truck truncates it to whole kilograms and never below a smaller earlier load; other kinds store it exactly |
| Vehicles.TruncateToInt | src/vehicles/Truck.java:84 | the `int` conversion of a non-negative double is its whole part |
| Vehicles.ScheduleMaintenance | src/vehicles/Car.java:106-110 | after scheduling, the vehicle needs maintenance and nothing else has changed |
| Vehicles.NeedsMaintenance | src/vehicles/Car.java:112-114 | a vehicle needs maintenance when its mileage is over 10000 or maintenance was scheduled; `VehicleLaws.NeedLastsUntilService` states how the need evolves |
| Vehicles.PerformMaintenance | src/vehicles/Car.java:111-120 | after servicing, a vehicle still needs maintenance exactly when its mileage is over 10000, and only the flag has changed |
| VehicleLaws.Apply | src/vehicles/Bus.java:12-155 | any single successful interface call keeps identity, kind parameters and the invariant, never lowers mileage, changes mileage only when it is a move, and lowers the maintenance flag only when it is a service; boarding is the corrected check of `Vehicles.Board`, not the overflowing one of the finding below |
| VehicleLaws.RunKeepsInvariant | src/vehicles/Bus.java:12-155 | over any sequence of calls, some of them throwing, a valid vehicle stays valid, keeps its identity and never loses mileage; this holds with the corrected boarding check, and `BoardingOverflow.AsWrittenDiffersExactlyOnOverflow` shows the check as written breaks it |
| VehicleLaws.RunWithoutDrivingKeepsMileage | src/vehicles/Vehicle.java:42-44 | only `move` changes the mileage |
| VehicleLaws.NeedLastsUntilService | src/vehicles/Car.java:106-120 | a vehicle that needs maintenance keeps needing it over any sequence of calls without `performMaintenance` |
| VehicleLaws.RefuelThenConsume | src/vehicles/Car.java:49-72 | refuelling `a` and then consuming for the distance `a` buys restores the vehicle and reports `a` burnt |
| VehicleLaws.MoveIsConsumeAndAdvance | src/vehicles/Car.java:26-72 | a move succeeds iff the same consumption does, and is that consumption plus the added mileage |
| VehicleLaws.BoardThenDisembark | src/vehicles/Car.java:73-95 | disembarking what was just boarded restores the vehicle |
| VehicleLaws.DisembarkThenBoard | src/vehicles/Car.java:73-95 | boarding what was just disembarked restores the vehicle |
| VehicleLaws.LoadThenUnload | src/vehicles/CargoShip.java:57-77 | on a bus or a ship, unloading what was just loaded restores the vehicle |
| VehicleLaws.TruckLoadThenUnloadWhole | src/vehicles/Truck.java:76-97 | on a truck the same round trip holds for whole kilograms |
| VehicleLaws.TruckDropsFractionalLoad | src/vehicles/Truck.java:76-86 | a truck accepts a load under one kilogram and keeps none of it |
| VehicleLaws.MaintenanceCycle | src/vehicles/Car.java:106-120 | scheduling forces the need; servicing undoes scheduling and is idempotent; afterwards the need remains exactly over 10000 km |
| VehicleLaws.SailingShipNeverFuels | src/vehicles/CargoShip.java:25-132 | a sailing ship has efficiency 0 and an empty reported tank, moves any non-negative distance for free, refuses every refuel and consumes nothing |
| VehicleLaws.CompareToIsTotalPreorder | src/vehicles/Vehicle.java:46-51 | the natural order is antisymmetric and transitive, and is 0 exactly for equal efficiencies |
| VehicleLaws.LandJourneyMonotone | src/vehicles/LandVehicle.java:13-19 | an empty journey takes no time and a longer one never takes less |
| VehicleLaws.WaterNoFasterThanLand | src/vehicles/WaterVehicle.java:18-22 | at equal top speed water travel never beats land travel, and is strictly slower for any positive distance |
| BoardingOverflow.BoardAsWritten | src/vehicles/Car.java:73-84 | the boarding check as written agrees with `Vehicles.Board` whenever the 32-bit sum does not overflow, and stores the wrapped sum |
| BoardingOverflow.AsWrittenDiffersExactlyOnOverflow | src/vehicles/Bus.java:77-87 | from any valid state the as-written check differs from the intended one exactly when the sum passes `Integer.MAX_VALUE`, and then it accepts and breaks the seat invariant |
| BoardingOverflow.CarBoardOverflow | src/vehicles/Car.java:78 | a car with one passenger accepts `Integer.MAX_VALUE` more and ends with `Integer.MIN_VALUE` passengers |
| BoardingOverflow.BusBoardOverflow | src/vehicles/Bus.java:82 | a bus with one passenger does the same |
| BoardingOverflow.Wrap32 | src/vehicles/Car.java:78 | 32-bit wrap-around lands in `int` range, is the identity there, and differs from the exact value by a multiple of 2^32 |
| Fleets.EmptyFleet | src/fleet/FleetManager.java:15-20 | a new manager has no vehicles, no models, and keeps the fleet invariant |
| Fleets.IndexOfId | src/fleet/FleetManager.java:42-45 | the search stops at the first vehicle carrying the id, or past the end when none does |
| Fleets.AddVehicle | src/fleet/FleetManager.java:22-37 | adding is refused exactly when the id is already present; otherwise the vehicle is appended, its model joins the set, the rest of the set is unchanged, and the invariant is kept |
| Fleets.RemoveVehicle | src/fleet/FleetManager.java:40-60 | removal succeeds iff some vehicle has the id, and then takes off exactly the first vehicle carrying it, the others keeping their order; a missing id leaves the list and prunes unused models; the model set stays the set of models in use, with or without unique ids; the fleet invariant is kept; under it removal equals filtering the id out, and failure changes nothing |
| Fleets.RemoveFirstIsFilter | src/fleet/FleetManager.java:42-55 | with unique ids, deleting the first vehicle with the id is the same as keeping all others |
| Fleets.RemoveKeepsUnique | src/fleet/FleetManager.java:47 | deleting a vehicle keeps ids unique |
| Fleets.DistinctModels | src/fleet/FleetManager.java:62-65 | `getDistinctModels` has exactly the models of the set, in strictly increasing `compareTo` order |
| Fleets.AscendingUnique | src/fleet/FleetManager.java:62-65 | a sorted set's enumeration is determined by its elements |
| Fleets.LookupFindsEntry | src/fleet/FleetManager.java:69 | a key is absent from the journal exactly when no entry carries it, and a present key's value is an entry's |
| Fleets.PutLookup | src/fleet/FleetManager.java:73-79 | after `put(k, s)`, `k` maps to `s` and every other key is unchanged |
| Fleets.PutNewKey | src/fleet/FleetManager.java:73-79 | a `put` under a new key appends exactly one entry at the end |
| Fleets.PutPresentKey | src/fleet/FleetManager.java:73-79 | a `put` under a present key keeps the number of entries |
| Fleets.Journey | src/fleet/FleetManager.java:70-81 | one vehicle's journey succeeds iff its move does, and then the vehicle is exactly the moved one: mileage advanced and the trip's fuel burnt; a failure leaves the vehicle unchanged and records an invalid operation for a negative distance, else insufficient fuel |
| Fleets.StartAllJourneys | src/fleet/FleetManager.java:68-83 | every vehicle makes its own journey whatever the others do; every id is in the journal, and with unique ids the journal is exactly the vehicles' statuses in fleet order; the fleet invariant and vehicle invariants are kept |
| Fleets.WriteJournal | src/fleet/FleetManager.java:69-81 | writing one `put` per vehicle leaves every id present, and with unique ids the entries are the statuses in fleet order |
| Fleets.Burn | src/fleet/FleetManager.java:88-97 | a vehicle short of fuel is skipped and counts 0; otherwise it loses and reports exactly the fuel for the distance; only the tank changes |
| Fleets.ConsumeFuelForAll | src/fleet/FleetManager.java:85-100 | each vehicle burns as if alone; the returned total is exactly the fuel that left the fleet, non-negative for a non-negative distance; mileage, models and invariants are kept |
| Fleets.BurnAll | src/fleet/FleetManager.java:86-99 | the loop's running total equals the fuel removed so far |
| Fleets.MaintainEach | src/fleet/FleetManager.java:117-126 | after servicing, a vehicle needs maintenance exactly when its mileage is over 10000, and only the flags change |
| Fleets.MaintainAll | src/fleet/FleetManager.java:117-126 | as above for the fleet; models and invariants are kept |
| Fleets.SearchByType | src/fleet/FleetManager.java:128-134 | the result holds exactly the fleet's vehicles of the asked type |
| Fleets.SearchKeepsOrder | src/fleet/FleetManager.java:128-134 | the search keeps fleet order: it distributes over concatenation |
| Fleets.SearchAnyIsFleet | src/fleet/FleetManager.java:128-134 | searching for `Vehicle` returns the whole fleet in order |
| Fleets.VehiclesNeedingMaintenance | src/fleet/FleetManager.java:202-210 | the result holds exactly the fleet's vehicles that need maintenance |
| Fleets.MaintainAllLeavesHighMileage | src/fleet/FleetManager.java:117-126 | after `maintainAll` the vehicles needing maintenance are exactly those over 10000 km |
| Fleets.SortedBySpeed | src/fleet/FleetManager.java:137-143 | a permutation of the fleet with top speeds non-increasing |
| Fleets.SortedByModel | src/fleet/FleetManager.java:145-151 | a permutation of the fleet in case-insensitive model order |
| Fleets.SortedByEfficiency | src/fleet/FleetManager.java:152-158 | a permutation of the fleet with efficiencies non-increasing, agreeing with the natural order |
| Fleets.SortsAreStable | src/fleet/FleetManager.java:137-158 | all three sorts keep the fleet order of vehicles with equal keys |
| Fleets.GreaterIsStrictTotalOrder | src/fleet/FleetManager.java:139-140 | the reversed speed comparator is a strict total order on speeds |
| Fleets.LexLessIsStrictTotalOrder | src/fleet/FleetManager.java:147 | `compareTo` on strings is a strict total order |
| Fleets.Fastest | src/fleet/FleetManager.java:159-163 | absent exactly for an empty fleet; otherwise the first vehicle whose top speed no other exceeds |
| Fleets.Slowest | src/fleet/FleetManager.java:164-168 | absent exactly for an empty fleet; otherwise the first vehicle whose top speed no other undercuts |
| Fleets.KindTable | src/fleet/FleetManager.java:178-196 | the per-class table holds each counted class once, with its count, in class-name order, and the counts add up |
| Fleets.KindCountsAddUp | src/fleet/FleetManager.java:185-186 | the four class counts add up to the fleet size |
| Fleets.CountSumSkipsZeros | src/fleet/FleetManager.java:186 | leaving out classes with no vehicle does not change the total |
| Fleets.KindSummary | src/fleet/FleetManager.java:178-196 | one entry per class present, each with its true count, in class-name order, totalling the fleet size |
| Fleets.PresentKindListed | src/fleet/FleetManager.java:186 | every vehicle's class appears in the table with its count |
| Fleets.EfficiencySumBounds | src/fleet/FleetManager.java:187 | the summed efficiency of n fuel-burning vehicles lies between 4n and 15n |
| Fleets.AverageEfficiency | src/fleet/FleetManager.java:187-197 | the average is absent exactly when every vehicle sails, and otherwise lies between 4 and 15 |
| Fleets.MeanEfficiency | src/fleet/FleetManager.java:187-197 | over fuel-burning vehicles the mean is absent iff there are none, lies between 4 and 15, and times the count equals the sum |
| Fleets.NoneBurnsIffAllSail | src/fleet/FleetManager.java:187 | no vehicle is counted in the average exactly when all of them sail |
| Fleets.GenerateReport | src/fleet/FleetManager.java:173-200 | the report's count is the fleet size; its per-class counts are true, positive, in class-name order and sum to the size; the mileage is the sum; the average is as above; the maintenance count is the length of `getVehiclesNeedingMaintenance` |
| Fleets.KindCountIsSearch | src/fleet/FleetManager.java:186 | a class count in the report is the size of `searchByType` for that class |
| Fleets.SameLabelsKeepGood | src/fleet/FleetManager.java:12-15 | changing vehicles while keeping ids and models in place keeps the model set and the fleet invariant |
| Fleets.ModelsOfAppend | src/fleet/FleetManager.java:31-32 | appending a vehicle adds exactly its model to the models present |
| Fleets.ModelsOfRemove | src/fleet/FleetManager.java:47-53 | the models present are those of the other vehicles plus the removed one's |
| Sequences.Filter | src/fleet/FleetManager.java:128-134 | filtering keeps only elements that pass and never grows |
| Sequences.FilterMembers | src/fleet/FleetManager.java:128-134 | an element is in the result iff it is in the input and passes |
| Sequences.FilterConcat | src/fleet/FleetManager.java:128-134 | filtering distributes over concatenation, so input order is kept |
| Sequences.FilterIdempotent | src/fleet/FleetManager.java:202-210 | filtering twice equals filtering once |
| Sequences.FilterKeepsPairwise | src/fleet/FleetManager.java:202-210 | an order relation between earlier and later elements survives filtering |
| Sequences.Sort | src/fleet/FleetManager.java:137-143 | sorting yields a permutation of its input |
| Sequences.InsertPermutes | src/fleet/FleetManager.java:137-143 | one insertion adds the element and loses nothing |
| Sequences.SortIsSorted | src/fleet/FleetManager.java:137-158 | under a strict total order on keys, the result is ordered by key |
| Sequences.SortIsStable | src/fleet/FleetManager.java:137-158 | elements sharing a key keep their relative order (the stability of `List.sort`) |
| Text.TrimStrips | src/fleet/FleetManager.java:263 | `trim` cuts a string into a blank prefix, the result and a blank suffix, returns empty exactly for a blank string, and otherwise starts and ends above U+0020 |
| Text.TrimUnpadded | src/fleet/FleetManager.java:292 | a string without blank ends is its own trim |
| Text.SplitJoin | src/fleet/FleetManager.java:284-286 | splitting a record joined from separator-free fields gives back the fields |
| Text.JoinSplit | src/fleet/FleetManager.java:284-286 | joining the fields of a split line gives back the line |
| Text.Split | src/fleet/FleetManager.java:284-286 | `split(",", -1)` yields at least one field and no field holds the separator |
| Text.ParseShowBoolean | src/fleet/FleetManager.java:347 | `Boolean.parseBoolean` reads `%b` output back |
| Text.ParseBoolean | src/fleet/FleetManager.java:347 | only a four-letter text can read as true; "true" and "TRUE" do, "false" does not |
| Text.LexTransitive | src/fleet/FleetManager.java:147 | string order is transitive |
| Text.LexConnected | src/fleet/FleetManager.java:147 | distinct strings are ordered one way or the other |
| Text.LexIrreflexive | src/fleet/FleetManager.java:147 | no string comes before itself |
| Text.LexLessIsCodeUnitOrder | src/fleet/FleetManager.java:62-65 | the string order is lexicographic order on the UTF-16 code units, the order `compareTo` and the `TreeSet` of models use |
| Text.UnitsLessSharedPrefix | src/fleet/FleetManager.java:62-65 | a common prefix of code units does not decide the order |
| Text.FirstUnitsDecide | src/fleet/FleetManager.java:62-65 | the first differing characters decide the code-unit order, by their place in UTF-16 order |
| Text.SupplementaryBeforeHighBmp | src/fleet/FleetManager.java:62-65 | U+10000 sorts before U+FFFF, as its surrogate pair starts below U+E000 |
| Text.Units | src/fleet/FleetManager.java:62-65 | a character takes one code unit below U+10000 and two above, each a 16-bit value |
| Numbers.ParseShowInt | src/fleet/FleetManager.java:216-301 | every `int` written by `%d` reads back exactly through `Integer.parseInt` |
| Numbers.ParseInt | src/fleet/FleetManager.java:301 | `Integer.parseInt` accepts only an optional sign and digits, and only values in `int` range, with the sign of its text |
| Numbers.ParseUnsignedDigits | src/fleet/FleetManager.java:301 | conversely, ASCII digits parse to their value exactly when it is in `int` range, and fail otherwise |
| Numbers.ParseSignedDigits | src/fleet/FleetManager.java:301 | the same after a sign: a minus negates the value, a plus keeps it |
| Numbers.ParseReal | src/fleet/FleetManager.java:299-300 | `Double.parseDouble` accepts only text that is not blank after trimming, and the value is non-positive exactly after a leading minus and non-negative otherwise; `Numbers.ParseShowFixed2` gives the round trip with `%.2f` |
| Numbers.ShowNatValue | src/fleet/FleetManager.java:216 | the decimal digits of a natural number have that number as their value |
| Numbers.Round2 | src/fleet/FleetManager.java:216 | HALF_UP rounding to hundredths moves a value by at most half a hundredth and keeps its sign |
| Numbers.Cents | src/fleet/FleetManager.java:216 | the hundredths count is `x * 100` rounded half away from zero |
| Numbers.Round2Idempotent | src/fleet/FleetManager.java:216 | rounding a rounded value changes nothing |
| Numbers.Round2Exact | src/fleet/FleetManager.java:216 | a whole number of hundredths is its own rounding |
| Numbers.ShowFixed2 | src/fleet/FleetManager.java:216 | `%.2f` writes a minus sign exactly for a negative value, then digits, a point and two digits |
| Numbers.ParseShowFixed2 | src/fleet/FleetManager.java:216-300 | `%.2f` text reads back through `Double.parseDouble` as the value rounded to hundredths |
| Numbers.ParseTrimmedShow | src/fleet/FleetManager.java:216-300 | the same without the surrounding trim, for either sign |
| Numbers.ShowFixed2Numeral | src/fleet/FleetManager.java:216 | `%.2f` writes only digits, minus signs and points, never a separator |
| Numbers.ShowIntNumeral | src/fleet/FleetManager.java:216 | `%d` writes only digits and a minus sign, never a separator |
| Records.JavaReadsBack | src/fleet/FleetManager.java:216-301 | the source's number formats read back: reals rounded to hundredths, `int`s exactly, and no number contains a comma |
| Records.RefuelFromField | src/fleet/FleetManager.java:312-313 | the factory's ignored refuel changes the vehicle exactly when the field parses to a positive amount and the vehicle does not sail, adding exactly that amount |
| Records.Parsed | src/fleet/FleetManager.java:299-301 | a number that does not parse is a number-format error |
| Records.Build | src/fleet/FleetManager.java:295-352 | a kind branch fails exactly for a blank id or an unreadable wheel count; otherwise it builds the named kind with the given id, model, speed and mileage, valid, unloaded and unflagged, and a car with no fuel |
| Records.CreateVehicle | src/fleet/FleetManager.java:289-357 | an unknown kind, an empty or short record is an invalid operation; a vehicle it builds has the trimmed first field as its kind, the record's id and model, the parsed speed and mileage, a non-blank id, no passengers, cargo or flag, and a car gets no fuel |
| Records.ReadWithValid | src/fleet/FleetManager.java:289-357 | every vehicle the split-then-factory reader builds is valid |
| Records.LoadLine | src/fleet/FleetManager.java:260-272 | a line contributes a vehicle iff it is not blank and the reader accepts it, and then exactly that vehicle |
| Records.LoadLines | src/fleet/FleetManager.java:256-272 | loading yields at most one vehicle per line |
| Records.LoadedValid | src/fleet/FleetManager.java:256-272 | a reader that builds only valid vehicles loads only valid vehicles |
| Records.LoadAccepted | src/fleet/FleetManager.java:260-272 | lines that are all non-blank and all accepted load as exactly the vehicles read from them, in file order |
| Records.LoadLinesConcat | src/fleet/FleetManager.java:260-272 | loading distributes over the lines: no line affects another |
| Records.LoadFromFile | src/fleet/FleetManager.java:274-281 | the fleet becomes the loaded vehicles with the model set rebuilt from them; the fleet invariant holds exactly when the loaded ids are unique |
| Records.Reloaded | src/fleet/FleetManager.java:212-352 | what a saved vehicle comes back as is valid and unflagged, keeps id, model and kind, and has no passengers or cargo |
| Records.Fields | src/fleet/FleetManager.java:214-250 | a record starts with the kind, the id and the model, and has exactly as many fields as the factory demands of that kind |
| Records.SaveLines | src/fleet/FleetManager.java:214-252 | one record per vehicle, record `i` being vehicle `i`'s |
| Records.SaveToFile | src/fleet/FleetManager.java:212-254 | the file has one record per vehicle, in fleet order; `Records.SplitSaveLine` gives each record's fields and `Records.SaveLoadRoundTrip` what loading the file gives back |
| Records.SplitSaveLine | src/fleet/FleetManager.java:214-250 | the saved record of a vehicle with plain id and model splits back into the fields written |
| Records.FieldsArePlain | src/fleet/FleetManager.java:214-250 | no written field contains the separator |
| Records.ReadCommonFields | src/fleet/FleetManager.java:292-300 | the factory reads a saved record's kind, id, model, speed, mileage and fuel level back |
| Records.BuildSaved | src/fleet/FleetManager.java:295-352 | each kind branch rebuilds a saved vehicle as `Reloaded` says |
| Records.CreateSaved | src/fleet/FleetManager.java:289-357 | the factory turns the fields of a saved vehicle into its reloaded form |
| Records.ParseSaveLine | src/fleet/FleetManager.java:212-357 | a saved record reads back as the vehicle rounded to hundredths, with a car's fuel, passengers, cargo and the maintenance flag lost |
| Records.SaveLineNotBlank | src/fleet/FleetManager.java:263 | a saved record is never skipped as blank |
| Records.LoadSavedLines | src/fleet/FleetManager.java:212-282 | loading the saved lines gives back each vehicle's reloaded form, in order |
| Records.ReloadAllKeepsNames | src/fleet/FleetManager.java:297-298 | reloading keeps every id and model in place |
| Records.ReloadAllKeepsModels | src/fleet/FleetManager.java:278-280 | reloading keeps the set of models present |
| Records.ReloadAllKeepsUniqueIds | src/fleet/FleetManager.java:297 | reloading keeps distinct ids distinct |
| Records.SaveLoadRoundTrip | src/fleet/FleetManager.java:212-282 | saving and loading a fleet of storable vehicles gives every vehicle back in its reloaded form, in order, with the same model set, and a fleet that kept its invariant still does |
| Records.JavaSaveLoadRoundTrip | src/fleet/FleetManager.java:212-282 | the same with the source's own number formats |
| Records.ReloadedIdempotent | src/fleet/FleetManager.java:212-357 | a second save and load changes nothing more, and storable vehicles stay storable |
| Records.LoadKeepsDuplicateIds | src/fleet/FleetManager.java:256-281 | a file with a repeated id loads both vehicles and so breaks the unique-id invariant |
| Records.CarLosesFuelAndPassengers | src/fleet/FleetManager.java:295-304 | a car saved with 10 litres and 2 passengers reads back with neither |

## Left out

- Printing: `displayInfo`, `displayFleet`, the console messages, exception message texts and the report's string layout. The report's figures are modelled and its text is not.
- `Airplane` is not part of this model. A record whose kind is `Airplane` is refused like an unknown kind, so it is skipped on load, whereas the source would build an airplane from a long enough record.
- File I/O: a file is its sequence of lines. Writing the lines with line separators and splitting them again by `readLine` is not modelled, so `Records.Storable` requires the id and model to hold no line break.
- A `null` vehicle or id (`Objects.requireNonNull`, the null check in the `Vehicle` constructor): Dafny values are never null.
- `Numbers.ParseReal`: reads only the plain decimal forms (sign, digits, optional point, digits). Exponents, hexadecimal, `NaN`, `Infinity` and the `d`/`f` suffixes that `Double.parseDouble` also accepts are read as errors, and only ASCII digits count.
- IEEE double arithmetic: doubles are exact reals, so rounding error, `NaN` and infinities do not arise. A zero top speed (division by zero in the journey time) is excluded by the journey-time functions' precondition.
- The `%.2f` locale: the decimal separator is always a point.
- `Fleets.SortedByModel`: `compareToIgnoreCase` is modelled by ASCII case folding only. Unicode case folding is not, and characters above U+FFFF are compared by their UTF-16 code units like `compareTo` does.
- `VehicleLaws.Apply`: boarding is the corrected check of `Vehicles.Board`. With the overflowing check as written, the seat invariant of `VehicleLaws.RunKeepsInvariant` fails, as the finding below shows.
- `Numbers.ParseInt`: only ASCII digits count. `Integer.parseInt` also accepts the other Unicode decimal digits (for example U+0664), so a wheel count written with them loads in the source and is refused here.
- `Fleets.AverageEfficiency`: states the None case and the bounds. The exact mean (mean times count equals sum) is stated on `Fleets.MeanEfficiency`, which it calls on the fuel-burning vehicles.
- `Fleets.GenerateReport`: the source gathers all figures in one pass. Here each figure is its own fold; the values are the same.
- `Records.SaveLoadRoundTrip`: the file is read back by the number notation the record format is given. The round trip is proved for any notation that reads its own output back, and `Records.JavaReadsBack` shows that the source's formats do.
- `Vehicles.JourneyTime` (`estimateJourneyTime`) is a pure function. Nothing in the core calls it.

## Findings

| source | as written | input that shows it | evidently intended | confidence | as-written member | corrected member |
|---|---|---|---|---|---|---|
| src/vehicles/Car.java:78 | `currentPassengers+count > passengerCapacity` is computed in 32-bit `int`, so a large count wraps the sum negative and passes the check | a car with 1 passenger boards `Integer.MAX_VALUE`: the check passes and the car ends with `Integer.MIN_VALUE` passengers | refuse any count that takes the passengers past the capacity | not executed | BoardingOverflow.CarBoardOverflow | Vehicles.Board |
| src/vehicles/Bus.java:82 | the same `int` sum in the bus's check | a bus with 1 passenger boards `Integer.MAX_VALUE` and ends with `Integer.MIN_VALUE` passengers | the same | not executed | BoardingOverflow.BusBoardOverflow | Vehicles.Board |

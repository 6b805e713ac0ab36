/** Properties of single vehicles that relate several operations: inverse
    pairs, the invariant every operation keeps, the frame of each operation,
    and the orderings defined on vehicles. */
module VehicleLaws {
  import opened Errors
  import opened Vehicles

  /** One call a client can make on a vehicle through its interfaces. */
  datatype Op =
    | Drive(distance: real)
    | AddFuel(amount: real)
    | BurnFuel(distance: real)
    | Embark(count: int)
    | Alight(count: int)
    | Stow(weight: real)
    | Unstow(weight: real)
    | Schedule
    | Service

  /** The call type-checks: the vehicle implements the interface declaring it. */
  predicate Supports(v: Vehicle, op: Op) {
    match op
    case Embark(_) => Has(v, PassengerCarrier)
    case Alight(_) => Has(v, PassengerCarrier)
    case Stow(_) => Has(v, CargoCarrier)
    case Unstow(_) => Has(v, CargoCarrier)
    case _ => true
  }

  /** Identity, kind and kind parameters agree: what no operation may change. */
  predicate SameIdentity(a: Vehicle, b: Vehicle) {
    a.id == b.id && a.model == b.model && a.maxSpeed == b.maxSpeed && SameShape(a.body, b.body)
  }

  /** Perform one call; `Failure` means the exception was thrown. */
  function Apply(v: Vehicle, op: Op): (r: Result<Vehicle>)
    requires Supports(v, op)
    ensures r.Success? ==> SameIdentity(v, r.value)
    ensures r.Success? && Valid(v) ==> Valid(r.value)
    ensures r.Success? ==> r.value.mileage >= v.mileage
    ensures r.Success? && !op.Drive? ==> r.value.mileage == v.mileage
    ensures r.Success? && !op.Service? && v.maintenanceFlag ==> r.value.maintenanceFlag
  {
    match op
    case Drive(d) => Move(v, d)
    case AddFuel(a) => Refuel(v, a)
    case BurnFuel(d) =>
      (match ConsumeFuel(v, d)
       case Success(p) => Success(p.0)
       case Failure(e) => Failure(e))
    case Embark(n) => Board(v, n)
    case Alight(n) => Disembark(v, n)
    case Stow(w) => LoadCargo(v, w)
    case Unstow(w) => UnloadCargo(v, w)
    case Schedule => Success(ScheduleMaintenance(v))
    case Service => Success(PerformMaintenance(v))
  }

  /** Every call of `ops` is supported by the vehicle's kind. */
  predicate AllSupported(v: Vehicle, ops: seq<Op>) {
    forall i | 0 <= i < |ops| :: Supports(v, ops[i])
  }

  /** Perform the calls in order; a call that throws leaves the vehicle as it was. */
  function Run(v: Vehicle, ops: seq<Op>): Vehicle
    requires AllSupported(v, ops)
    decreases |ops|
  {
    if |ops| == 0 then v
    else
      var next := match Apply(v, ops[0]) case Success(w) => w case Failure(_) => v;
      assert SameIdentity(v, next);
      assert forall i | 0 <= i < |ops[1..]| :: Supports(next, ops[1..][i]) by {
        forall i | 0 <= i < |ops[1..]| ensures Supports(next, ops[1..][i]) {
          assert Supports(v, ops[i + 1]);
        }
      }
      Run(next, ops[1..])
  }

  /** Over any sequence of calls, successful or not, a vehicle keeps its
      identity and the invariant (fuel never negative, loads within
      capacity), and its mileage never decreases. */
  lemma {:induction false} RunKeepsInvariant(v: Vehicle, ops: seq<Op>)
    requires AllSupported(v, ops)
    requires Valid(v)
    ensures Valid(Run(v, ops))
    ensures SameIdentity(v, Run(v, ops))
    ensures Run(v, ops).mileage >= v.mileage
    decreases |ops|
  {
    if |ops| > 0 {
      var next := match Apply(v, ops[0]) case Success(w) => w case Failure(_) => v;
      assert forall i | 0 <= i < |ops[1..]| :: Supports(next, ops[1..][i]) by {
        forall i | 0 <= i < |ops[1..]| ensures Supports(next, ops[1..][i]) {
          assert Supports(v, ops[i + 1]);
        }
      }
      RunKeepsInvariant(next, ops[1..]);
    }
  }

  /** Without a `Drive` call the mileage does not change. */
  lemma {:induction false} RunWithoutDrivingKeepsMileage(v: Vehicle, ops: seq<Op>)
    requires AllSupported(v, ops)
    requires forall i | 0 <= i < |ops| :: !ops[i].Drive?
    ensures Run(v, ops).mileage == v.mileage
    decreases |ops|
  {
    if |ops| > 0 {
      var next := match Apply(v, ops[0]) case Success(w) => w case Failure(_) => v;
      assert forall i | 0 <= i < |ops[1..]| :: Supports(next, ops[1..][i]) by {
        forall i | 0 <= i < |ops[1..]| ensures Supports(next, ops[1..][i]) {
          assert Supports(v, ops[i + 1]);
        }
      }
      RunWithoutDrivingKeepsMileage(next, ops[1..]);
    }
  }

  /** A vehicle that needs maintenance keeps needing it, whatever it is
      asked to do, until it is serviced: the flag is cleared only by
      `performMaintenance` and mileage never drops. */
  lemma {:induction false} NeedLastsUntilService(v: Vehicle, ops: seq<Op>)
    requires AllSupported(v, ops)
    requires forall i | 0 <= i < |ops| :: !ops[i].Service?
    requires NeedsMaintenance(v)
    ensures NeedsMaintenance(Run(v, ops))
    decreases |ops|
  {
    if |ops| > 0 {
      var next := match Apply(v, ops[0]) case Success(w) => w case Failure(_) => v;
      assert forall i | 0 <= i < |ops[1..]| :: Supports(next, ops[1..][i]) by {
        forall i | 0 <= i < |ops[1..]| ensures Supports(next, ops[1..][i]) {
          assert Supports(v, ops[i + 1]);
        }
      }
      NeedLastsUntilService(next, ops[1..]);
    }
  }

  // ------------------------------------------------------------- round trips

  /** Refuelling `a` and then consuming fuel for the distance `a` buys
      gives back the vehicle and reports `a` consumed. */
  lemma RefuelThenConsume(v: Vehicle, a: real)
    requires !Sailing(v) && v.fuel >= 0.0 && a > 0.0
    ensures Refuel(v, a).Success?
    ensures ConsumeFuel(Refuel(v, a).value, a * Efficiency(v)) == Success((v, a))
  {
    var e := Efficiency(v);
    assert e > 0.0;
    assert a * e / e == a;
  }

  /** A move is a fuel consumption for the same distance plus the mileage it adds. */
  lemma MoveIsConsumeAndAdvance(v: Vehicle, d: real)
    requires d >= 0.0
    ensures Move(v, d).Success? <==> ConsumeFuel(v, d).Success?
    ensures Move(v, d).Success? ==>
              Move(v, d).value == WithMileage(ConsumeFuel(v, d).value.0, v.mileage + d)
  {
  }

  /** Disembarking the passengers just boarded restores the vehicle. */
  lemma BoardThenDisembark(v: Vehicle, n: int)
    requires Has(v, PassengerCarrier) && Valid(v)
    requires Board(v, n).Success?
    ensures Disembark(Board(v, n).value, n) == Success(v)
  {
    assert SetPassengers(SetPassengers(v, Passengers(v) + n), Passengers(v)) == v;
  }

  /** Boarding the passengers just disembarked restores the vehicle. */
  lemma DisembarkThenBoard(v: Vehicle, n: int)
    requires Has(v, PassengerCarrier) && Valid(v)
    requires Disembark(v, n).Success?
    ensures Board(Disembark(v, n).value, n) == Success(v)
  {
    assert SetPassengers(SetPassengers(v, Passengers(v) - n), Passengers(v)) == v;
  }

  /** On a bus or a ship, unloading what was just loaded restores the vehicle. */
  lemma LoadThenUnload(v: Vehicle, w: real)
    requires Has(v, CargoCarrier) && !v.body.Truck? && Valid(v)
    requires LoadCargo(v, w).Success?
    ensures UnloadCargo(LoadCargo(v, w).value, w) == Success(v)
  {
    assert SetCargo(SetCargo(v, CurrentCargo(v) + w), CurrentCargo(v)) == v;
  }

  /** On a truck the round trip holds for whole kilograms. */
  lemma TruckLoadThenUnloadWhole(v: Vehicle, w: int)
    requires v.body.Truck? && Valid(v)
    requires LoadCargo(v, w as real).Success?
    ensures UnloadCargo(LoadCargo(v, w as real).value, w as real) == Success(v)
  {
    var kg := v.body.cargoKg;
    assert TruncateToInt((kg + w) as real) == kg + w;
    assert TruncateToInt((kg + w) as real - w as real) == kg;
  }

  /** A truck accepts a load lighter than one kilogram and keeps nothing of
      it: the `int` cargo field drops the fraction. */
  lemma TruckDropsFractionalLoad(v: Vehicle, w: real)
    requires v.body.Truck? && Valid(v)
    requires 0.0 < w < 1.0 && CurrentCargo(v) + w <= TruckCargoCapacity
    ensures LoadCargo(v, w) == Success(v)
  {
    var kg := v.body.cargoKg;
    TruncateKeepsWholePart(kg, kg as real + w);
    assert TruncateToInt(kg as real + w) == kg;
  }

  // ------------------------------------------------------------- maintenance

  /** Scheduling forces the predicate; servicing then leaves it exactly
      when the mileage is past the service mileage. */
  lemma MaintenanceCycle(v: Vehicle)
    ensures NeedsMaintenance(ScheduleMaintenance(v))
    ensures PerformMaintenance(ScheduleMaintenance(v)) == PerformMaintenance(v)
    ensures PerformMaintenance(PerformMaintenance(v)) == PerformMaintenance(v)
    ensures NeedsMaintenance(PerformMaintenance(ScheduleMaintenance(v))) <==> v.mileage > ServiceMileage
  {
  }

  // -------------------------------------------------------------- sail ships

  /** A sailing ship burns nothing, moves any non-negative distance, and
      refuses every refuel. */
  lemma SailingShipNeverFuels(v: Vehicle, d: real, a: real)
    requires Sailing(v) && Valid(v) && d >= 0.0
    ensures Efficiency(v) == 0.0 && FuelLevel(v) == 0.0
    ensures Move(v, d) == Success(v.(mileage := v.mileage + d))
    ensures Refuel(v, a) == Failure(InvalidOperation)
    ensures ConsumeFuel(v, d) == Success((v, 0.0))
  {
  }

  // ---------------------------------------------------------------- ordering

  /** The natural order is a total preorder: `compareTo` is antisymmetric,
      transitive, and 0 exactly for equal efficiencies. */
  lemma CompareToIsTotalPreorder(a: Vehicle, b: Vehicle, c: Vehicle)
    ensures CompareTo(a, b) == -CompareTo(b, a)
    ensures CompareTo(a, b) == 0 <==> Efficiency(a) == Efficiency(b)
    ensures CompareTo(a, b) <= 0 && CompareTo(b, c) <= 0 ==> CompareTo(a, c) <= 0
    ensures CompareTo(a, a) == 0
  {
  }

  // ------------------------------------------------------------ journey time

  /** A land journey of length 0 takes no time and longer ones never less. */
  lemma LandJourneyMonotone(maxSpeed: real, d1: real, d2: real)
    requires maxSpeed > 0.0 && 0.0 <= d1 <= d2
    ensures LandJourneyTime(maxSpeed, 0.0) == 0.0
    ensures LandJourneyTime(maxSpeed, d1) <= LandJourneyTime(maxSpeed, d2)
  {
    assert d1 / maxSpeed <= d2 / maxSpeed;
  }

  /** At the same top speed, water travel takes at least as long as land
      travel, and strictly longer for any positive distance. */
  lemma WaterNoFasterThanLand(maxSpeed: real, d: real)
    requires maxSpeed > 0.0 && d >= 0.0
    ensures WaterJourneyTime(maxSpeed, d) >= LandJourneyTime(maxSpeed, d)
    ensures WaterJourneyTime(maxSpeed, d) == LandJourneyTime(maxSpeed, d) <==> d == 0.0
  {
    assert d / maxSpeed >= 0.0;
    assert d > 0.0 ==> d / maxSpeed > 0.0;
  }
}

/** The vehicle kinds of the fleet and their guarded operations.

    The class hierarchy Vehicle -> LandVehicle / WaterVehicle -> Car, Truck,
    Bus, CargoShip becomes one record holding the state every concrete kind
    has (identity, kinematics, fuel tank, maintenance flag) and a `Body`
    holding the kind's own state. Fixed capacities are per-kind constants.
    Each mutator returns the updated vehicle or the error its Java
    counterpart throws, so a failing call leaves the vehicle as it was. */
module Vehicles {
  import opened Errors
  import opened Text

  const CarEfficiency: real := 15.0
  const TruckEfficiency: real := 8.0
  /** The truck loses 10% of its efficiency when more than half loaded. */
  const LoadedTruckFactor: real := 0.9
  const BusEfficiency: real := 10.0
  const MotorShipEfficiency: real := 4.0

  const CarSeats: int := 5
  const BusSeats: int := 50
  const TruckCargoCapacity: real := 5000.0
  const BusCargoCapacity: real := 500.0
  const ShipCargoCapacity: real := 50000.0

  /** Mileage above which a vehicle needs maintenance whatever its flag says. */
  const ServiceMileage: real := 10000.0

  /** Journey-time overheads of road and water travel. */
  const LandOverhead: real := 1.1
  const WaterOverhead: real := 1.15

  /** The state that only one concrete kind has. */
  datatype Body =
    | Car(wheels: int, passengers: int)
      /** The cargo of a truck is a Java `int`: fractional kilograms are cut off. */
    | Truck(wheels: int, cargoKg: int)
    | Bus(wheels: int, passengers: int, cargo: real)
    | CargoShip(hasSail: bool, cargo: real)

  /** `fuel` is the tank; a sailing ship reports 0 whatever it holds. */
  datatype Vehicle = Vehicle(
    id: string,
    model: string,
    maxSpeed: real,
    mileage: real,
    fuel: real,
    maintenanceFlag: bool,
    body: Body)

  datatype Domain = Land | Water

  /** Journey-time family: the three road kinds extend LandVehicle, the ship WaterVehicle. */
  function DomainOf(v: Vehicle): Domain {
    if v.body.CargoShip? then Water else Land
  }

  predicate Sailing(v: Vehicle) {
    v.body.CargoShip? && v.body.hasSail
  }

  datatype Capability = FuelConsumable | PassengerCarrier | CargoCarrier | Maintainable

  /** The interfaces each kind implements. */
  predicate Has(v: Vehicle, c: Capability) {
    match c
    case FuelConsumable => true
    case Maintainable => true
    case PassengerCarrier => v.body.Car? || v.body.Bus?
    case CargoCarrier => !v.body.Car?
  }

  /** The simple class name, as the report groups by it. */
  function KindName(v: Vehicle): string {
    match v.body
    case Car(_, _) => "Car"
    case Truck(_, _) => "Truck"
    case Bus(_, _, _) => "Bus"
    case CargoShip(_, _) => "CargoShip"
  }

  /** `getPassengerCapacity` (0 for kinds that carry no passengers). */
  function SeatCount(v: Vehicle): int {
    match v.body
    case Car(_, _) => CarSeats
    case Bus(_, _, _) => BusSeats
    case _ => 0
  }

  /** `getCurrentPassengers` (0 for kinds that carry no passengers). */
  function Passengers(v: Vehicle): int {
    match v.body
    case Car(_, p) => p
    case Bus(_, p, _) => p
    case _ => 0
  }

  /** `getCargoCapacity` (0 for kinds that carry no cargo). */
  function CargoCapacity(v: Vehicle): real {
    match v.body
    case Truck(_, _) => TruckCargoCapacity
    case Bus(_, _, _) => BusCargoCapacity
    case CargoShip(_, _) => ShipCargoCapacity
    case _ => 0.0
  }

  /** `getCurrentCargo`: the truck's integer cargo read as a double. */
  function CurrentCargo(v: Vehicle): real {
    match v.body
    case Truck(_, kg) => kg as real
    case Bus(_, _, c) => c
    case CargoShip(_, c) => c
    case _ => 0.0
  }

  /** The vehicle with its passenger count set to `p`; nothing else changes. */
  function SetPassengers(v: Vehicle, p: int): (r: Vehicle)
    requires Has(v, PassengerCarrier)
    ensures Passengers(r) == p
    ensures SeatCount(r) == SeatCount(v) && CurrentCargo(r) == CurrentCargo(v)
    ensures CargoCapacity(r) == CargoCapacity(v) && Sailing(r) == Sailing(v)
    ensures r.(body := v.body) == v && SameShape(v.body, r.body)
  {
    var body := match v.body
      case Car(w, _) => Car(w, p)
      case Bus(w, _, c) => Bus(w, p, c)
      case _ => v.body;
    v.(body := body)
  }

  /** Java's narrowing of a double to an int: the fraction is dropped,
      rounding toward zero (the cargo values here never leave the int range). */
  function TruncateToInt(x: real): (n: int)
    ensures x >= 0.0 ==> 0 <= n && n as real <= x < n as real + 1.0
  {
    if x >= 0.0 then x.Floor else -((-x).Floor)
  }

  /** Truncation never drops a whole kilogram below `x`. */
  lemma TruncateKeepsWholePart(k: int, x: real)
    ensures 0 <= k && k as real <= x ==> k <= TruncateToInt(x)
  {
    if 0 <= k && k as real <= x {
      var n := TruncateToInt(x);
      assert (k - n) as real < 1.0;
    }
  }

  /** The vehicle with its cargo set to `c` as Java's assignment into the
      cargo field does it: the truck's `int` field keeps the integer part. */
  function SetCargo(v: Vehicle, c: real): (r: Vehicle)
    requires Has(v, CargoCarrier)
    ensures v.body.Truck? && c >= 0.0 ==> 0.0 <= CurrentCargo(r) <= c < CurrentCargo(r) + 1.0
    ensures v.body.Truck? && 0.0 <= CurrentCargo(v) <= c ==> CurrentCargo(r) >= CurrentCargo(v)
    ensures !v.body.Truck? ==> CurrentCargo(r) == c
    ensures SeatCount(r) == SeatCount(v) && Passengers(r) == Passengers(v)
    ensures CargoCapacity(r) == CargoCapacity(v) && Sailing(r) == Sailing(v)
    ensures r.(body := v.body) == v && SameShape(v.body, r.body)
  {
    match v.body
    case Truck(w, kg) =>
      TruncateKeepsWholePart(kg, c);
      v.(body := Truck(w, TruncateToInt(c)))
    case Bus(w, p, _) => v.(body := Bus(w, p, c))
    case CargoShip(s, _) => v.(body := CargoShip(s, c))
    case Car(_, _) => v
  }

  /** The state every reachable vehicle is in: fuel is never negative, loads
      stay within capacity, and a sailing ship's tank stays empty. */
  predicate Valid(v: Vehicle) {
    && v.fuel >= 0.0
    && 0 <= Passengers(v) <= SeatCount(v)
    && 0.0 <= CurrentCargo(v) <= CargoCapacity(v)
    && (Sailing(v) ==> v.fuel == 0.0)
  }

  /** Kind and kind parameters (wheels, sail) agree: the fields no operation changes. */
  predicate SameShape(a: Body, b: Body) {
    match a
    case Car(w, _) => b.Car? && b.wheels == w
    case Truck(w, _) => b.Truck? && b.wheels == w
    case Bus(w, _, _) => b.Bus? && b.wheels == w
    case CargoShip(s, _) => b.CargoShip? && b.hasSail == s
  }

  // ---------------------------------------------------------------- Vehicle

  /** The base constructor's check: an empty or whitespace-only id is
      refused; any other id is accepted exactly as given. */
  function CheckId(id: string): (r: Outcome)
    ensures r.Pass? <==> exists i | 0 <= i < |id| :: id[i] > ' '
    ensures r.Fail? ==> r.error == InvalidOperation
  {
    TrimStrips(id);
    if Trim(id) == "" then Fail(InvalidOperation) else Pass
  }

  /** `setCurrentMileage`: the only way mileage changes. */
  function WithMileage(v: Vehicle, m: real): (r: Vehicle)
    ensures r.mileage == m
    ensures r.(mileage := v.mileage) == v
  {
    v.(mileage := m)
  }

  /** Fuel efficiency in km per litre; 0 means the movement burns no fuel. */
  function Efficiency(v: Vehicle): (e: real)
    ensures e == 0.0 <==> Sailing(v)
    ensures 0.0 <= e <= CarEfficiency
    ensures e == 0.0 || MotorShipEfficiency <= e
    ensures v.body.Truck? ==> (e < TruckEfficiency <==> CurrentCargo(v) > TruckCargoCapacity / 2.0)
  {
    match v.body
    case Car(_, _) => CarEfficiency
    case Truck(_, kg) =>
      if kg as real > TruckCargoCapacity * 0.5 then TruckEfficiency * LoadedTruckFactor else TruckEfficiency
    case Bus(_, _, _) => BusEfficiency
    case CargoShip(sail, _) => if sail then 0.0 else MotorShipEfficiency
  }

  /** Fuel a trip of `d` km takes: `d / efficiency`, or none when sailing. */
  function FuelFor(v: Vehicle, d: real): (l: real)
    ensures Sailing(v) ==> l == 0.0
    ensures !Sailing(v) ==> l * Efficiency(v) == d
    ensures d >= 0.0 ==> l >= 0.0
  {
    if Efficiency(v) == 0.0 then 0.0 else d / Efficiency(v)
  }

  /** `compareTo`: the efficiencies compared in reverse, so the natural
      order puts the more efficient vehicle first. */
  function CompareTo(a: Vehicle, b: Vehicle): (c: int)
    ensures c < 0 <==> Efficiency(a) > Efficiency(b)
    ensures c > 0 <==> Efficiency(a) < Efficiency(b)
    ensures -1 <= c <= 1
  {
    var o := Efficiency(b);
    var my := Efficiency(a);
    if o < my then -1 else if o > my then 1 else 0
  }

  // --------------------------------------------------- Land / Water vehicles

  /** `LandVehicle.estimateJourneyTime`: base time at top speed plus 10%. */
  function LandJourneyTime(maxSpeed: real, d: real): (t: real)
    requires maxSpeed != 0.0
    ensures t * maxSpeed == d * LandOverhead
    ensures maxSpeed > 0.0 && d >= 0.0 ==> t >= d / maxSpeed
  {
    (d / maxSpeed) * LandOverhead
  }

  /** `WaterVehicle.estimateJourneyTime`: base time at top speed plus 15%. */
  function WaterJourneyTime(maxSpeed: real, d: real): (t: real)
    requires maxSpeed != 0.0
    ensures t * maxSpeed == d * WaterOverhead
    ensures maxSpeed > 0.0 && d >= 0.0 ==> t >= d / maxSpeed
  {
    (d / maxSpeed) * WaterOverhead
  }

  /** `estimateJourneyTime`: the land or the water estimate, by the
      vehicle's domain. */
  function JourneyTime(v: Vehicle, d: real): (t: real)
    requires v.maxSpeed != 0.0
    ensures DomainOf(v) == Land ==> t * v.maxSpeed == d * LandOverhead
    ensures DomainOf(v) == Water ==> t * v.maxSpeed == d * WaterOverhead
    ensures v.maxSpeed > 0.0 && d >= 0.0 ==> t >= d / v.maxSpeed
  {
    match DomainOf(v)
    case Land => LandJourneyTime(v.maxSpeed, d)
    case Water => WaterJourneyTime(v.maxSpeed, d)
  }

  // ------------------------------------------------------------ construction

  /** Shared by the four constructors: the base check, then an empty tank
      and no maintenance scheduled. */
  function Construct(id: string, model: string, maxSpeed: real, mileage: real, body: Body): (r: Result<Vehicle>)
    ensures r.Failure? <==> IsBlank(id)
    ensures r.Failure? ==> r.error == InvalidOperation
    ensures r.Success? ==> r.value.fuel == 0.0 && !r.value.maintenanceFlag && r.value.body == body
    ensures r.Success? ==> r.value.id == id && r.value.model == model
                           && r.value.maxSpeed == maxSpeed && r.value.mileage == mileage
  {
    if CheckId(id).Fail? then Failure(InvalidOperation)
    else Success(Vehicle(id, model, maxSpeed, mileage, 0.0, false, body))
  }

  /** `new Car(...)`: no passengers aboard. */
  function NewCar(id: string, model: string, maxSpeed: real, mileage: real, wheels: int): (r: Result<Vehicle>)
    ensures r.Failure? <==> IsBlank(id)
    ensures r.Success? ==> Valid(r.value) && r.value.body == Car(wheels, 0) && r.value.fuel == 0.0
  {
    Construct(id, model, maxSpeed, mileage, Car(wheels, 0))
  }

  /** `new Truck(...)`: no cargo aboard. */
  function NewTruck(id: string, model: string, maxSpeed: real, mileage: real, wheels: int): (r: Result<Vehicle>)
    ensures r.Failure? <==> IsBlank(id)
    ensures r.Success? ==> Valid(r.value) && r.value.body == Truck(wheels, 0) && r.value.fuel == 0.0
  {
    Construct(id, model, maxSpeed, mileage, Truck(wheels, 0))
  }

  /** `new Bus(...)`: no passengers or cargo aboard. */
  function NewBus(id: string, model: string, maxSpeed: real, mileage: real, wheels: int): (r: Result<Vehicle>)
    ensures r.Failure? <==> IsBlank(id)
    ensures r.Success? ==> Valid(r.value) && r.value.body == Bus(wheels, 0, 0.0) && r.value.fuel == 0.0
  {
    Construct(id, model, maxSpeed, mileage, Bus(wheels, 0, 0.0))
  }

  /** `new CargoShip(...)`: empty hold and tank. */
  function NewCargoShip(id: string, model: string, maxSpeed: real, mileage: real, hasSail: bool): (r: Result<Vehicle>)
    ensures r.Failure? <==> IsBlank(id)
    ensures r.Success? ==> Valid(r.value) && r.value.body == CargoShip(hasSail, 0.0) && r.value.fuel == 0.0
  {
    Construct(id, model, maxSpeed, mileage, CargoShip(hasSail, 0.0))
  }

  // ------------------------------------------------------------------ moving

  /** `move(d)`: refuse a negative distance; a sailing ship always goes;
      any other vehicle goes iff it holds the fuel the trip takes, which it
      burns. Only a successful move adds `d` to the mileage. */
  function Move(v: Vehicle, d: real): (r: Result<Vehicle>)
    ensures d < 0.0 ==> r == Failure(InvalidOperation)
    ensures r.Success? <==> d >= 0.0 && (Sailing(v) || v.fuel >= d / Efficiency(v))
    ensures r.Failure? && d >= 0.0 ==> r.error == InsufficientFuel
    ensures r.Success? ==> r.value == v.(mileage := v.mileage + d, fuel := v.fuel - FuelFor(v, d))
    ensures r.Success? ==> r.value.mileage >= v.mileage && r.value.fuel <= v.fuel
    ensures r.Success? && Valid(v) ==> Valid(r.value)
  {
    if d < 0.0 then Failure(InvalidOperation)
    else if v.body.CargoShip? then
      var efficiency := Efficiency(v);
      if efficiency == 0.0 then Success(WithMileage(v, v.mileage + d))
      else
        var needed := d / efficiency;
        if v.fuel >= needed then Success(WithMileage(v.(fuel := v.fuel - needed), v.mileage + d))
        else Failure(InsufficientFuel)
    else
      var needed := d / Efficiency(v);
      if v.fuel >= needed then Success(WithMileage(v.(fuel := v.fuel - needed), v.mileage + d))
      else Failure(InsufficientFuel)
  }

  // -------------------------------------------------------------------- fuel

  /** `refuel(a)`: a sailing ship refuses any amount; otherwise a positive
      amount is added to the tank and anything else is refused. */
  function Refuel(v: Vehicle, a: real): (r: Result<Vehicle>)
    ensures r.Success? <==> a > 0.0 && !Sailing(v)
    ensures r.Failure? ==> r.error == InvalidOperation
    ensures r.Success? ==> r.value == v.(fuel := v.fuel + a) && r.value.fuel > v.fuel
    ensures r.Success? && Valid(v) ==> Valid(r.value)
  {
    if Sailing(v) then Failure(InvalidOperation)
    else if a <= 0.0 then Failure(InvalidOperation)
    else Success(v.(fuel := v.fuel + a))
  }

  /** `getFuelLevel`: a sailing ship reports an empty tank. */
  function FuelLevel(v: Vehicle): (f: real)
    ensures Sailing(v) ==> f == 0.0
    ensures Valid(v) ==> f == v.fuel
  {
    if Sailing(v) then 0.0 else v.fuel
  }

  /** `consumeFuel(d)`: burn and report the fuel `d` km take, without moving.
      A sailing ship burns nothing. There is no sign check on `d`: a
      negative distance credits the tank. */
  function ConsumeFuel(v: Vehicle, d: real): (r: Result<(Vehicle, real)>)
    ensures r.Success? <==> Sailing(v) || v.fuel >= d / Efficiency(v)
    ensures r.Failure? ==> r.error == InsufficientFuel
    ensures r.Success? ==> r.value.1 == FuelFor(v, d) && r.value.0 == v.(fuel := v.fuel - r.value.1)
    ensures r.Success? && Valid(v) ==> Valid(r.value.0)
    ensures v.fuel >= 0.0 && d <= 0.0 ==> r.Success? && r.value.0.fuel >= v.fuel
  {
    if Sailing(v) then Success((v, 0.0))
    else
      var needed := d / Efficiency(v);
      if v.fuel >= needed then Success((v.(fuel := v.fuel - needed), needed))
      else Failure(InsufficientFuel)
  }

  // -------------------------------------------------------------- passengers

  /** `boardPassengers(n)` with exact integer arithmetic: refuse n <= 0,
      report overload past the seat count, otherwise seat them. */
  function Board(v: Vehicle, n: int): (r: Result<Vehicle>)
    requires Has(v, PassengerCarrier)
    ensures r.Success? <==> 0 < n && Passengers(v) + n <= SeatCount(v)
    ensures n <= 0 ==> r == Failure(InvalidOperation)
    ensures n > 0 && r.Failure? ==> r.error == Overload
    ensures r.Success? ==> Passengers(r.value) == Passengers(v) + n
    ensures r.Success? ==> r.value == SetPassengers(v, Passengers(v) + n)
    ensures r.Success? && Valid(v) ==> Valid(r.value)
  {
    if n <= 0 then Failure(InvalidOperation)
    else if Passengers(v) + n > SeatCount(v) then Failure(Overload)
    else Success(SetPassengers(v, Passengers(v) + n))
  }

  /** `disembarkPassengers(n)`: refuse n <= 0 and more than are aboard. */
  function Disembark(v: Vehicle, n: int): (r: Result<Vehicle>)
    requires Has(v, PassengerCarrier)
    ensures r.Success? <==> 0 < n <= Passengers(v)
    ensures r.Failure? ==> r.error == InvalidOperation
    ensures r.Success? ==> Passengers(r.value) == Passengers(v) - n
    ensures r.Success? ==> r.value == SetPassengers(v, Passengers(v) - n)
    ensures r.Success? && Valid(v) ==> Valid(r.value)
  {
    if n <= 0 then Failure(InvalidOperation)
    else if n > Passengers(v) then Failure(InvalidOperation)
    else Success(SetPassengers(v, Passengers(v) - n))
  }

  // ------------------------------------------------------------------- cargo

  /** `loadCargo(w)`: refuse w <= 0, report overload past capacity,
      otherwise add it; the truck's `int` cargo keeps the whole kilograms. */
  function LoadCargo(v: Vehicle, w: real): (r: Result<Vehicle>)
    requires Has(v, CargoCarrier)
    ensures r.Success? <==> w > 0.0 && CurrentCargo(v) + w <= CargoCapacity(v)
    ensures w <= 0.0 ==> r == Failure(InvalidOperation)
    ensures w > 0.0 && r.Failure? ==> r.error == Overload
    ensures r.Success? ==> r.value == SetCargo(v, CurrentCargo(v) + w)
    ensures r.Success? && !v.body.Truck? ==> CurrentCargo(r.value) == CurrentCargo(v) + w
    ensures r.Success? && v.body.Truck? && Valid(v) ==>
              CurrentCargo(v) <= CurrentCargo(r.value) <= CurrentCargo(v) + w < CurrentCargo(r.value) + 1.0
    ensures r.Success? && Valid(v) ==> Valid(r.value)
  {
    if w <= 0.0 then Failure(InvalidOperation)
    else if CurrentCargo(v) + w > CargoCapacity(v) then Failure(Overload)
    else Success(SetCargo(v, CurrentCargo(v) + w))
  }

  /** `unloadCargo(w)`: refuse w <= 0 and more than is aboard, otherwise
      take it off; the truck's `int` cargo keeps the whole kilograms. */
  function UnloadCargo(v: Vehicle, w: real): (r: Result<Vehicle>)
    requires Has(v, CargoCarrier)
    ensures r.Success? <==> 0.0 < w <= CurrentCargo(v)
    ensures r.Failure? ==> r.error == InvalidOperation
    ensures r.Success? ==> r.value == SetCargo(v, CurrentCargo(v) - w)
    ensures r.Success? && !v.body.Truck? ==> CurrentCargo(r.value) == CurrentCargo(v) - w
    ensures r.Success? && v.body.Truck? ==>
              0.0 <= CurrentCargo(r.value) <= CurrentCargo(v) - w < CurrentCargo(r.value) + 1.0
    ensures r.Success? && Valid(v) ==> Valid(r.value)
  {
    if w <= 0.0 then Failure(InvalidOperation)
    else if w > CurrentCargo(v) then Failure(InvalidOperation)
    else Success(SetCargo(v, CurrentCargo(v) - w))
  }

  // ------------------------------------------------------------- maintenance

  /** `needsMaintenance`: recomputed on every query from mileage and flag. */
  predicate NeedsMaintenance(v: Vehicle) {
    v.mileage > ServiceMileage || v.maintenanceFlag
  }

  /** `scheduleMaintenance`: raise the flag. */
  function ScheduleMaintenance(v: Vehicle): (r: Vehicle)
    ensures NeedsMaintenance(r)
    ensures r.maintenanceFlag && r.(maintenanceFlag := v.maintenanceFlag) == v
  {
    v.(maintenanceFlag := true)
  }

  /** `performMaintenance`: clear the flag only; mileage is never reset, so a
      vehicle past the service mileage still needs maintenance afterwards. */
  function PerformMaintenance(v: Vehicle): (r: Vehicle)
    ensures NeedsMaintenance(r) <==> v.mileage > ServiceMileage
    ensures !r.maintenanceFlag && r.(maintenanceFlag := v.maintenanceFlag) == v
  {
    v.(maintenanceFlag := false)
  }
}

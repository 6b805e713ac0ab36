/** The fleet file. `saveToFile` writes one comma-separated record per
    vehicle; `loadFromFile` reads the records back through the vehicle
    factory, skipping blank lines and lines the factory refuses, and then
    replaces the fleet with what it read. A file is modelled as its
    sequence of lines.

    Numbers are written and read through a `Notation`. `Java` is the one the
    source uses (`%.2f`, `%d`, `Double.parseDouble`, `Integer.parseInt`);
    the round trip is proved for every notation that `ReadsBack`, and
    `JavaReadsBack` shows that `Java` does. */
module Records {
  import opened Errors
  import opened Text
  import opened Numbers
  import opened Vehicles
  import opened Fleets

  const Separator: char := ','

  /** How the record format writes and reads numbers. */
  datatype Notation = Notation(
    showReal: real -> string,
    parseReal: string -> Option<real>,
    showInt: int -> string,
    parseInt: string -> Option<int>)

  /** `%.2f`, `Double.parseDouble`, `%d` and `Integer.parseInt`. */
  const Java: Notation := Notation(ShowFixed2, ParseReal, ShowInt, ParseInt)

  /** What the records rely on: a written real reads back rounded to two
      decimals, a written `int` reads back exactly, and no written number
      contains the separator. */
  ghost predicate ReadsBack(fmt: Notation) {
    && (forall x :: fmt.parseReal(fmt.showReal(x)) == Some(Round2(x)))
    && (forall n | IsInt32(n) :: fmt.parseInt(fmt.showInt(n)) == Some(n))
    && (forall x :: Separator !in fmt.showReal(x))
    && (forall n :: Separator !in fmt.showInt(n))
  }

  lemma JavaReadsBack()
    ensures ReadsBack(Java)
  {
    forall x: real
      ensures ParseReal(ShowFixed2(x)) == Some(Round2(x)) && Separator !in ShowFixed2(x)
    {
      ParseShowFixed2(x, ShowFixed2(x));
      ShowFixed2Numeral(x);
    }
    forall n: int
      ensures (IsInt32(n) ==> ParseInt(ShowInt(n)) == Some(n)) && Separator !in ShowInt(n)
    {
      if IsInt32(n) {
        ParseShowInt(n);
      }
      ShowIntNumeral(n);
    }
  }

  // ------------------------------------------------------------------ saving

  /** The fields `saveToFile` writes for `v`, in order: kind, id, model,
      speed, mileage, then the kind's own fields. */
  function Fields(fmt: Notation, v: Vehicle): (fs: seq<string>)
    ensures |fs| >= 3 && |fs| == MinFields(fs[0]) && KnownKind(fs[0])
    ensures fs[0] == KindName(v) && fs[1] == v.id && fs[2] == v.model
  {
    var head := [KindName(v), v.id, v.model, fmt.showReal(v.maxSpeed), fmt.showReal(v.mileage)];
    match v.body
    case Car(w, p) =>
      head + [fmt.showInt(w), fmt.showReal(FuelLevel(v)), fmt.showInt(SeatCount(v)), fmt.showInt(p)]
    case Truck(w, _) =>
      head + [fmt.showInt(w), fmt.showReal(FuelLevel(v)),
              fmt.showReal(CargoCapacity(v)), fmt.showReal(CurrentCargo(v))]
    case Bus(w, p, _) =>
      head + [fmt.showInt(w), fmt.showReal(FuelLevel(v)), fmt.showInt(SeatCount(v)), fmt.showInt(p),
              fmt.showReal(CargoCapacity(v)), fmt.showReal(CurrentCargo(v))]
    case CargoShip(s, _) =>
      head + [ShowBoolean(s), fmt.showReal(FuelLevel(v)),
              fmt.showReal(CargoCapacity(v)), fmt.showReal(CurrentCargo(v))]
  }

  /** The record of one vehicle. */
  function SaveLine(fmt: Notation, v: Vehicle): string {
    Join(Fields(fmt, v), Separator)
  }

  /** The records of `vs`, one line each, in fleet order. */
  function SaveLines(fmt: Notation, vs: seq<Vehicle>): (lines: seq<string>)
    ensures |lines| == |vs|
    ensures forall i | 0 <= i < |vs| :: lines[i] == SaveLine(fmt, vs[i])
  {
    if |vs| == 0 then [] else [SaveLine(fmt, vs[0])] + SaveLines(fmt, vs[1..])
  }

  /** `saveToFile`: the lines of the file. */
  function SaveToFile(fmt: Notation, f: Fleet): (lines: seq<string>)
    ensures |lines| == |f.vehicles|
    ensures forall i | 0 <= i < |lines| :: lines[i] == SaveLine(fmt, f.vehicles[i])
  {
    SaveLines(fmt, f.vehicles)
  }

  // ----------------------------------------------------------------- factory

  /** A number that does not parse is a `NumberFormatException`. */
  function Parsed<T>(o: Option<T>): (r: Result<T>)
    ensures r.Success? <==> o.Some?
    ensures r.Success? ==> r.value == o.value
    ensures r.Failure? ==> r.error == NumberFormat
  {
    match o
    case None => Failure(NumberFormat)
    case Some(x) => Success(x)
  }

  /** The kinds the factory builds. */
  predicate KnownKind(kind: string) {
    kind == "Car" || kind == "Truck" || kind == "Bus" || kind == "CargoShip"
  }

  /** The fewest fields a record of `kind` must have. */
  function MinFields(kind: string): nat {
    if kind == "Bus" then 11 else 9
  }

  /** The factory's attempt to restore the saved fuel: the field is read as
      an amount and added with `refuel`, and any error on the way is
      swallowed, so an amount that does not parse, or one `refuel` refuses,
      leaves the vehicle as it was built. */
  function RefuelFromField(fmt: Notation, v: Vehicle, field: string): (r: Vehicle)
    ensures r != v <==> fmt.parseReal(field).Some? && fmt.parseReal(field).value > 0.0 && !Sailing(v)
    ensures r != v ==> r == v.(fuel := v.fuel + fmt.parseReal(field).value)
    ensures Valid(v) ==> Valid(r)
  {
    match fmt.parseReal(field)
    case None => v
    case Some(a) =>
      match Refuel(v, a)
      case Success(w) => w
      case Failure(_) => v
  }

  /** The branch of the factory for a known kind whose record is long
      enough, after speed and mileage have been read: read the kind's own
      field, construct, and (except for a car) refuel from the fuel field. */
  function Build(fmt: Notation, kind: string, tok: seq<string>, maxSpeed: real, mileage: real): (r: Result<Vehicle>)
    requires KnownKind(kind) && |tok| >= MinFields(kind)
    ensures r.Failure? <==> IsBlank(tok[1]) || (kind != "CargoShip" && fmt.parseInt(tok[5]).None?)
    ensures r.Failure? ==> r.error == (if kind != "CargoShip" && fmt.parseInt(tok[5]).None? then NumberFormat else InvalidOperation)
    ensures r.Success? ==> KindName(r.value) == kind
    ensures r.Success? ==> r.value.id == tok[1] && r.value.model == tok[2]
    ensures r.Success? ==> r.value.maxSpeed == maxSpeed && r.value.mileage == mileage
    ensures r.Success? ==> Valid(r.value) && !r.value.maintenanceFlag
    ensures r.Success? ==> Passengers(r.value) == 0 && CurrentCargo(r.value) == 0.0
    ensures r.Success? && kind == "Car" ==> r.value.fuel == 0.0
  {
    if kind == "CargoShip" then
      var ship :- NewCargoShip(tok[1], tok[2], maxSpeed, mileage, ParseBoolean(tok[5]));
      Success(RefuelFromField(fmt, ship, tok[6]))
    else
      var wheels :- Parsed(fmt.parseInt(tok[5]));
      if kind == "Car" then
        NewCar(tok[1], tok[2], maxSpeed, mileage, wheels)
      else if kind == "Truck" then
        var truck :- NewTruck(tok[1], tok[2], maxSpeed, mileage, wheels);
        Success(RefuelFromField(fmt, truck, tok[6]))
      else
        var bus :- NewBus(tok[1], tok[2], maxSpeed, mileage, wheels);
        Success(RefuelFromField(fmt, bus, tok[6]))
  }

  /** `VehicleFactory.createVehicle`: the first field, trimmed, names the
      kind; an unknown kind or a record that is too short is an invalid
      operation; speed and mileage that do not parse are a number-format
      error. */
  function CreateVehicle(fmt: Notation, tok: seq<string>): (r: Result<Vehicle>)
    ensures |tok| == 0 ==> r == Failure(InvalidOperation)
    ensures |tok| > 0 && !KnownKind(Trim(tok[0])) ==> r == Failure(InvalidOperation)
    ensures |tok| > 0 && KnownKind(Trim(tok[0])) && |tok| < MinFields(Trim(tok[0])) ==>
              r == Failure(InvalidOperation)
    ensures r.Success? ==> KindName(r.value) == Trim(tok[0]) && |tok| >= MinFields(KindName(r.value))
    ensures r.Success? ==> r.value.id == tok[1] && r.value.model == tok[2] && !IsBlank(tok[1])
    ensures r.Success? ==> fmt.parseReal(tok[3]) == Some(r.value.maxSpeed)
    ensures r.Success? ==> fmt.parseReal(tok[4]) == Some(r.value.mileage)
    ensures r.Success? ==> Valid(r.value) && !r.value.maintenanceFlag
    ensures r.Success? ==> Passengers(r.value) == 0 && CurrentCargo(r.value) == 0.0
    ensures r.Success? && r.value.body.Car? ==> r.value.fuel == 0.0
  {
    if |tok| == 0 then Failure(InvalidOperation)
    else
      var kind := Trim(tok[0]);
      if !KnownKind(kind) || |tok| < MinFields(kind) then Failure(InvalidOperation)
      else
        var maxSpeed :- Parsed(fmt.parseReal(tok[3]));
        var mileage :- Parsed(fmt.parseReal(tok[4]));
        Build(fmt, kind, tok, maxSpeed, mileage)
  }

  /** One record: `split(",", -1)`, then the factory. */
  function ParseLine(fmt: Notation, line: string): Result<Vehicle> {
    CreateVehicle(fmt, Split(line, Separator))
  }

  // ----------------------------------------------------------------- loading

  /** Something that turns one line into a vehicle or an error. */
  type Reader = string -> Result<Vehicle>

  /** The reader `loadFromFile` uses: split the line, then the factory. */
  function ReadWith(fmt: Notation): Reader {
    line => ParseLine(fmt, line)
  }

  /** Every vehicle the reader produces is valid. */
  ghost predicate ReadsValid(read: Reader) {
    forall line :: read(line).Success? ==> Valid(read(line).value)
  }

  lemma ReadWithValid(fmt: Notation)
    ensures ReadsValid(ReadWith(fmt))
  {
  }

  /** What one line of the file contributes: nothing for a blank line or a
      line the reader refuses, else its vehicle. */
  function LoadLine(read: Reader, line: string): (vs: seq<Vehicle>)
    ensures |vs| <= 1
    ensures IsBlank(line) ==> vs == []
    ensures |vs| == 1 <==> !IsBlank(line) && read(line).Success?
    ensures |vs| == 1 ==> vs[0] == read(line).value
  {
    TrimStrips(line);
    if Trim(line) == "" then []
    else
      match read(line)
      case Success(v) => [v]
      case Failure(_) => []
  }

  /** The reading loop: the vehicles of the lines that load, in file order. */
  function LoadLines(read: Reader, lines: seq<string>): (vs: seq<Vehicle>)
    ensures |vs| <= |lines|
  {
    if |lines| == 0 then [] else LoadLine(read, lines[0]) + LoadLines(read, lines[1..])
  }

  /** Reading a file is reading its parts one after the other: a line
      never affects how another line loads. */
  lemma {:induction false} LoadLinesConcat(read: Reader, a: seq<string>, b: seq<string>)
    ensures LoadLines(read, a + b) == LoadLines(read, a) + LoadLines(read, b)
  {
    if |a| == 0 {
      assert a + b == b;
    } else {
      assert (a + b)[0] == a[0];
      assert (a + b)[1..] == a[1..] + b;
      LoadLinesConcat(read, a[1..], b);
    }
  }

  /** Lines that are all non-blank and all accepted load as exactly their
      vehicles, in order. */
  lemma {:induction false} LoadAccepted(read: Reader, lines: seq<string>, ws: seq<Vehicle>)
    requires |lines| == |ws|
    requires forall i | 0 <= i < |lines| :: !IsBlank(lines[i]) && read(lines[i]) == Success(ws[i])
    ensures LoadLines(read, lines) == ws
  {
    if |lines| > 0 {
      LoadAccepted(read, lines[1..], ws[1..]);
      assert ws == [ws[0]] + ws[1..];
    }
  }

  /** A reader that builds only valid vehicles loads only valid vehicles. */
  lemma {:induction false} LoadedValid(read: Reader, lines: seq<string>)
    requires ReadsValid(read)
    ensures AllValid(LoadLines(read, lines))
  {
    if |lines| > 0 {
      LoadedValid(read, lines[1..]);
    }
  }

  /** `loadFromFile`: the fleet becomes exactly the loaded vehicles, and the
      model set is rebuilt from them. No id check is made. */
  function LoadFromFile(fmt: Notation, lines: seq<string>): (f: Fleet)
    ensures f.models == ModelsOf(f.vehicles)
    ensures AllValid(f.vehicles) && |f.vehicles| <= |lines|
    ensures Good(f) <==> UniqueIds(f.vehicles)
  {
    var vs := LoadLines(ReadWith(fmt), lines);
    ReadWithValid(fmt);
    LoadedValid(ReadWith(fmt), lines);
    Fleet(vs, ModelsOf(vs))
  }

  // -------------------------------------------------------------- round trip

  /** What a saved vehicle comes back as: kind, id, model, wheels and sail
      survive; speed and mileage are rounded to two decimals; a car's fuel is
      lost (the factory never refuels a car), any other vehicle keeps its
      rounded fuel level when that is positive; passengers, cargo and the
      maintenance flag are not restored. */
  function Reloaded(v: Vehicle): (w: Vehicle)
    ensures Valid(w) && !w.maintenanceFlag
    ensures w.id == v.id && w.model == v.model && KindName(w) == KindName(v)
    ensures Passengers(w) == 0 && CurrentCargo(w) == 0.0
  {
    var fuel := Round2(FuelLevel(v));
    Vehicle(v.id, v.model, Round2(v.maxSpeed), Round2(v.mileage),
            if !v.body.Car? && !Sailing(v) && fuel > 0.0 then fuel else 0.0,
            false,
            match v.body
            case Car(w, _) => Car(w, 0)
            case Truck(w, _) => Truck(w, 0)
            case Bus(w, _, _) => Bus(w, 0, 0.0)
            case CargoShip(s, _) => CargoShip(s, 0.0))
  }

  /** Each vehicle of `vs` as it comes back. */
  function ReloadAll(vs: seq<Vehicle>): (ws: seq<Vehicle>)
    ensures |ws| == |vs|
  {
    if |vs| == 0 then [] else [Reloaded(vs[0])] + ReloadAll(vs[1..])
  }

  /** A text field the format can carry: no separator, no line break. */
  predicate PlainField(s: string) {
    Separator !in s && '\n' !in s && '\r' !in s
  }

  /** What the format needs of a vehicle: an id the constructor accepts, an
      id and a model that are plain fields, and an `int` wheel count. */
  predicate Storable(v: Vehicle) {
    && !IsBlank(v.id)
    && PlainField(v.id) && PlainField(v.model)
    && (v.body.CargoShip? || IsInt32(v.body.wheels))
  }

  predicate AllStorable(vs: seq<Vehicle>) {
    forall i | 0 <= i < |vs| :: Storable(vs[i])
  }

  /** No field of a storable vehicle's record contains the separator. */
  lemma FieldsArePlain(fmt: Notation, v: Vehicle)
    requires ReadsBack(fmt) && Storable(v)
    ensures |Fields(fmt, v)| >= 9
    ensures forall k | 0 <= k < |Fields(fmt, v)| :: Separator !in Fields(fmt, v)[k]
  {
  }

  /** Splitting a saved record gives back its fields. */
  lemma SplitSaveLine(fmt: Notation, v: Vehicle)
    requires ReadsBack(fmt) && Storable(v)
    ensures Split(SaveLine(fmt, v), Separator) == Fields(fmt, v)
  {
    FieldsArePlain(fmt, v);
    SplitJoin(Fields(fmt, v), Separator);
  }

  /** The factory reads the common fields of a saved record back. */
  lemma ReadCommonFields(fmt: Notation, v: Vehicle, tok: seq<string>)
    requires ReadsBack(fmt) && Storable(v) && tok == Fields(fmt, v)
    ensures |tok| >= MinFields(KindName(v)) && KnownKind(KindName(v))
    ensures Trim(tok[0]) == KindName(v)
    ensures tok[1] == v.id && tok[2] == v.model && !IsBlank(tok[1])
    ensures fmt.parseReal(tok[3]) == Some(Round2(v.maxSpeed))
    ensures fmt.parseReal(tok[4]) == Some(Round2(v.mileage))
    ensures fmt.parseReal(tok[6]) == Some(Round2(FuelLevel(v)))
  {
    TrimUnpadded(KindName(v));
  }

  /** The factory branch rebuilds a saved vehicle as `Reloaded` says. */
  lemma BuildSaved(fmt: Notation, v: Vehicle, tok: seq<string>)
    requires ReadsBack(fmt) && Storable(v) && tok == Fields(fmt, v)
    requires |tok| >= MinFields(KindName(v)) && KnownKind(KindName(v))
    requires fmt.parseReal(tok[6]) == Some(Round2(FuelLevel(v)))
    ensures Build(fmt, KindName(v), tok, Round2(v.maxSpeed), Round2(v.mileage)) == Success(Reloaded(v))
  {
    if v.body.CargoShip? {
      ParseShowBoolean(v.body.hasSail);
    }
  }

  /** The factory turns a saved record into the reloaded vehicle. */
  lemma CreateSaved(fmt: Notation, v: Vehicle)
    requires ReadsBack(fmt) && Storable(v)
    ensures CreateVehicle(fmt, Fields(fmt, v)) == Success(Reloaded(v))
  {
    var tok := Fields(fmt, v);
    ReadCommonFields(fmt, v, tok);
    BuildSaved(fmt, v, tok);
  }

  /** A saved record reads back as the reloaded vehicle. */
  lemma ParseSaveLine(fmt: Notation, v: Vehicle)
    requires ReadsBack(fmt) && Storable(v)
    ensures ParseLine(fmt, SaveLine(fmt, v)) == Success(Reloaded(v))
  {
    SplitSaveLine(fmt, v);
    CreateSaved(fmt, v);
  }

  /** A saved record is never a blank line: it starts with the kind name. */
  lemma SaveLineNotBlank(fmt: Notation, v: Vehicle)
    ensures !IsBlank(SaveLine(fmt, v))
  {
    var fs := Fields(fmt, v);
    assert SaveLine(fmt, v) == fs[0] + [Separator] + Join(fs[1..], Separator);
    assert SaveLine(fmt, v)[0] == KindName(v)[0];
  }

  /** Loading the saved lines of storable vehicles gives back each of them,
      as `Reloaded` says, in the same order. */
  lemma {:induction false} LoadSavedLines(fmt: Notation, vs: seq<Vehicle>)
    requires ReadsBack(fmt) && AllStorable(vs)
    ensures LoadLines(ReadWith(fmt), SaveLines(fmt, vs)) == ReloadAll(vs)
  {
    if |vs| > 0 {
      var lines := SaveLines(fmt, vs);
      assert lines[0] == SaveLine(fmt, vs[0]) && lines[1..] == SaveLines(fmt, vs[1..]);
      SaveLineNotBlank(fmt, vs[0]);
      ParseSaveLine(fmt, vs[0]);
      LoadSavedLines(fmt, vs[1..]);
    }
  }

  /** `ReloadAll` keeps the ids and the models, position by position. */
  lemma {:induction false} ReloadAllKeepsNames(vs: seq<Vehicle>)
    ensures forall i | 0 <= i < |vs| :: ReloadAll(vs)[i].id == vs[i].id && ReloadAll(vs)[i].model == vs[i].model
  {
    if |vs| > 0 {
      ReloadAllKeepsNames(vs[1..]);
      assert forall i | 1 <= i < |vs| :: ReloadAll(vs)[i] == ReloadAll(vs[1..])[i - 1];
    }
  }

  /** Reloading keeps the model set. */
  lemma ReloadAllKeepsModels(vs: seq<Vehicle>)
    ensures ModelsOf(ReloadAll(vs)) == ModelsOf(vs)
  {
    var ws := ReloadAll(vs);
    ReloadAllKeepsNames(vs);
    forall m | m in ModelsOf(vs) ensures m in ModelsOf(ws) {
      var i :| 0 <= i < |vs| && vs[i].model == m;
      assert ws[i].model == m;
    }
  }

  /** Reloading keeps distinct ids distinct. */
  lemma ReloadAllKeepsUniqueIds(vs: seq<Vehicle>)
    requires UniqueIds(vs)
    ensures UniqueIds(ReloadAll(vs))
  {
    ReloadAllKeepsNames(vs);
  }

  /** Saving a fleet and loading the file gives back every vehicle as
      `Reloaded` says, in order, with the same model set; a fleet that keeps
      its invariant is reloaded into one that does. */
  lemma SaveLoadRoundTrip(fmt: Notation, f: Fleet)
    requires ReadsBack(fmt) && AllStorable(f.vehicles)
    ensures var g := LoadFromFile(fmt, SaveToFile(fmt, f));
            && g.vehicles == ReloadAll(f.vehicles)
            && g.models == ModelsOf(f.vehicles)
            && (Good(f) ==> Good(g) && g.models == f.models)
  {
    LoadSavedLines(fmt, f.vehicles);
    ReloadAllKeepsModels(f.vehicles);
    if UniqueIds(f.vehicles) {
      ReloadAllKeepsUniqueIds(f.vehicles);
    }
  }

  /** The same, for the notation the source uses. */
  lemma JavaSaveLoadRoundTrip(f: Fleet)
    requires AllStorable(f.vehicles)
    ensures var g := LoadFromFile(Java, SaveToFile(Java, f));
            && g.vehicles == ReloadAll(f.vehicles)
            && (Good(f) ==> Good(g) && g.models == f.models)
  {
    JavaReadsBack();
    SaveLoadRoundTrip(Java, f);
  }

  /** A reloaded vehicle comes back unchanged from a second save and load. */
  lemma ReloadedIdempotent(v: Vehicle)
    ensures Reloaded(Reloaded(v)) == Reloaded(v)
    ensures Storable(v) ==> Storable(Reloaded(v))
  {
    Round2Idempotent(v.maxSpeed);
    Round2Idempotent(v.mileage);
    Round2Idempotent(FuelLevel(v));
  }

  /** Two records with the same id both load: a file with a repeated id
      gives a fleet that breaks the id invariant. */
  lemma LoadKeepsDuplicateIds(fmt: Notation, v: Vehicle)
    requires ReadsBack(fmt) && Storable(v)
    ensures var g := LoadFromFile(fmt, SaveLines(fmt, [v, v]));
            |g.vehicles| == 2 && !Good(g)
  {
    LoadSavedLines(fmt, [v, v]);
    assert [v, v][1..] == [v];
    var ws := ReloadAll([v, v]);
    assert ws[0].id == ws[1].id;
  }

  /** A car with fuel and passengers comes back with neither. */
  lemma CarLosesFuelAndPassengers()
    ensures var car := Vehicle("C1", "Civic", 180.0, 0.0, 10.0, false, Car(4, 2));
            && Valid(car)
            && ParseLine(Java, SaveLine(Java, car))
               == Success(Vehicle("C1", "Civic", 180.0, 0.0, 0.0, false, Car(4, 0)))
  {
    var car := Vehicle("C1", "Civic", 180.0, 0.0, 10.0, false, Car(4, 2));
    JavaReadsBack();
    assert car.id[0] == 'C';
    ParseSaveLine(Java, car);
    Round2Exact(18000);
    Round2Exact(0);
  }
}

/** The fleet aggregate: an ordered list of vehicles and the set of model
    names kept beside it, with the operations that add, remove, drive,
    fuel, service, search, sort and summarise them. */
module Fleets {
  import opened Errors
  import opened Text
  import opened Sequences
  import opened Vehicles

  /** `vehicles` in insertion order; `models` is the separately maintained
      distinct-model set. */
  datatype Fleet = Fleet(vehicles: seq<Vehicle>, models: set<string>)

  /** The model names that occur in `vs`. */
  function ModelsOf(vs: seq<Vehicle>): set<string> {
    set i | 0 <= i < |vs| :: vs[i].model
  }

  predicate UniqueIds(vs: seq<Vehicle>) {
    forall i, j | 0 <= i < j < |vs| :: vs[i].id != vs[j].id
  }

  /** The fleet invariant: the model set is exactly the models present, and
      no id occurs twice. */
  predicate Good(f: Fleet) {
    f.models == ModelsOf(f.vehicles) && UniqueIds(f.vehicles)
  }

  /** Every vehicle of the fleet satisfies the vehicle invariant. */
  predicate AllValid(vs: seq<Vehicle>) {
    forall i | 0 <= i < |vs| :: Valid(vs[i])
  }

  /** `new FleetManager()`. */
  function EmptyFleet(): (f: Fleet)
    ensures Good(f) && |f.vehicles| == 0 && f.models == {}
  {
    Fleet([], {})
  }

  /** The position of the first vehicle with `id`, or `|vs|` when none has it. */
  function IndexOfId(vs: seq<Vehicle>, id: string): (i: nat)
    ensures i <= |vs|
    ensures i < |vs| ==> vs[i].id == id
    ensures forall k | 0 <= k < i :: vs[k].id != id
  {
    if |vs| == 0 then 0
    else if vs[0].id == id then 0
    else 1 + IndexOfId(vs[1..], id)
  }

  /** Some vehicle of `vs` carries `id`. */
  predicate HasId(vs: seq<Vehicle>, id: string) {
    IndexOfId(vs, id) < |vs|
  }

  lemma HasIdMeansSomeVehicle(vs: seq<Vehicle>, id: string)
    ensures HasId(vs, id) <==> exists i | 0 <= i < |vs| :: vs[i].id == id
  {
  }

  // ------------------------------------------------------------ model set

  lemma ModelsOfAppend(vs: seq<Vehicle>, v: Vehicle)
    ensures ModelsOf(vs + [v]) == ModelsOf(vs) + {v.model}
  {
    var a := vs + [v];
    assert forall i | 0 <= i < |vs| :: a[i] == vs[i];
    assert a[|vs|] == v;
  }

  lemma ModelsOfRemove(vs: seq<Vehicle>, i: nat)
    requires i < |vs|
    ensures ModelsOf(vs) == ModelsOf(vs[..i] + vs[i + 1..]) + {vs[i].model}
  {
    var rest := vs[..i] + vs[i + 1..];
    forall m | m in ModelsOf(vs)
      ensures m in ModelsOf(rest) + {vs[i].model}
    {
      var k :| 0 <= k < |vs| && vs[k].model == m;
      if k < i {
        assert rest[k] == vs[k];
      } else if k > i {
        assert rest[k - 1] == vs[k];
      }
    }
    forall m | m in ModelsOf(rest)
      ensures m in ModelsOf(vs)
    {
      var k :| 0 <= k < |rest| && rest[k].model == m;
      if k < i {
        assert vs[k] == rest[k];
      } else {
        assert vs[k + 1] == rest[k];
      }
    }
  }

  /** Models and ids that agree position by position give the same model
      set and the same uniqueness. */
  lemma SameLabelsKeepGood(f: Fleet, vs: seq<Vehicle>)
    requires |vs| == |f.vehicles|
    requires forall k | 0 <= k < |vs| :: vs[k].id == f.vehicles[k].id && vs[k].model == f.vehicles[k].model
    ensures ModelsOf(vs) == ModelsOf(f.vehicles)
    ensures Good(f) ==> Good(Fleet(vs, f.models))
  {
    assert ModelsOf(vs) == ModelsOf(f.vehicles) by {
      forall m | m in ModelsOf(f.vehicles) ensures m in ModelsOf(vs) {
        var k :| 0 <= k < |f.vehicles| && f.vehicles[k].model == m;
        assert vs[k].model == m;
      }
    }
  }

  // ------------------------------------------------------------ add / remove

  /** `addVehicle`: a duplicate id is refused; otherwise the vehicle is
      appended and its model joins the model set. */
  function AddVehicle(f: Fleet, v: Vehicle): (r: Result<Fleet>)
    ensures r.Failure? <==> exists i | 0 <= i < |f.vehicles| :: f.vehicles[i].id == v.id
    ensures r.Failure? ==> r.error == InvalidOperation
    ensures r.Success? ==> r.value.vehicles == f.vehicles + [v]
    ensures r.Success? ==> v.model in r.value.models && r.value.models - {v.model} == f.models - {v.model}
    ensures r.Success? && Good(f) ==> Good(r.value)
  {
    if HasId(f.vehicles, v.id) then Failure(InvalidOperation)
    else
      ModelsOfAppend(f.vehicles, v);
      Success(Fleet(f.vehicles + [v], f.models + {v.model}))
  }

  /** The test "this vehicle does not carry `id`". */
  function IdIsNot(id: string): Vehicle -> bool {
    (v: Vehicle) => v.id != id
  }

  /** `removeVehicle`: the first vehicle with `id` leaves the list and its
      model leaves the set unless another vehicle still uses it. An unknown
      id is an error, but before raising it the model set is pruned of
      every model no vehicle uses. */
  function RemoveVehicle(f: Fleet, id: string): (r: (Fleet, Outcome))
    ensures r.1.Pass? <==> exists i | 0 <= i < |f.vehicles| :: f.vehicles[i].id == id
    ensures r.1.Fail? ==> r.1.error == InvalidOperation
    ensures r.1.Fail? ==> r.0.vehicles == f.vehicles && r.0.models == f.models * ModelsOf(f.vehicles)
    ensures r.1.Pass? ==> |r.0.vehicles| == |f.vehicles| - 1
    ensures r.1.Pass? ==>
              var i := IndexOfId(f.vehicles, id);
              r.0.vehicles == f.vehicles[..i] + f.vehicles[i + 1..]
    ensures f.models == ModelsOf(f.vehicles) ==> r.0.models == ModelsOf(r.0.vehicles)
    ensures Good(f) ==> Good(r.0)
    ensures Good(f) ==> r.0.vehicles == Filter(f.vehicles, IdIsNot(id))
    ensures Good(f) && r.1.Fail? ==> r.0 == f
  {
    var vs := f.vehicles;
    var i := IndexOfId(vs, id);
    if i == |vs| then
      FilterKeepsAll(vs, IdIsNot(id));
      (Fleet(vs, f.models * ModelsOf(vs)), Fail(InvalidOperation))
    else
      var rest := vs[..i] + vs[i + 1..];
      var removed := vs[i].model;
      var models := if removed in ModelsOf(rest) then f.models else f.models - {removed};
      ModelsOfRemove(vs, i);
      RemoveFirstIsFilter(vs, id);
      RemoveKeepsUnique(vs, i);
      (Fleet(rest, models), Pass)
  }

  /** With unique ids, deleting the first vehicle carrying `id` is the same
      as keeping every vehicle that does not carry it. */
  lemma {:induction false} RemoveFirstIsFilter(vs: seq<Vehicle>, id: string)
    ensures var i := IndexOfId(vs, id);
            UniqueIds(vs) && i < |vs| ==> Filter(vs, IdIsNot(id)) == vs[..i] + vs[i + 1..]
  {
    var i := IndexOfId(vs, id);
    if UniqueIds(vs) && i < |vs| {
      var tail := vs[1..];
      assert UniqueIds(tail) by {
        forall a, b | 0 <= a < b < |tail| ensures tail[a].id != tail[b].id {
          assert tail[a] == vs[a + 1] && tail[b] == vs[b + 1];
        }
      }
      if i == 0 {
        forall k | 0 <= k < |tail| ensures IdIsNot(id)(tail[k]) {
          assert tail[k] == vs[k + 1];
        }
        FilterKeepsAll(tail, IdIsNot(id));
      } else {
        RemoveFirstIsFilter(tail, id);
        assert IndexOfId(tail, id) == i - 1;
        assert vs[..i] == [vs[0]] + tail[..i - 1];
        assert vs[i + 1..] == tail[i..];
      }
    }
  }

  lemma RemoveKeepsUnique(vs: seq<Vehicle>, i: nat)
    requires i < |vs|
    ensures UniqueIds(vs) ==> UniqueIds(vs[..i] + vs[i + 1..])
  {
    var rest := vs[..i] + vs[i + 1..];
    if UniqueIds(vs) {
      forall a, b | 0 <= a < b < |rest| ensures rest[a].id != rest[b].id {
        var a' := if a < i then a else a + 1;
        var b' := if b < i then b else b + 1;
        assert rest[a] == vs[a'] && rest[b] == vs[b'];
      }
    }
  }

  // ---------------------------------------------------------- distinct models

  /** Strictly increasing in `String.compareTo` order: a sorted set's iteration order. */
  predicate Ascending(s: seq<string>) {
    forall i, j | 0 <= i < j < |s| :: LexLess(s[i], s[j])
  }

  lemma {:induction false} InsertAscending(x: string, s: seq<string>)
    requires Ascending(s) && x !in s
    ensures Ascending(Insert(x, s, Identity, LexLess))
  {
    var r := Insert(x, s, Identity, LexLess);
    if |s| > 0 {
      if LexLess(s[0], x) {
        var t := Insert(x, s[1..], Identity, LexLess);
        InsertAscending(x, s[1..]);
        InsertPermutes(x, s[1..], Identity, LexLess);
        assert r == [s[0]] + t;
        forall k | 0 <= k < |t| ensures LexLess(s[0], t[k]) {
          assert t[k] in multiset(s[1..]) + multiset{x};
          if t[k] != x {
            assert t[k] in s[1..];
            var m :| 0 <= m < |s[1..]| && s[1..][m] == t[k];
            assert s[m + 1] == t[k];
          }
        }
      } else {
        assert x != s[0];
        LexConnected(x, s[0]);
        assert r == [x] + s;
        forall k | 1 <= k < |s| ensures LexLess(x, s[k]) {
          LexTransitive(x, s[0], s[k]);
        }
      }
    }
  }

  lemma InsertMembers(x: string, s: seq<string>)
    ensures forall y :: y in Insert(x, s, Identity, LexLess) <==> y == x || y in s
  {
    var r := Insert(x, s, Identity, LexLess);
    InsertPermutes(x, s, Identity, LexLess);
    forall y ensures y in r <==> y == x || y in s {
      assert y in r <==> y in multiset(r);
      assert y in s <==> y in multiset(s);
    }
  }

  /** A sorted set's enumeration is determined by its elements. */
  lemma {:induction false} AscendingUnique(a: seq<string>, b: seq<string>)
    requires Ascending(a) && Ascending(b)
    requires forall x :: x in a <==> x in b
    ensures a == b
    decreases |a|
  {
    if |a| > 0 {
      assert a[0] in b;
    }
    if |b| > 0 {
      assert b[0] in a;
    }
    if |a| > 0 {
      if a[0] != b[0] {
        var m :| 0 <= m < |a| && a[m] == b[0];
        var k :| 0 <= k < |b| && b[k] == a[0];
        assert LexLess(b[0], a[0]);
        assert LexLess(a[0], b[0]);
        LexAsymmetric(a[0], b[0]);
      }
      forall x ensures x in a[1..] <==> x in b[1..] {
        assert a == [a[0]] + a[1..] && b == [b[0]] + b[1..];
        if x in a[1..] {
          var m :| 0 <= m < |a[1..]| && a[1..][m] == x;
          assert a[m + 1] == x && LexLess(a[0], x);
          LexIrreflexive(a[0]);
          assert x in b;
          var j :| 0 <= j < |b| && b[j] == x;
          assert j != 0 && b[1..][j - 1] == x;
        }
        if x in b[1..] {
          var m :| 0 <= m < |b[1..]| && b[1..][m] == x;
          assert b[m + 1] == x && LexLess(b[0], x);
          LexIrreflexive(b[0]);
          assert x in a;
          var j :| 0 <= j < |a| && a[j] == x;
          assert j != 0 && a[1..][j - 1] == x;
        }
      }
      AscendingUnique(a[1..], b[1..]);
      assert a == [a[0]] + a[1..] && b == [b[0]] + b[1..];
    }
  }

  /** `getDistinctModels`: the model set as a sorted set, i.e. its elements
      in strictly increasing `compareTo` order. */
  method DistinctModels(f: Fleet) returns (ms: seq<string>)
    ensures forall m :: m in ms <==> m in f.models
    ensures Ascending(ms)
  {
    ms := [];
    var rest := f.models;
    while rest != {}
      invariant rest <= f.models
      invariant forall m :: m in ms <==> m in f.models && m !in rest
      invariant Ascending(ms)
      decreases |rest|
    {
      var m :| m in rest;
      InsertAscending(m, ms);
      InsertMembers(m, ms);
      ms := Insert(m, ms, Identity, LexLess);
      rest := rest - {m};
    }
  }

  // ------------------------------------------------------------- journeys

  /** What `startAllJourneys` records for one vehicle. */
  datatype Status = Ok | Failed(error: Error)

  /** A `LinkedHashMap` from id to status, as its entries in insertion order. */
  type Journal = seq<(string, Status)>

  /** The value stored under `k`. */
  function Lookup(m: Journal, k: string): Option<Status> {
    if |m| == 0 then None
    else if m[0].0 == k then Some(m[0].1)
    else Lookup(m[1..], k)
  }

  /** A key is absent exactly when no entry carries it; a present key's
      value is that of an entry carrying it. */
  lemma {:induction false} LookupFindsEntry(m: Journal, k: string)
    ensures Lookup(m, k).None? <==> forall i | 0 <= i < |m| :: m[i].0 != k
    ensures Lookup(m, k).Some? ==> exists i | 0 <= i < |m| :: m[i] == (k, Lookup(m, k).value)
  {
    if |m| > 0 && m[0].0 != k {
      LookupFindsEntry(m[1..], k);
      if Lookup(m, k).Some? {
        var i :| 0 <= i < |m[1..]| && m[1..][i] == (k, Lookup(m, k).value);
        assert m[i + 1] == m[1..][i];
      }
    }
  }

  /** `put(k, s)`: a new key is appended; an existing key keeps its
      position and takes the new value. */
  function Put(m: Journal, k: string, s: Status): Journal {
    if |m| == 0 then [(k, s)]
    else if m[0].0 == k then [(k, s)] + m[1..]
    else [m[0]] + Put(m[1..], k, s)
  }

  /** After `put(k, s)` the key `k` maps to `s` and every other key maps
      to what it mapped to before. */
  lemma {:induction false} PutLookup(m: Journal, k: string, s: Status, j: string)
    ensures Lookup(Put(m, k, s), j) == if j == k then Some(s) else Lookup(m, j)
  {
    if |m| > 0 && m[0].0 != k {
      PutLookup(m[1..], k, s, j);
      assert Put(m, k, s)[1..] == Put(m[1..], k, s);
    } else if |m| > 0 {
      assert Put(m, k, s)[1..] == m[1..];
    }
  }

  /** A `put` under a new key appends one entry at the end. */
  lemma {:induction false} PutNewKey(m: Journal, k: string, s: Status)
    requires Lookup(m, k).None?
    ensures Put(m, k, s) == m + [(k, s)]
  {
    if |m| > 0 {
      PutNewKey(m[1..], k, s);
      assert m == [m[0]] + m[1..];
    }
  }

  /** A `put` under a present key keeps the number of entries. */
  lemma {:induction false} PutPresentKey(m: Journal, k: string, s: Status)
    requires Lookup(m, k).Some?
    ensures |Put(m, k, s)| == |m|
  {
    if m[0].0 != k {
      PutPresentKey(m[1..], k, s);
    }
  }

  /** One vehicle's journey: it moves, or it stays as it was and the error
      is recorded. */
  function Journey(v: Vehicle, d: real): (r: (Vehicle, Status))
    ensures r.1.Ok? <==> Move(v, d).Success?
    ensures r.1.Ok? ==> r.0 == Move(v, d).value
    ensures r.1.Ok? ==> r.0.mileage == v.mileage + d && r.0.fuel == v.fuel - FuelFor(v, d)
    ensures r.1.Failed? ==> r.0 == v
    ensures r.1.Failed? ==> r.1.error == (if d < 0.0 then InvalidOperation else InsufficientFuel)
    ensures Valid(v) ==> Valid(r.0)
  {
    match Move(v, d)
    case Success(w) => (w, Ok)
    case Failure(e) => (v, Failed(e))
  }

  /** `startAllJourneys(d)`: every vehicle attempts the move in fleet
      order; a failure is recorded and does not stop the others. The moves
      are independent of one another, so they are taken first and the
      journal is written afterwards in the same order. */
  method StartAllJourneys(f: Fleet, d: real) returns (g: Fleet, journal: Journal)
    ensures g.models == f.models && |g.vehicles| == |f.vehicles|
    ensures forall k | 0 <= k < |f.vehicles| :: g.vehicles[k] == Journey(f.vehicles[k], d).0
    ensures forall k | 0 <= k < |f.vehicles| :: Lookup(journal, f.vehicles[k].id).Some?
    ensures UniqueIds(f.vehicles) ==>
              |journal| == |f.vehicles| &&
              forall k | 0 <= k < |f.vehicles| :: journal[k] == (f.vehicles[k].id, Journey(f.vehicles[k], d).1)
    ensures Good(f) ==> Good(g)
    ensures AllValid(f.vehicles) ==> AllValid(g.vehicles)
  {
    var vs := f.vehicles;
    var steps := seq(|vs|, k requires 0 <= k < |vs| => Journey(vs[k], d));
    journal := WriteJournal(vs, seq(|vs|, k requires 0 <= k < |vs| => steps[k].1));
    var out := seq(|vs|, k requires 0 <= k < |vs| => steps[k].0);
    g := Fleet(out, f.models);
    SameLabelsKeepGood(f, out);
  }

  /** The journal of `startAllJourneys`: `put(id, status)` for each vehicle
      in fleet order. Every id gets an entry; with unique ids the entries
      are the vehicles' statuses in fleet order. */
  method WriteJournal(vs: seq<Vehicle>, statuses: seq<Status>) returns (journal: Journal)
    requires |statuses| == |vs|
    ensures forall k | 0 <= k < |vs| :: Lookup(journal, vs[k].id).Some?
    ensures UniqueIds(vs) ==>
              |journal| == |vs| && forall k | 0 <= k < |vs| :: journal[k] == (vs[k].id, statuses[k])
  {
    journal := [];
    var i := 0;
    while i < |vs|
      invariant 0 <= i <= |vs|
      invariant forall k | 0 <= k < i :: Lookup(journal, vs[k].id).Some?
      invariant UniqueIds(vs) ==>
                  |journal| == i && forall k | 0 <= k < i :: journal[k] == (vs[k].id, statuses[k])
    {
      var next := Put(journal, vs[i].id, statuses[i]);
      PutKeepsLookups(journal, vs, i, statuses[i]);
      if UniqueIds(vs) {
        PutAppendsNewId(journal, vs, i, statuses);
      }
      journal := next;
      i := i + 1;
    }
  }

  /** A `put` under the next vehicle's id keeps every earlier id present. */
  lemma PutKeepsLookups(journal: Journal, vs: seq<Vehicle>, i: nat, st: Status)
    requires i < |vs|
    requires forall k | 0 <= k < i :: Lookup(journal, vs[k].id).Some?
    ensures forall k | 0 <= k <= i :: Lookup(Put(journal, vs[i].id, st), vs[k].id).Some?
  {
    forall k | 0 <= k <= i ensures Lookup(Put(journal, vs[i].id, st), vs[k].id).Some? {
      PutLookup(journal, vs[i].id, st, vs[k].id);
    }
  }

  /** With unique ids, the next vehicle's id is new, so `put` appends it. */
  lemma PutAppendsNewId(journal: Journal, vs: seq<Vehicle>, i: nat, statuses: seq<Status>)
    requires i < |vs| == |statuses| && UniqueIds(vs)
    requires |journal| == i && forall k | 0 <= k < i :: journal[k] == (vs[k].id, statuses[k])
    ensures Put(journal, vs[i].id, statuses[i]) == journal + [(vs[i].id, statuses[i])]
  {
    forall k | 0 <= k < |journal| ensures journal[k].0 != vs[i].id {
      assert journal[k].0 == vs[k].id;
    }
    LookupFindsEntry(journal, vs[i].id);
    PutNewKey(journal, vs[i].id, statuses[i]);
  }

  // ------------------------------------------------------------------- fuel

  function FuelOf(v: Vehicle): real {
    v.fuel
  }

  /** One vehicle's `consumeFuel`: the vehicle after it and the amount
      used; a vehicle short of fuel is skipped unchanged. */
  function Burn(v: Vehicle, d: real): (r: (Vehicle, real))
    ensures r.0 == v.(fuel := v.fuel - r.1)
    ensures ConsumeFuel(v, d).Failure? ==> r.1 == 0.0
    ensures ConsumeFuel(v, d).Success? ==> r.1 == FuelFor(v, d)
    ensures d >= 0.0 ==> r.1 >= 0.0
    ensures Valid(v) ==> Valid(r.0)
  {
    match ConsumeFuel(v, d)
    case Success(p) => p
    case Failure(_) => (v, 0.0)
  }

  /** `consumeFuelForAll(d)`: every vehicle consumes the fuel for `d` km if
      it can; the total returned is exactly the fuel that left the fleet. */
  method ConsumeFuelForAll(f: Fleet, d: real) returns (g: Fleet, total: real)
    ensures g.models == f.models && |g.vehicles| == |f.vehicles|
    ensures forall k | 0 <= k < |f.vehicles| :: g.vehicles[k] == Burn(f.vehicles[k], d).0
    ensures total == Sum(f.vehicles, FuelOf) - Sum(g.vehicles, FuelOf)
    ensures d >= 0.0 ==> total >= 0.0
    ensures forall k | 0 <= k < |f.vehicles| :: g.vehicles[k].mileage == f.vehicles[k].mileage
    ensures Good(f) ==> Good(g)
    ensures AllValid(f.vehicles) ==> AllValid(g.vehicles)
  {
    var out;
    out, total := BurnAll(f.vehicles, d);
    g := Fleet(out, f.models);
    SameLabelsKeepGood(f, out);
  }

  /** The loop of `consumeFuelForAll`: each vehicle burns in turn, and the
      running total is the fuel that has left the vehicles so far. */
  method BurnAll(vs: seq<Vehicle>, d: real) returns (out: seq<Vehicle>, total: real)
    ensures |out| == |vs|
    ensures forall k | 0 <= k < |vs| :: out[k] == Burn(vs[k], d).0
    ensures total == Sum(vs, FuelOf) - Sum(out, FuelOf)
    ensures d >= 0.0 ==> total >= 0.0
  {
    out := [];
    total := 0.0;
    var i := 0;
    while i < |vs|
      invariant 0 <= i <= |vs| && |out| == i
      invariant forall k | 0 <= k < i :: out[k] == Burn(vs[k], d).0
      invariant total == Sum(vs[..i], FuelOf) - Sum(out, FuelOf)
      invariant d >= 0.0 ==> total >= 0.0
    {
      var step := Burn(vs[i], d);
      assert vs[..i + 1] == vs[..i] + [vs[i]];
      SumAppend(vs[..i], vs[i], FuelOf);
      SumAppend(out, step.0, FuelOf);
      total := total + step.1;
      out := out + [step.0];
      i := i + 1;
    }
    assert vs[..|vs|] == vs;
  }

  // ------------------------------------------------------------ maintenance

  /** `maintainAll` over a list: service whatever needs it. */
  function MaintainEach(vs: seq<Vehicle>): (r: seq<Vehicle>)
    ensures |r| == |vs|
    ensures forall k | 0 <= k < |vs| :: NeedsMaintenance(r[k]) <==> vs[k].mileage > ServiceMileage
    ensures forall k | 0 <= k < |vs| :: r[k].(maintenanceFlag := vs[k].maintenanceFlag) == vs[k]
  {
    if |vs| == 0 then []
    else
      var v := vs[0];
      var w := if NeedsMaintenance(v) then PerformMaintenance(v) else v;
      [w] + MaintainEach(vs[1..])
  }

  /** `maintainAll`: afterwards exactly the vehicles past the service
      mileage still need maintenance; nothing but the flags changes. */
  function MaintainAll(f: Fleet): (r: Fleet)
    ensures r.models == f.models && |r.vehicles| == |f.vehicles|
    ensures forall k | 0 <= k < |f.vehicles| ::
              NeedsMaintenance(r.vehicles[k]) <==> f.vehicles[k].mileage > ServiceMileage
    ensures Good(f) ==> Good(r)
    ensures AllValid(f.vehicles) ==> AllValid(r.vehicles)
  {
    var out := MaintainEach(f.vehicles);
    assert forall k | 0 <= k < |out| :: out[k].id == f.vehicles[k].id && out[k].model == f.vehicles[k].model by {
      forall k | 0 <= k < |out| ensures out[k].id == f.vehicles[k].id && out[k].model == f.vehicles[k].model {
        assert out[k].(maintenanceFlag := f.vehicles[k].maintenanceFlag) == f.vehicles[k];
      }
    }
    SameLabelsKeepGood(f, out);
    Fleet(out, f.models)
  }

  // ---------------------------------------------------------------- search

  /** The classes and interfaces `searchByType` can be asked for. */
  datatype Query =
    | AnyVehicle                       // Vehicle
    | OfDomain(domain: Domain)         // LandVehicle, WaterVehicle
    | OfKind(name: string)             // Car, Truck, Bus, CargoShip by simple name
    | Implementing(capability: Capability)

  /** `type.isInstance(v)`. */
  predicate Matches(q: Query, v: Vehicle) {
    match q
    case AnyVehicle => true
    case OfDomain(dom) => DomainOf(v) == dom
    case OfKind(name) => KindName(v) == name
    case Implementing(c) => Has(v, c)
  }

  function Matcher(q: Query): Vehicle -> bool {
    (v: Vehicle) => Matches(q, v)
  }

  /** `searchByType`: the matching vehicles in fleet order. */
  function SearchByType(f: Fleet, q: Query): (r: seq<Vehicle>)
    ensures |r| <= |f.vehicles|
    ensures forall i | 0 <= i < |r| :: Matches(q, r[i])
    ensures forall v :: v in r <==> v in f.vehicles && Matches(q, v)
  {
    FilterMembersAll(f.vehicles, Matcher(q));
    Filter(f.vehicles, Matcher(q))
  }

  /** The search keeps fleet order: searching a fleet that is the
      concatenation of two lists searches each in turn. */
  lemma SearchKeepsOrder(a: seq<Vehicle>, b: seq<Vehicle>, q: Query)
    ensures SearchByType(Fleet(a + b, {}), q) == SearchByType(Fleet(a, {}), q) + SearchByType(Fleet(b, {}), q)
  {
    FilterConcat(a, b, Matcher(q));
  }

  /** Searching for `Vehicle` returns the whole fleet, in order. */
  lemma SearchAnyIsFleet(f: Fleet)
    ensures SearchByType(f, AnyVehicle) == f.vehicles
  {
    FilterKeepsAll(f.vehicles, Matcher(AnyVehicle));
  }

  /** `getVehiclesNeedingMaintenance`: in fleet order. */
  function VehiclesNeedingMaintenance(f: Fleet): (r: seq<Vehicle>)
    ensures |r| <= |f.vehicles|
    ensures forall i | 0 <= i < |r| :: NeedsMaintenance(r[i])
    ensures forall v :: v in r <==> v in f.vehicles && NeedsMaintenance(v)
  {
    FilterMembersAll(f.vehicles, NeedsMaintenance);
    Filter(f.vehicles, NeedsMaintenance)
  }

  /** After `maintainAll` the vehicles needing maintenance are exactly the
      ones past the service mileage. */
  lemma MaintainAllLeavesHighMileage(f: Fleet)
    ensures forall v :: v in VehiclesNeedingMaintenance(MaintainAll(f)) <==>
                          v in MaintainAll(f).vehicles && v.mileage > ServiceMileage
  {
  }

  // ------------------------------------------------------------------ sorts

  function MaxSpeed(v: Vehicle): real {
    v.maxSpeed
  }

  /** `comparingDouble(...).reversed()`: the larger key first. */
  predicate Greater(a: real, b: real) {
    a > b
  }

  /** The case-insensitive key of `compareToIgnoreCase`. */
  function ModelKey(v: Vehicle): string {
    FoldCase(v.model)
  }

  lemma GreaterIsStrictTotalOrder()
    ensures StrictTotalOrder(Greater)
  {
  }

  lemma LexLessIsStrictTotalOrder()
    ensures StrictTotalOrder(LexLess)
  {
    forall a ensures !LexLess(a, a) {
      LexIrreflexive(a);
    }
    forall a, b, c | LexLess(a, b) && LexLess(b, c) ensures LexLess(a, c) {
      LexTransitive(a, b, c);
    }
    forall a, b | a != b ensures LexLess(a, b) || LexLess(b, a) {
      LexConnected(a, b);
    }
  }

  /** `getFleetSortedBySpeed`: a permutation of the fleet, fastest first. */
  function SortedBySpeed(f: Fleet): (r: seq<Vehicle>)
    ensures multiset(r) == multiset(f.vehicles)
    ensures forall i, j | 0 <= i < j < |r| :: r[i].maxSpeed >= r[j].maxSpeed
  {
    GreaterIsStrictTotalOrder();
    SortIsSorted(f.vehicles, MaxSpeed, Greater);
    Sort(f.vehicles, MaxSpeed, Greater)
  }

  /** `getFleetSortedByModel`: a permutation of the fleet in case-insensitive
      model order. */
  function SortedByModel(f: Fleet): (r: seq<Vehicle>)
    ensures multiset(r) == multiset(f.vehicles)
    ensures forall i, j | 0 <= i < j < |r| :: !LexLess(ModelKey(r[j]), ModelKey(r[i]))
  {
    LexLessIsStrictTotalOrder();
    SortIsSorted(f.vehicles, ModelKey, LexLess);
    Sort(f.vehicles, ModelKey, LexLess)
  }

  /** `getFleetSortedByEfficiency`: a permutation of the fleet, most
      efficient first, which is the vehicles' natural order. */
  function SortedByEfficiency(f: Fleet): (r: seq<Vehicle>)
    ensures multiset(r) == multiset(f.vehicles)
    ensures forall i, j | 0 <= i < j < |r| :: Efficiency(r[i]) >= Efficiency(r[j])
    ensures forall i, j | 0 <= i < j < |r| :: CompareTo(r[i], r[j]) <= 0
  {
    GreaterIsStrictTotalOrder();
    SortIsSorted(f.vehicles, Efficiency, Greater);
    Sort(f.vehicles, Efficiency, Greater)
  }

  /** The three sorts are stable: vehicles with equal keys keep their
      fleet order. */
  lemma SortsAreStable(f: Fleet, speed: real, model: string, efficiency: real)
    ensures WithKey(SortedBySpeed(f), MaxSpeed, speed) == WithKey(f.vehicles, MaxSpeed, speed)
    ensures WithKey(SortedByModel(f), ModelKey, model) == WithKey(f.vehicles, ModelKey, model)
    ensures WithKey(SortedByEfficiency(f), Efficiency, efficiency) == WithKey(f.vehicles, Efficiency, efficiency)
  {
    SortIsStable(f.vehicles, MaxSpeed, Greater, speed);
    LexLessIsStrictTotalOrder();
    SortIsStable(f.vehicles, ModelKey, LexLess, model);
    SortIsStable(f.vehicles, Efficiency, Greater, efficiency);
  }

  // ------------------------------------------------------- fastest / slowest

  /** `getFastestVehicle`: null for an empty fleet, otherwise the first
      vehicle with the greatest top speed. */
  method Fastest(f: Fleet) returns (r: Option<Vehicle>)
    ensures r.None? <==> |f.vehicles| == 0
    ensures r.Some? ==> exists i | 0 <= i < |f.vehicles| ::
              && f.vehicles[i] == r.value
              && (forall k | 0 <= k < |f.vehicles| :: f.vehicles[k].maxSpeed <= r.value.maxSpeed)
              && (forall k | 0 <= k < i :: f.vehicles[k].maxSpeed < r.value.maxSpeed)
  {
    var vs := f.vehicles;
    if |vs| == 0 {
      return None;
    }
    var best := 0;
    var i := 1;
    while i < |vs|
      invariant 0 <= best < i <= |vs|
      invariant forall k | 0 <= k < i :: vs[k].maxSpeed <= vs[best].maxSpeed
      invariant forall k | 0 <= k < best :: vs[k].maxSpeed < vs[best].maxSpeed
    {
      if vs[i].maxSpeed > vs[best].maxSpeed {
        best := i;
      }
      i := i + 1;
    }
    r := Some(vs[best]);
  }

  /** `getSlowestVehicle`: null for an empty fleet, otherwise the first
      vehicle with the least top speed. */
  method Slowest(f: Fleet) returns (r: Option<Vehicle>)
    ensures r.None? <==> |f.vehicles| == 0
    ensures r.Some? ==> exists i | 0 <= i < |f.vehicles| ::
              && f.vehicles[i] == r.value
              && (forall k | 0 <= k < |f.vehicles| :: f.vehicles[k].maxSpeed >= r.value.maxSpeed)
              && (forall k | 0 <= k < i :: f.vehicles[k].maxSpeed > r.value.maxSpeed)
  {
    var vs := f.vehicles;
    if |vs| == 0 {
      return None;
    }
    var best := 0;
    var i := 1;
    while i < |vs|
      invariant 0 <= best < i <= |vs|
      invariant forall k | 0 <= k < i :: vs[k].maxSpeed >= vs[best].maxSpeed
      invariant forall k | 0 <= k < best :: vs[k].maxSpeed > vs[best].maxSpeed
    {
      if vs[i].maxSpeed < vs[best].maxSpeed {
        best := i;
      }
      i := i + 1;
    }
    r := Some(vs[best]);
  }

  // ----------------------------------------------------------------- report

  /** The figures `generateReport` prints; the text around them is left out. */
  datatype Report = Report(
    total: nat,
    /** The per-class counts, a TreeMap from simple class name to count. */
    byKind: seq<(string, nat)>,
    totalMileage: real,
    /** None is printed as "N/A". */
    averageEfficiency: Option<real>,
    needingMaintenance: nat)

  function Mileage(v: Vehicle): real {
    v.mileage
  }

  /** The vehicles the average efficiency is taken over. */
  predicate BurnsFuel(v: Vehicle) {
    Efficiency(v) > 0.0
  }

  function CountSum(entries: seq<(string, nat)>): nat {
    if |entries| == 0 then 0 else entries[0].1 + CountSum(entries[1..])
  }

  /** The number of vehicles of class `name` in `vs`. */
  function KindCount(vs: seq<Vehicle>, name: string): nat {
    |Filter(vs, Matcher(OfKind(name)))|
  }

  /** A TreeMap entry exists only for a class that was counted. */
  predicate Counted(e: (string, nat)) {
    e.1 > 0
  }

  /** TreeMap order of entries: by key, in `String.compareTo` order. */
  predicate KeyBefore(a: (string, nat), b: (string, nat)) {
    LexLess(a.0, b.0)
  }

  /** The four class names in `String.compareTo` order, each with its
      count, zero counts omitted. */
  function KindTable(bus: nat, car: nat, ship: nat, truck: nat): (t: seq<(string, nat)>)
    ensures CountSum(t) == bus + car + ship + truck
    ensures forall i, j | 0 <= i < j < |t| :: LexLess(t[i].0, t[j].0)
    ensures forall j | 0 <= j < |t| ::
              && t[j].1 > 0
              && (t[j] == ("Bus", bus) || t[j] == ("Car", car) || t[j] == ("CargoShip", ship) || t[j] == ("Truck", truck))
    ensures bus > 0 ==> ("Bus", bus) in t
    ensures car > 0 ==> ("Car", car) in t
    ensures ship > 0 ==> ("CargoShip", ship) in t
    ensures truck > 0 ==> ("Truck", truck) in t
  {
    var t := Filter(AllKinds(bus, car, ship, truck), Counted);
    TableTotal(bus, car, ship, truck);
    TableOrder(bus, car, ship, truck);
    TableEntries(bus, car, ship, truck);
    TableHasCounted(bus, car, ship, truck);
    t
  }

  /** Every class with its count, in class name order. */
  function AllKinds(bus: nat, car: nat, ship: nat, truck: nat): seq<(string, nat)> {
    [("Bus", bus), ("Car", car), ("CargoShip", ship), ("Truck", truck)]
  }

  lemma TableTotal(bus: nat, car: nat, ship: nat, truck: nat)
    ensures CountSum(Filter(AllKinds(bus, car, ship, truck), Counted)) == bus + car + ship + truck
  {
    CountSumSkipsZeros(AllKinds(bus, car, ship, truck));
    CountSumOfFour(AllKinds(bus, car, ship, truck));
  }

  lemma TableOrder(bus: nat, car: nat, ship: nat, truck: nat)
    ensures var t := Filter(AllKinds(bus, car, ship, truck), Counted);
            forall i, j | 0 <= i < j < |t| :: LexLess(t[i].0, t[j].0)
  {
    var all := AllKinds(bus, car, ship, truck);
    KindNamesAscending();
    assert forall i, j | 0 <= i < j < |all| :: KeyBefore(all[i], all[j]);
    FilterKeepsPairwise(all, Counted, KeyBefore);
  }

  lemma TableEntries(bus: nat, car: nat, ship: nat, truck: nat)
    ensures var t := Filter(AllKinds(bus, car, ship, truck), Counted);
            forall j | 0 <= j < |t| ::
              && t[j].1 > 0
              && (t[j] == ("Bus", bus) || t[j] == ("Car", car) || t[j] == ("CargoShip", ship) || t[j] == ("Truck", truck))
  {
    var all := AllKinds(bus, car, ship, truck);
    var t := Filter(all, Counted);
    forall j | 0 <= j < |t| ensures t[j] in all {
      FilterMembers(all, Counted, t[j]);
    }
  }

  lemma TableHasCounted(bus: nat, car: nat, ship: nat, truck: nat)
    ensures var t := Filter(AllKinds(bus, car, ship, truck), Counted);
            && (bus > 0 ==> ("Bus", bus) in t)
            && (car > 0 ==> ("Car", car) in t)
            && (ship > 0 ==> ("CargoShip", ship) in t)
            && (truck > 0 ==> ("Truck", truck) in t)
  {
    var all := AllKinds(bus, car, ship, truck);
    FilterMembers(all, Counted, ("Bus", bus));
    FilterMembers(all, Counted, ("Car", car));
    FilterMembers(all, Counted, ("CargoShip", ship));
    FilterMembers(all, Counted, ("Truck", truck));
  }

  /** The class names in `String.compareTo` order. */
  lemma KindNamesAscending()
    ensures LexLess("Bus", "Car") && LexLess("Car", "CargoShip") && LexLess("CargoShip", "Truck")
    ensures LexLess("Bus", "CargoShip") && LexLess("Bus", "Truck") && LexLess("Car", "Truck")
  {
  }

  lemma CountSumOfFour(all: seq<(string, nat)>)
    requires |all| == 4
    ensures CountSum(all) == all[0].1 + all[1].1 + all[2].1 + all[3].1
  {
    var s3 := all[3..];
    assert s3[1..] == [];
    assert CountSum(s3) == all[3].1;
    var s2 := all[2..];
    assert s2[1..] == s3;
    assert CountSum(s2) == all[2].1 + CountSum(s3);
    var s1 := all[1..];
    assert s1[1..] == s2;
    assert CountSum(s1) == all[1].1 + CountSum(s2);
    assert all[1..] == s1;
  }

  /** Leaving out the zero counts does not change the total. */
  lemma {:induction false} CountSumSkipsZeros(entries: seq<(string, nat)>)
    ensures CountSum(Filter(entries, Counted)) == CountSum(entries)
  {
    if |entries| > 0 {
      CountSumSkipsZeros(entries[1..]);
      var rest := Filter(entries[1..], Counted);
      if Counted(entries[0]) {
        assert ([entries[0]] + rest)[1..] == rest;
      } else {
        assert [] + rest == rest;
      }
    }
  }

  /** Every vehicle belongs to exactly one of the four classes, so the
      class counts add up to the fleet size. */
  lemma {:induction false} KindCountsAddUp(vs: seq<Vehicle>)
    ensures KindCount(vs, "Bus") + KindCount(vs, "Car") + KindCount(vs, "CargoShip") + KindCount(vs, "Truck") == |vs|
  {
    if |vs| > 0 {
      KindCountsAddUp(vs[1..]);
      assert KindName(vs[0]) in ["Bus", "Car", "CargoShip", "Truck"];
    }
  }

  /** Every efficiency counted lies between the ship's 4 and the car's 15. */
  lemma {:induction false} EfficiencySumBounds(s: seq<Vehicle>)
    requires forall i | 0 <= i < |s| :: BurnsFuel(s[i])
    ensures |s| as real * MotorShipEfficiency <= Sum(s, Efficiency) <= |s| as real * CarEfficiency
  {
    if |s| > 0 {
      var init := s[..|s| - 1];
      assert forall i | 0 <= i < |init| :: init[i] == s[i];
      EfficiencySumBounds(init);
    }
  }

  /** The per-class part of the report: one entry per class present, in
      class name order, the counts adding up to the fleet size. */
  function KindSummary(vs: seq<Vehicle>): (t: seq<(string, nat)>)
    ensures CountSum(t) == |vs|
    ensures forall j | 0 <= j < |t| :: 0 < t[j].1 == KindCount(vs, t[j].0)
    ensures forall i, j | 0 <= i < j < |t| :: LexLess(t[i].0, t[j].0)
    ensures forall k | 0 <= k < |vs| :: (KindName(vs[k]), KindCount(vs, KindName(vs[k]))) in t
  {
    KindCountsAddUp(vs);
    EveryKindListed(vs);
    KindTable(KindCount(vs, "Bus"), KindCount(vs, "Car"), KindCount(vs, "CargoShip"), KindCount(vs, "Truck"))
  }

  lemma EveryKindListed(vs: seq<Vehicle>)
    ensures var t := KindTable(KindCount(vs, "Bus"), KindCount(vs, "Car"), KindCount(vs, "CargoShip"), KindCount(vs, "Truck"));
            forall k | 0 <= k < |vs| :: (KindName(vs[k]), KindCount(vs, KindName(vs[k]))) in t
  {
    forall k | 0 <= k < |vs|
      ensures (KindName(vs[k]), KindCount(vs, KindName(vs[k])))
              in KindTable(KindCount(vs, "Bus"), KindCount(vs, "Car"), KindCount(vs, "CargoShip"), KindCount(vs, "Truck"))
    {
      PresentKindListed(vs, vs[k]);
    }
  }

  /** The class of a vehicle in `vs` is counted, so it has its entry. */
  lemma PresentKindListed(vs: seq<Vehicle>, v: Vehicle)
    requires v in vs
    ensures (KindName(v), KindCount(vs, KindName(v)))
            in KindTable(KindCount(vs, "Bus"), KindCount(vs, "Car"), KindCount(vs, "CargoShip"), KindCount(vs, "Truck"))
  {
    var bus, car, ship, truck := KindCount(vs, "Bus"), KindCount(vs, "Car"), KindCount(vs, "CargoShip"), KindCount(vs, "Truck");
    FilterMembers(vs, Matcher(OfKind(KindName(v))), v);
    TableHasCounted(bus, car, ship, truck);
    match v.body
    case Bus(_, _, _) => assert bus > 0;
    case Car(_, _) => assert car > 0;
    case CargoShip(_, _) => assert ship > 0;
    case Truck(_, _) => assert truck > 0;
  }

  /** The mean efficiency over the vehicles that burn fuel (the mean that
      `MeanEfficiency` takes); absent exactly when every vehicle is a
      sailing ship. */
  function AverageEfficiency(vs: seq<Vehicle>): (a: Option<real>)
    ensures a.None? <==> forall k | 0 <= k < |vs| :: Sailing(vs[k])
    ensures a.Some? ==> MotorShipEfficiency <= a.value <= CarEfficiency
  {
    NoneBurnsIffAllSail(vs);
    MeanEfficiency(Filter(vs, BurnsFuel))
  }

  /** The mean efficiency of vehicles that all burn fuel: absent for none,
      otherwise between the ship's and the car's efficiency. */
  function MeanEfficiency(burning: seq<Vehicle>): (a: Option<real>)
    requires forall i | 0 <= i < |burning| :: BurnsFuel(burning[i])
    ensures a.None? <==> |burning| == 0
    ensures a.Some? ==> MotorShipEfficiency <= a.value <= CarEfficiency
    ensures a.Some? ==> a.value * |burning| as real == Sum(burning, Efficiency)
  {
    if |burning| == 0 then None
    else
      EfficiencySumBounds(burning);
      MeanWithinBounds(Sum(burning, Efficiency), |burning| as real, MotorShipEfficiency, CarEfficiency);
      Some(Sum(burning, Efficiency) / |burning| as real)
  }

  /** No vehicle burns fuel exactly when every vehicle is a sailing ship. */
  lemma NoneBurnsIffAllSail(vs: seq<Vehicle>)
    ensures |Filter(vs, BurnsFuel)| == 0 <==> forall k | 0 <= k < |vs| :: Sailing(vs[k])
  {
    var burning := Filter(vs, BurnsFuel);
    if |burning| == 0 {
      forall k | 0 <= k < |vs| ensures Sailing(vs[k]) {
        FilterMembers(vs, BurnsFuel, vs[k]);
      }
    } else {
      FilterMembers(vs, BurnsFuel, burning[0]);
    }
  }

  /** A total of `n` values each within `[lo, hi]`, divided by `n`, is within `[lo, hi]`. */
  lemma MeanWithinBounds(total: real, n: real, lo: real, hi: real)
    requires n > 0.0 && n * lo <= total <= n * hi
    ensures lo <= total / n <= hi
    ensures total / n * n == total
  {
    var m := total / n;
    assert m * n == total;
    assert (m - lo) * n >= 0.0;
    assert (hi - m) * n >= 0.0;
  }

  /** `generateReport`: the vehicle count, the per-class counts in class
      name order, the total mileage, the mean efficiency over the vehicles
      that burn fuel (absent when none does), and the number of vehicles
      needing maintenance. The source gathers every figure in one pass over
      the fleet; here each is its own fold, which gives the same values. */
  function GenerateReport(f: Fleet): (rep: Report)
    ensures rep.total == |f.vehicles|
    ensures CountSum(rep.byKind) == |f.vehicles|
    ensures forall j | 0 <= j < |rep.byKind| :: 0 < rep.byKind[j].1 == KindCount(f.vehicles, rep.byKind[j].0)
    ensures forall i, j | 0 <= i < j < |rep.byKind| :: LexLess(rep.byKind[i].0, rep.byKind[j].0)
    ensures forall k | 0 <= k < |f.vehicles| ::
              (KindName(f.vehicles[k]), KindCount(f.vehicles, KindName(f.vehicles[k]))) in rep.byKind
    ensures rep.totalMileage == Sum(f.vehicles, Mileage)
    ensures rep.averageEfficiency.None? <==> forall k | 0 <= k < |f.vehicles| :: Sailing(f.vehicles[k])
    ensures rep.averageEfficiency.Some? ==>
              MotorShipEfficiency <= rep.averageEfficiency.value <= CarEfficiency
    ensures rep.needingMaintenance == |VehiclesNeedingMaintenance(f)|
  {
    Report(|f.vehicles|, KindSummary(f.vehicles), Sum(f.vehicles, Mileage),
           AverageEfficiency(f.vehicles), |VehiclesNeedingMaintenance(f)|)
  }

  /** A class count in the report is the size of `searchByType` for that
      class. */
  lemma KindCountIsSearch(f: Fleet, name: string)
    ensures KindCount(f.vehicles, name) == |SearchByType(f, OfKind(name))|
  {
  }
}

/** The greedy dispatch engine: per-vehicle mutable states kept in a map keyed by vehicle id,
    a cached vehicle-by-order distance table, one greedy pass over the sorted orders, and the
    assembly of the plan. Each method is proved against the reference functions of the
    GreedyAssignment and PlanAssembly modules.

    The map of vehicle states is a hash map in the program, so the order in which its entries
    are visited is not the input order. Here that order is an explicit parameter: a sequence
    `ids` of the map's keys, each exactly once. */
module OptimizationEngine {
  import opened Wrappers
  import opened Entities
  import opened Haversine
  import opened OrderSorting
  import opened GreedyAssignment
  import opened PlanAssembly

  /** The running load and travelled distance of one vehicle during a pass. */
  class VehicleState {
    const vehicle: Vehicle
    var currentLoad: int
    var totalDistance: real

    constructor(vehicle: Vehicle)
      ensures this.vehicle == vehicle
      ensures currentLoad == 0 && totalDistance == 0.0
    {
      this.vehicle := vehicle;
      currentLoad := 0;
      totalDistance := 0.0;
    }

    /** Room left for more packages. */
    function RemainingCapacity(): (r: int)
      reads this
      ensures r + currentLoad == vehicle.capacity
    {
      vehicle.capacity - currentLoad
    }

    /** Takes on one order, reached at `distance` km. */
    method AddOrder(order: DeliveryOrder, distance: real)
      modifies this
      ensures currentLoad == old(currentLoad) + order.packageWeight
      ensures totalDistance == old(totalDistance) + distance
    {
      currentLoad := currentLoad + order.packageWeight;
      totalDistance := totalDistance + distance;
    }
  }

  // ---------------------------------------------------------------------------------------
  // The distance table

  /** The cache key of a (vehicle, order) pair. */
  function DistanceKey(vehicleId: string, orderId: string): string
  {
    vehicleId + ":" + orderId
  }

  /** A shorter vehicle id puts ':' where a longer, valid one has a letter, digit or hyphen. */
  lemma ShorterIdGivesOtherKey(v1: string, o1: string, v2: string, o2: string)
    requires |v1| < |v2| && ValidIdentifier(v2)
    ensures DistanceKey(v1, o1) != DistanceKey(v2, o2)
  {
    assert DistanceKey(v1, o1)[|v1|] == ':';
    assert DistanceKey(v2, o2)[|v1|] == v2[|v1|];
  }

  /** Vehicle ids never contain ':', so two pairs share a key only when they are the same pair. */
  lemma DistanceKeyInjective(v1: string, o1: string, v2: string, o2: string)
    requires ValidIdentifier(v1) && ValidIdentifier(v2)
    ensures DistanceKey(v1, o1) == DistanceKey(v2, o2) <==> v1 == v2 && o1 == o2
  {
    var k1, k2 := DistanceKey(v1, o1), DistanceKey(v2, o2);
    if |v1| < |v2| {
      ShorterIdGivesOtherKey(v1, o1, v2, o2);
    } else if |v2| < |v1| {
      ShorterIdGivesOtherKey(v2, o2, v1, o1);
    } else if k1 == k2 {
      assert v1 == k1[..|v1|] && v2 == k2[..|v2|];
      assert o1 == k1[|v1| + 1..] && o2 == k2[|v2| + 1..];
    }
  }

  /** The distance computation for one (vehicle, order) pair, the vehicle being the start. */
  function PairDistance(gc: (Point, Point) -> real, v: Vehicle, o: DeliveryOrder): Result<real, CoordinateError>
  {
    Calculate(gc, v.currentLatitude, v.currentLongitude, o.latitude, o.longitude)
  }

  /** The first coordinate error met computing the distances from `v` to `os`, in order. */
  function RowError(gc: (Point, Point) -> real, v: Vehicle, os: seq<DeliveryOrder>): Option<CoordinateError>
  {
    if os == [] then None
    else
      var before := RowError(gc, v, os[..|os| - 1]);
      if before.Some? then before
      else
        match PairDistance(gc, v, os[|os| - 1])
        case Err(e) => Some(e)
        case Ok(_) => None
  }

  /** The first coordinate error met filling the table, vehicle by vehicle, order by order. */
  function MatrixError(gc: (Point, Point) -> real, vs: seq<Vehicle>, os: seq<DeliveryOrder>): Option<CoordinateError>
  {
    if vs == [] then None
    else
      var before := MatrixError(gc, vs[..|vs| - 1], os);
      if before.Some? then before else RowError(gc, vs[|vs| - 1], os)
  }

  /** Once an error has been met in a prefix of the orders, it is the error of the whole row. */
  lemma {:induction false} RowErrorExtends(gc: (Point, Point) -> real, v: Vehicle, os: seq<DeliveryOrder>, j: nat)
    requires j <= |os| && RowError(gc, v, os[..j]).Some?
    ensures RowError(gc, v, os) == RowError(gc, v, os[..j])
    decreases |os|
  {
    if j < |os| {
      var n := |os| - 1;
      assert os[..n][..j] == os[..j];
      RowErrorExtends(gc, v, os[..n], j);
    } else {
      assert os[..j] == os;
    }
  }

  /** Once an error has been met in a prefix of the vehicles, it is the error of the table. */
  lemma {:induction false} MatrixErrorExtends(gc: (Point, Point) -> real, vs: seq<Vehicle>, os: seq<DeliveryOrder>, i: nat)
    requires i <= |vs| && MatrixError(gc, vs[..i], os).Some?
    ensures MatrixError(gc, vs, os) == MatrixError(gc, vs[..i], os)
    decreases |vs|
  {
    if i < |vs| {
      var n := |vs| - 1;
      assert vs[..n][..i] == vs[..i];
      MatrixErrorExtends(gc, vs[..n], os, i);
    } else {
      assert vs[..i] == vs;
    }
  }

  /** A row has no error exactly when every pair in it has valid coordinates at both ends. */
  lemma {:induction false} RowErrorNoneIffValid(gc: (Point, Point) -> real, v: Vehicle, os: seq<DeliveryOrder>)
    ensures RowError(gc, v, os).None? <==>
              forall b :: 0 <= b < |os| ==>
                ValidPoint(Point(v.currentLatitude, v.currentLongitude)) && ValidPoint(Point(os[b].latitude, os[b].longitude))
    decreases |os|
  {
    if os != [] {
      var n := |os| - 1;
      RowErrorNoneIffValid(gc, v, os[..n]);
      assert forall b :: 0 <= b < n ==> os[..n][b] == os[b];
    }
  }

  /** The table is filled without error exactly when every vehicle and every order has valid
      coordinates (when both lists are non-empty). */
  lemma {:induction false} MatrixErrorNoneIffValid(gc: (Point, Point) -> real, vs: seq<Vehicle>, os: seq<DeliveryOrder>)
    ensures MatrixError(gc, vs, os).None? <==>
              forall a, b :: 0 <= a < |vs| && 0 <= b < |os| ==>
                ValidPoint(Point(vs[a].currentLatitude, vs[a].currentLongitude)) && ValidPoint(Point(os[b].latitude, os[b].longitude))
    decreases |vs|
  {
    if vs != [] {
      var n := |vs| - 1;
      MatrixErrorNoneIffValid(gc, vs[..n], os);
      RowErrorNoneIffValid(gc, vs[n], os);
      assert forall a :: 0 <= a < n ==> vs[..n][a] == vs[a];
    }
  }

  /** Every (vehicle, order) pair of the two lists is cached under its key with its distance. */
  ghost predicate CoversPairs(matrix: map<string, real>, vs: seq<Vehicle>, os: seq<DeliveryOrder>,
                              gc: (Point, Point) -> real, i: nat, j: nat)
    requires i <= |vs| && j <= |os|
  {
    forall a, b :: 0 <= a < i && 0 <= b < j ==>
      && DistanceKey(vs[a].vehicleId, os[b].orderId) in matrix
      && matrix[DistanceKey(vs[a].vehicleId, os[b].orderId)] == Distance(gc, vs[a], os[b])
  }

  /** The row of `v` holds the distances to the first `j` orders under their keys. */
  ghost predicate RowCovered(matrix: map<string, real>, v: Vehicle, os: seq<DeliveryOrder>,
                             gc: (Point, Point) -> real, j: nat)
    requires j <= |os|
  {
    forall b :: 0 <= b < j ==>
      && DistanceKey(v.vehicleId, os[b].orderId) in matrix
      && matrix[DistanceKey(v.vehicleId, os[b].orderId)] == Distance(gc, v, os[b])
  }

  /** Caching one more pair under its key overwrites no pair cached before it. */
  lemma CachingKeepsCoverage(matrix: map<string, real>, vs: seq<Vehicle>, os: seq<DeliveryOrder>,
                             gc: (Point, Point) -> real, i: nat, j: nat)
    requires i < |vs| && j < |os|
    requires forall a :: 0 <= a < |vs| ==> ValidIdentifier(vs[a].vehicleId)
    requires DistinctVehicleIds(vs) && DistinctOrderIds(os)
    requires CoversPairs(matrix, vs, os, gc, i, |os|) && RowCovered(matrix, vs[i], os, gc, j)
    ensures var cached := matrix[DistanceKey(vs[i].vehicleId, os[j].orderId) := Distance(gc, vs[i], os[j])];
            CoversPairs(cached, vs, os, gc, i, |os|) && RowCovered(cached, vs[i], os, gc, j + 1)
  {
    var key := DistanceKey(vs[i].vehicleId, os[j].orderId);
    forall a, b | 0 <= a < i && 0 <= b < |os|
      ensures DistanceKey(vs[a].vehicleId, os[b].orderId) != key
    {
      DistanceKeyInjective(vs[a].vehicleId, os[b].orderId, vs[i].vehicleId, os[j].orderId);
    }
    forall b | 0 <= b < j
      ensures DistanceKey(vs[i].vehicleId, os[b].orderId) != key
    {
      DistanceKeyInjective(vs[i].vehicleId, os[b].orderId, vs[i].vehicleId, os[j].orderId);
    }
  }

  /** The first error met in the row of vehicle `i`, after error-free vehicles before it, is the
      first error of the whole table. */
  lemma FirstErrorOfTable(gc: (Point, Point) -> real, vs: seq<Vehicle>, os: seq<DeliveryOrder>, i: nat, j: nat)
    requires i < |vs| && j < |os|
    requires MatrixError(gc, vs[..i], os).None? && RowError(gc, vs[i], os[..j]).None?
    requires PairDistance(gc, vs[i], os[j]).Err?
    ensures MatrixError(gc, vs, os) == Some(PairDistance(gc, vs[i], os[j]).error)
  {
    var e := PairDistance(gc, vs[i], os[j]).error;
    assert os[..j + 1][..j] == os[..j];
    assert RowError(gc, vs[i], os[..j + 1]) == Some(e);
    RowErrorExtends(gc, vs[i], os, j + 1);
    assert vs[..i + 1][..i] == vs[..i];
    assert MatrixError(gc, vs[..i + 1], os) == Some(e);
    MatrixErrorExtends(gc, vs, os, i + 1);
  }

  /** A row without errors extends the error-free prefix of the table by one vehicle. */
  lemma CleanRowExtends(gc: (Point, Point) -> real, vs: seq<Vehicle>, os: seq<DeliveryOrder>, i: nat)
    requires i < |vs|
    requires MatrixError(gc, vs[..i], os).None? && RowError(gc, vs[i], os).None?
    ensures MatrixError(gc, vs[..i + 1], os).None?
  {
    assert vs[..i + 1][..i] == vs[..i];
  }

  /** The keys of the first `j` pairs of vehicle `v`'s row, in the order they are cached. */
  ghost function RowKeys(v: Vehicle, os: seq<DeliveryOrder>, j: nat): set<string>
    requires j <= |os|
  {
    if j == 0 then {} else RowKeys(v, os, j - 1) + {DistanceKey(v.vehicleId, os[j - 1].orderId)}
  }

  /** The keys of every pair of the first `i` vehicles' rows. */
  ghost function TableKeys(vs: seq<Vehicle>, os: seq<DeliveryOrder>, i: nat): set<string>
    requires i <= |vs|
  {
    if i == 0 then {} else TableKeys(vs, os, i - 1) + RowKeys(vs[i - 1], os, |os|)
  }

  /** The key of each of the first `j` pairs of a row is among the row's keys. */
  lemma {:induction false} PairKeyInRow(v: Vehicle, os: seq<DeliveryOrder>, j: nat, b: nat)
    requires b < j <= |os|
    ensures DistanceKey(v.vehicleId, os[b].orderId) in RowKeys(v, os, j)
  {
    if b < j - 1 {
      PairKeyInRow(v, os, j - 1, b);
    }
  }

  /** Every key of a row is the key of one of its pairs. */
  lemma {:induction false} RowKeyHasPair(v: Vehicle, os: seq<DeliveryOrder>, j: nat, k: string)
    requires j <= |os| && k in RowKeys(v, os, j)
    ensures exists b :: 0 <= b < j && k == DistanceKey(v.vehicleId, os[b].orderId)
  {
    if k in RowKeys(v, os, j - 1) {
      RowKeyHasPair(v, os, j - 1, k);
    } else {
      assert k == DistanceKey(v.vehicleId, os[j - 1].orderId);
    }
  }

  /** The key of each pair of the first `i` vehicles is among the table keys. */
  lemma {:induction false} PairKeyInTable(vs: seq<Vehicle>, os: seq<DeliveryOrder>, i: nat, a: nat, b: nat)
    requires a < i <= |vs| && b < |os|
    ensures DistanceKey(vs[a].vehicleId, os[b].orderId) in TableKeys(vs, os, i)
  {
    if a < i - 1 {
      PairKeyInTable(vs, os, i - 1, a, b);
    } else {
      PairKeyInRow(vs[a], os, |os|, b);
    }
  }

  /** Every key of the table is the key of one of its pairs. */
  lemma {:induction false} TableKeyHasPair(vs: seq<Vehicle>, os: seq<DeliveryOrder>, i: nat, k: string)
    requires i <= |vs| && k in TableKeys(vs, os, i)
    ensures exists a, b :: 0 <= a < i && 0 <= b < |os| && k == DistanceKey(vs[a].vehicleId, os[b].orderId)
  {
    if k in TableKeys(vs, os, i - 1) {
      TableKeyHasPair(vs, os, i - 1, k);
      var a, b :| 0 <= a < i - 1 && 0 <= b < |os| && k == DistanceKey(vs[a].vehicleId, os[b].orderId);
      assert 0 <= a < i;
    } else {
      RowKeyHasPair(vs[i - 1], os, |os|, k);
      var b :| 0 <= b < |os| && k == DistanceKey(vs[i - 1].vehicleId, os[b].orderId);
      assert 0 <= i - 1 < i;
    }
  }

  /** The table keys are the keys of the table's pairs, and nothing else. */
  lemma TableKeysArePairKeys(vs: seq<Vehicle>, os: seq<DeliveryOrder>, i: nat)
    requires i <= |vs|
    ensures forall a, b :: 0 <= a < i && 0 <= b < |os| ==> DistanceKey(vs[a].vehicleId, os[b].orderId) in TableKeys(vs, os, i)
    ensures forall k :: k in TableKeys(vs, os, i) ==>
              exists a, b :: 0 <= a < i && 0 <= b < |os| && k == DistanceKey(vs[a].vehicleId, os[b].orderId)
  {
    forall a, b | 0 <= a < i && 0 <= b < |os|
      ensures DistanceKey(vs[a].vehicleId, os[b].orderId) in TableKeys(vs, os, i)
    {
      PairKeyInTable(vs, os, i, a, b);
    }
    forall k | k in TableKeys(vs, os, i)
      ensures exists a, b :: 0 <= a < i && 0 <= b < |os| && k == DistanceKey(vs[a].vehicleId, os[b].orderId)
    {
      TableKeyHasPair(vs, os, i, k);
    }
  }

  /** A key of an order other than the first `j` is not among the keys of vehicle `v`'s row. */
  lemma {:induction false} OrderKeyOutsideRow(v: Vehicle, os: seq<DeliveryOrder>, j: nat, orderId: string)
    requires j <= |os| && ValidIdentifier(v.vehicleId)
    requires forall b :: 0 <= b < j ==> os[b].orderId != orderId
    ensures DistanceKey(v.vehicleId, orderId) !in RowKeys(v, os, j)
  {
    if j > 0 {
      OrderKeyOutsideRow(v, os, j - 1, orderId);
      DistanceKeyInjective(v.vehicleId, orderId, v.vehicleId, os[j - 1].orderId);
    }
  }

  /** With distinct order ids, a row of `j` pairs has `j` distinct keys. */
  lemma {:induction false} RowKeysCount(v: Vehicle, os: seq<DeliveryOrder>, j: nat)
    requires j <= |os| && ValidIdentifier(v.vehicleId) && DistinctOrderIds(os)
    ensures |RowKeys(v, os, j)| == j
  {
    if j > 0 {
      RowKeysCount(v, os, j - 1);
      OrderKeyOutsideRow(v, os, j - 1, os[j - 1].orderId);
    }
  }

  /** A key of another vehicle is not among the keys of vehicle `w`'s row. */
  lemma {:induction false} KeyOutsideRow(w: Vehicle, os: seq<DeliveryOrder>, j: nat, vehicleId: string, orderId: string)
    requires j <= |os| && ValidIdentifier(w.vehicleId) && ValidIdentifier(vehicleId)
    requires vehicleId != w.vehicleId
    ensures DistanceKey(vehicleId, orderId) !in RowKeys(w, os, j)
  {
    if j > 0 {
      KeyOutsideRow(w, os, j - 1, vehicleId, orderId);
      DistanceKeyInjective(vehicleId, orderId, w.vehicleId, os[j - 1].orderId);
    }
  }

  /** A key of a vehicle other than the first `i` is not among the keys of their rows. */
  lemma {:induction false} KeyOutsideTable(vs: seq<Vehicle>, os: seq<DeliveryOrder>, i: nat,
                                           vehicleId: string, orderId: string)
    requires i <= |vs| && ValidIdentifier(vehicleId)
    requires forall a :: 0 <= a < |vs| ==> ValidIdentifier(vs[a].vehicleId)
    requires forall a :: 0 <= a < i ==> vs[a].vehicleId != vehicleId
    ensures DistanceKey(vehicleId, orderId) !in TableKeys(vs, os, i)
  {
    if i > 0 {
      KeyOutsideTable(vs, os, i - 1, vehicleId, orderId);
      KeyOutsideRow(vs[i - 1], os, |os|, vehicleId, orderId);
    }
  }

  /** With distinct vehicle ids, the row of vehicle `i` shares no key with the rows before it. */
  lemma {:induction false} RowOutsideTable(vs: seq<Vehicle>, os: seq<DeliveryOrder>, i: nat, j: nat)
    requires i < |vs| && j <= |os|
    requires forall a :: 0 <= a < |vs| ==> ValidIdentifier(vs[a].vehicleId)
    requires DistinctVehicleIds(vs)
    ensures TableKeys(vs, os, i) * RowKeys(vs[i], os, j) == {}
  {
    if j > 0 {
      RowOutsideTable(vs, os, i, j - 1);
      KeyOutsideTable(vs, os, i, vs[i].vehicleId, os[j - 1].orderId);
    }
  }

  /** Two sets without a common element have as many elements together as apart. */
  lemma DisjointUnionSize(xs: set<string>, ys: set<string>)
    requires xs * ys == {}
    ensures |xs + ys| == |xs| + |ys|
  {
    assert xs * ys == {};
  }

  /** `i` rows of `n` keys each, added up row by row. */
  function RowsOf(i: nat, n: nat): nat
  {
    if i == 0 then 0 else RowsOf(i - 1, n) + n
  }

  /** Adding up `i` rows of `n` is multiplying. */
  lemma {:induction false} RowsOfIsProduct(i: nat, n: nat)
    ensures RowsOf(i, n) == i * n
  {
    if i > 0 {
      RowsOfIsProduct(i - 1, n);
      assert (i - 1) * n + n == i * n;
    }
  }

  /** With distinct valid vehicle ids and distinct order ids, no two pairs share a key: the table
      of the first `i` vehicles has `i` times the number of orders keys. */
  lemma TableKeysCount(vs: seq<Vehicle>, os: seq<DeliveryOrder>, i: nat)
    requires i <= |vs|
    requires forall a :: 0 <= a < |vs| ==> ValidIdentifier(vs[a].vehicleId)
    requires DistinctVehicleIds(vs) && DistinctOrderIds(os)
    ensures |TableKeys(vs, os, i)| == i * |os|
  {
    var a := 0;
    while a < i
      invariant a <= i
      invariant |TableKeys(vs, os, a)| == RowsOf(a, |os|)
    {
      RowKeysCount(vs[a], os, |os|);
      RowOutsideTable(vs, os, a, |os|);
      DisjointUnionSize(TableKeys(vs, os, a), RowKeys(vs[a], os, |os|));
      a := a + 1;
    }
    RowsOfIsProduct(i, |os|);
  }

  /** A finished row of vehicle `i` extends the covered vehicles by one. */
  lemma RowCompletesCover(matrix: map<string, real>, vs: seq<Vehicle>, os: seq<DeliveryOrder>,
                          gc: (Point, Point) -> real, i: nat)
    requires i < |vs|
    requires CoversPairs(matrix, vs, os, gc, i, |os|) && RowCovered(matrix, vs[i], os, gc, |os|)
    ensures CoversPairs(matrix, vs, os, gc, i + 1, |os|)
  {
  }

  /** The inner loop of `buildDistanceMatrix`: caches the distances of vehicle `i` to every
      order, in order, after the rows of the vehicles before it; an invalid coordinate stops it
      with the first error of the whole table. */
  method CacheRow(vehicles: seq<Vehicle>, orders: seq<DeliveryOrder>, gc: (Point, Point) -> real,
                  i: nat, distanceMatrix: map<string, real>)
    returns (r: Result<map<string, real>, CoordinateError>)
    requires i < |vehicles|
    requires forall a :: 0 <= a < |vehicles| ==> ValidIdentifier(vehicles[a].vehicleId)
    requires DistinctVehicleIds(vehicles) && DistinctOrderIds(orders)
    requires MatrixError(gc, vehicles[..i], orders).None?
    requires CoversPairs(distanceMatrix, vehicles, orders, gc, i, |orders|)
    ensures r.Err? ==> Some(r.error) == MatrixError(gc, vehicles, orders)
    ensures r.Ok? ==> MatrixError(gc, vehicles[..i + 1], orders).None?
    ensures r.Ok? ==> CoversPairs(r.value, vehicles, orders, gc, i + 1, |orders|)
    ensures r.Ok? ==> r.value.Keys == distanceMatrix.Keys + RowKeys(vehicles[i], orders, |orders|)
  {
    var vehicle := vehicles[i];
    var row := distanceMatrix;
    var j := 0;
    while j < |orders|
      invariant 0 <= j <= |orders|
      invariant RowError(gc, vehicle, orders[..j]).None?
      invariant CoversPairs(row, vehicles, orders, gc, i, |orders|)
      invariant RowCovered(row, vehicle, orders, gc, j)
      invariant row.Keys == distanceMatrix.Keys + RowKeys(vehicle, orders, j)
    {
      var order := orders[j];
      var distance := PairDistance(gc, vehicle, order);
      if distance.Err? {
        FirstErrorOfTable(gc, vehicles, orders, i, j);
        return Err(distance.error);
      }
      assert orders[..j + 1][..j] == orders[..j];
      CachingKeepsCoverage(row, vehicles, orders, gc, i, j);
      row := row[DistanceKey(vehicle.vehicleId, order.orderId) := distance.value];
      j := j + 1;
    }
    assert orders[..|orders|] == orders;
    CleanRowExtends(gc, vehicles, orders, i);
    RowCompletesCover(row, vehicles, orders, gc, i);
    return Ok(row);
  }

  /** `buildDistanceMatrix`: the distance of every (vehicle, order) pair, computed once and
      cached under the key "vehicleId:orderId", and no other key; an invalid coordinate stops it
      with the first error met, vehicle by vehicle and, within a vehicle, order by order. */
  method BuildDistanceMatrix(vehicles: seq<Vehicle>, orders: seq<DeliveryOrder>, gc: (Point, Point) -> real)
    returns (r: Result<map<string, real>, CoordinateError>)
    requires forall a :: 0 <= a < |vehicles| ==> ValidIdentifier(vehicles[a].vehicleId)
    requires DistinctVehicleIds(vehicles) && DistinctOrderIds(orders)
    ensures r.Err? <==> MatrixError(gc, vehicles, orders).Some?
    ensures r.Err? ==> Some(r.error) == MatrixError(gc, vehicles, orders)
    ensures r.Ok? ==> CoversPairs(r.value, vehicles, orders, gc, |vehicles|, |orders|)
    ensures r.Ok? ==> r.value.Keys == TableKeys(vehicles, orders, |vehicles|)
    ensures r.Ok? ==> |r.value| == |vehicles| * |orders|
  {
    var distanceMatrix: map<string, real> := map[];
    var i := 0;
    while i < |vehicles|
      invariant 0 <= i <= |vehicles|
      invariant MatrixError(gc, vehicles[..i], orders).None?
      invariant CoversPairs(distanceMatrix, vehicles, orders, gc, i, |orders|)
      invariant distanceMatrix.Keys == TableKeys(vehicles, orders, i)
    {
      var row := CacheRow(vehicles, orders, gc, i, distanceMatrix);
      if row.Err? {
        return Err(row.error);
      }
      distanceMatrix := row.value;
      i := i + 1;
    }
    assert vehicles[..|vehicles|] == vehicles;
    TableKeysCount(vehicles, orders, |vehicles|);
    assert |distanceMatrix| == |distanceMatrix.Keys|;
    return Ok(distanceMatrix);
  }

  // ---------------------------------------------------------------------------------------
  // The vehicle states and the greedy pass

  /** The ids are distinct and name distinct state objects, so updating one vehicle's state
      leaves every other vehicle's state alone. */
  ghost predicate SeparateStates(states: map<string, VehicleState>, ids: seq<string>)
  {
    forall i, j :: 0 <= i < j < |ids| && ids[i] in states && ids[j] in states ==>
      ids[i] != ids[j] && states[ids[i]] != states[ids[j]]
  }

  /** Visiting the states in the order of `ids` visits the state objects `vs` and, through them,
      the vehicles of `fleet`, in order. */
  ghost predicate Drives(states: map<string, VehicleState>, ids: seq<string>, fleet: seq<Vehicle>,
                         vs: seq<VehicleState>)
  {
    && |fleet| == |ids| && |vs| == |ids|
    && forall j :: 0 <= j < |ids| ==>
         && ids[j] in states && states[ids[j]] == vs[j]
         && vs[j].vehicle == fleet[j] && fleet[j].vehicleId == ids[j]
  }

  /** The states `vs` and the assignment lists, read in the order of `ids`, hold the tallies `ts`. */
  ghost predicate Mirrors(vs: seq<VehicleState>, assignments: map<string, seq<AssignmentRecord>>,
                          ids: seq<string>, ts: seq<Tally>)
    reads vs
  {
    && |ts| == |ids| && |vs| == |ids|
    && forall j :: 0 <= j < |ids| ==>
         && ids[j] in assignments
         && ts[j] == Tally(vs[j].currentLoad, vs[j].totalDistance, assignments[ids[j]])
  }

  /** Every visited vehicle's distance to `order` is cached under its key. */
  ghost predicate CachesOrder(distanceMatrix: map<string, real>, ids: seq<string>, fleet: seq<Vehicle>,
                              order: DeliveryOrder, gc: (Point, Point) -> real)
    requires |fleet| == |ids|
  {
    forall j :: 0 <= j < |ids| ==>
      && DistanceKey(ids[j], order.orderId) in distanceMatrix
      && distanceMatrix[DistanceKey(ids[j], order.orderId)] == Distance(gc, fleet[j], order)
  }

  /** The vehicle chosen for an order, by id, and its cached distance. */
  datatype VehicleAssignment = VehicleAssignment(vehicleId: string, distance: real)

  /** `findBestVehicle`: visits the states in map order, skips vehicles without room and keeps
      the first strictly nearer one; the result is the reference choice `Nearest` for the
      current loads, reported by vehicle id. */
  method FindBestVehicle(order: DeliveryOrder, states: map<string, VehicleState>, ids: seq<string>,
                         distanceMatrix: map<string, real>, ghost fleet: seq<Vehicle>, ghost vs: seq<VehicleState>,
                         ghost loads: seq<int>, ghost gc: (Point, Point) -> real)
    returns (best: Option<VehicleAssignment>)
    requires Drives(states, ids, fleet, vs) && |loads| == |ids|
    requires forall j :: 0 <= j < |ids| ==> vs[j].currentLoad == loads[j]
    requires CachesOrder(distanceMatrix, ids, fleet, order, gc)
    ensures var n := Nearest(fleet, loads, order, gc);
            && (best.None? <==> n.None?)
            && (best.Some? ==> n.Some? && best.value == VehicleAssignment(ids[n.value.slot], n.value.distance))
  {
    best := None;
    var minDistance := DoubleMax;
    var j := 0;
    while j < |ids|
      invariant 0 <= j <= |ids|
      invariant var s := Scan(fleet, loads, order, gc, j);
                && minDistance == s.1
                && (best.None? <==> s.0.None?)
                && (best.Some? ==> s.0.Some? && best.value == VehicleAssignment(ids[s.0.value.slot], s.0.value.distance))
    {
      var vehicleId := ids[j];
      var state := states[vehicleId];
      if state.RemainingCapacity() >= order.packageWeight {
        var distance := distanceMatrix[DistanceKey(vehicleId, order.orderId)];
        if distance < minDistance {
          minDistance := distance;
          best := Some(VehicleAssignment(vehicleId, distance));
        }
      }
      j := j + 1;
    }
  }

  /** Iteration `i` of `assignOrders`: the order goes to the vehicle `FindBestVehicle` picks, if
      any, whose state takes on the order and whose list gains a record; the states and lists
      then hold the reference step `Place` applied to what they held before, that is, the
      reference pass over one more order. */
  method AssignOne(sortedOrders: seq<DeliveryOrder>, i: nat, states: map<string, VehicleState>, ids: seq<string>,
                   assignments: map<string, seq<AssignmentRecord>>, distanceMatrix: map<string, real>,
                   ghost fleet: seq<Vehicle>, ghost vs: seq<VehicleState>, ghost gc: (Point, Point) -> real)
    returns (updated: map<string, seq<AssignmentRecord>>)
    requires i < |sortedOrders|
    requires SeparateStates(states, ids) && Drives(states, ids, fleet, vs)
    requires Mirrors(vs, assignments, ids, Tallies(fleet, sortedOrders[..i], gc))
    requires CachesOrder(distanceMatrix, ids, fleet, sortedOrders[i], gc)
    modifies vs
    ensures updated.Keys == assignments.Keys
    ensures Mirrors(vs, updated, ids, Tallies(fleet, sortedOrders[..i + 1], gc))
  {
    var order := sortedOrders[i];
    ghost var before := Tallies(fleet, sortedOrders[..i], gc);
    var best := FindBestVehicle(order, states, ids, distanceMatrix, fleet, vs, Loads(before), gc);
    updated := assignments;
    if best.Some? {
      ghost var slot := Nearest(fleet, Loads(before), order, gc).value.slot;
      var vehicleId := best.value.vehicleId;
      var state := states[vehicleId];
      state.AddOrder(order, best.value.distance);
      updated := assignments[vehicleId := assignments[vehicleId] + [AssignmentRecord(order, best.value.distance)]];
      ghost var placed := Place(fleet, before, order, gc);
      assert placed == before[slot := Tally(before[slot].load + order.packageWeight,
                                            before[slot].travelled + best.value.distance,
                                            before[slot].records + [AssignmentRecord(order, best.value.distance)])];
      forall j | 0 <= j < |ids| && j != slot
        ensures vs[j] != state && ids[j] != vehicleId
      {
        assert ids[j] != ids[slot];
      }
    }
    assert Mirrors(vs, updated, ids, Place(fleet, before, order, gc));
    TalliesOneMore(fleet, sortedOrders, i, gc);
  }

  /** An empty assignment list for every vehicle id. */
  method EmptyLists(ids: seq<string>) returns (assignments: map<string, seq<AssignmentRecord>>)
    ensures forall id :: id in assignments <==> id in ids
    ensures forall id :: id in assignments ==> assignments[id] == []
  {
    assignments := map[];
    var k := 0;
    while k < |ids|
      invariant 0 <= k <= |ids|
      invariant forall id :: id in assignments <==> id in ids[..k]
      invariant forall id :: id in assignments ==> assignments[id] == []
    {
      assert ids[..k + 1] == ids[..k] + [ids[k]];
      assignments := assignments[ids[k] := []];
      k := k + 1;
    }
    assert ids[..|ids|] == ids;
  }

  /** Unloaded vehicles with empty lists hold the tallies the greedy pass starts from. */
  lemma IdleMirrors(vs: seq<VehicleState>, assignments: map<string, seq<AssignmentRecord>>, ids: seq<string>)
    requires |vs| == |ids|
    requires forall j :: 0 <= j < |ids| ==> vs[j].currentLoad == 0 && vs[j].totalDistance == 0.0
    requires forall id :: id in assignments <==> id in ids
    requires forall id :: id in assignments ==> assignments[id] == []
    ensures Mirrors(vs, assignments, ids, Idle(|ids|))
  {
  }

  /** `assignOrders`: starting from empty lists and unloaded vehicles, hands each sorted order to
      the vehicle `FindBestVehicle` picks, updating that vehicle's state and list only. The
      final loads, distances and lists are those of the reference pass `Tallies`. */
  method AssignOrders(sortedOrders: seq<DeliveryOrder>, states: map<string, VehicleState>, ids: seq<string>,
                      distanceMatrix: map<string, real>, ghost fleet: seq<Vehicle>, ghost vs: seq<VehicleState>,
                      ghost gc: (Point, Point) -> real)
    returns (assignments: map<string, seq<AssignmentRecord>>)
    requires SeparateStates(states, ids) && Drives(states, ids, fleet, vs)
    requires forall j :: 0 <= j < |ids| ==> vs[j].currentLoad == 0 && vs[j].totalDistance == 0.0
    requires forall i {:trigger CachesOrder(distanceMatrix, ids, fleet, sortedOrders[i], gc)} :: 0 <= i < |sortedOrders| ==>
               CachesOrder(distanceMatrix, ids, fleet, sortedOrders[i], gc)
    modifies vs
    ensures forall id :: id in assignments <==> id in ids
    ensures Mirrors(vs, assignments, ids, Tallies(fleet, sortedOrders, gc))
  {
    assignments := EmptyLists(ids);
    IdleMirrors(vs, assignments, ids);
    assert sortedOrders[..0] == [];
    ghost var keys := assignments.Keys;
    var i := 0;
    while i < |sortedOrders|
      invariant 0 <= i <= |sortedOrders|
      invariant assignments.Keys == keys
      invariant Mirrors(vs, assignments, ids, Tallies(fleet, sortedOrders[..i], gc))
    {
      assignments := AssignOne(sortedOrders, i, states, ids, assignments, distanceMatrix, fleet, vs, gc);
      i := i + 1;
    }
    assert sortedOrders[..|sortedOrders|] == sortedOrders;
  }

  /** `initializeVehicleStates`: one fresh, unloaded state per vehicle, stored under its id; a
      later vehicle with the same id replaces an earlier one. */
  method InitializeVehicleStates(vehicles: seq<Vehicle>) returns (states: map<string, VehicleState>)
    ensures forall i :: 0 <= i < |vehicles| ==> vehicles[i].vehicleId in states
    ensures forall id :: id in states ==> exists i :: 0 <= i < |vehicles| && vehicles[i].vehicleId == id
    ensures forall i :: 0 <= i < |vehicles| ==>
              || states[vehicles[i].vehicleId].vehicle == vehicles[i]
              || exists j :: i < j < |vehicles| && vehicles[j].vehicleId == vehicles[i].vehicleId
    ensures forall id :: id in states ==>
              && fresh(states[id])
              && states[id].vehicle.vehicleId == id
              && states[id].currentLoad == 0 && states[id].totalDistance == 0.0
    ensures forall a, b :: a in states && b in states && a != b ==> states[a] != states[b]
  {
    states := map[];
    var i := 0;
    while i < |vehicles|
      invariant 0 <= i <= |vehicles|
      invariant forall k :: 0 <= k < i ==> vehicles[k].vehicleId in states
      invariant forall id :: id in states ==> exists k :: 0 <= k < i && vehicles[k].vehicleId == id
      invariant forall k :: 0 <= k < i ==>
                  || states[vehicles[k].vehicleId].vehicle == vehicles[k]
                  || exists j :: k < j < i && vehicles[j].vehicleId == vehicles[k].vehicleId
      invariant forall id :: id in states ==>
                  && fresh(states[id])
                  && states[id].vehicle.vehicleId == id
                  && states[id].currentLoad == 0 && states[id].totalDistance == 0.0
      invariant forall a, b :: a in states && b in states && a != b ==> states[a] != states[b]
    {
      var vehicle := vehicles[i];
      var state := new VehicleState(vehicle);
      states := states[vehicle.vehicleId := state];
      i := i + 1;
    }
  }

  /** `buildDispatchPlan`: visits the states in map order, skips vehicles whose list is empty and
      accumulates the plan entries, counts, distance and utilization; the result is the
      reference plan `DispatchPlanOf` of the tallies the states and lists hold. */
  method BuildDispatchPlan(assignments: map<string, seq<AssignmentRecord>>, states: map<string, VehicleState>,
                           ids: seq<string>, totalOrders: int, ghost fleet: seq<Vehicle>, ghost vs: seq<VehicleState>,
                           ghost ts: seq<Tally>)
    returns (plan: DispatchPlan)
    requires Drives(states, ids, fleet, vs) && Mirrors(vs, assignments, ids, ts)
    requires UsedHaveCapacity(fleet, ts)
    ensures plan == DispatchPlanOf(fleet, ts, totalOrders)
  {
    var dispatchPlan: seq<VehiclePlan> := [];
    var assignedOrders := 0;
    var usedVehicles := 0;
    var totalDistanceCovered := 0.0;
    var totalUtilization := 0.0;
    var j := 0;
    while j < |ids|
      invariant 0 <= j <= |ids|
      invariant dispatchPlan == UsedPlans(fleet[..j], ts[..j])
      invariant assignedOrders == SumOrderCounts(dispatchPlan)
      invariant usedVehicles == |dispatchPlan|
      invariant totalDistanceCovered == SumTotalDistances(dispatchPlan)
      invariant totalUtilization == SumUtilizations(dispatchPlan)
    {
      var vehicleId := ids[j];
      var state := states[vehicleId];
      var vehicleOrders := assignments[vehicleId];
      PlanStep(fleet, ts, j);
      if vehicleOrders != [] {
        usedVehicles := usedVehicles + 1;
        assignedOrders := assignedOrders + |vehicleOrders|;
        totalDistanceCovered := totalDistanceCovered + state.totalDistance;
        var utilization := Utilization(state.currentLoad, state.vehicle.capacity);
        totalUtilization := totalUtilization + utilization;
        var vehiclePlan := VehiclePlan(vehicleId, state.currentLoad, state.totalDistance,
                                       AssignedOrdersOf(vehicleOrders), |vehicleOrders|, utilization);
        dispatchPlan := dispatchPlan + [vehiclePlan];
      }
      j := j + 1;
    }
    assert fleet[..|ids|] == fleet && ts[..|ids|] == ts;
    var averageUtilization := Average(totalUtilization, usedVehicles);
    var summary := PlanSummary(totalOrders, assignedOrders, totalOrders - assignedOrders, |ids|, usedVehicles,
                               totalDistanceCovered, averageUtilization);
    plan := DispatchPlan(GeneratedMessage, if assignedOrders == totalOrders then SUCCESS else PARTIAL,
                         dispatchPlan, summary);
  }

  // ---------------------------------------------------------------------------------------
  // The whole run

  /** `order` visits each of the `n` vehicle positions exactly once. */
  predicate IsVisitingOrder(order: seq<nat>, n: nat)
  {
    && |order| == n
    && (forall j :: 0 <= j < |order| ==> order[j] < n)
    && (forall i :: 0 <= i < n ==> i in order)
    && (forall i, j :: 0 <= i < j < |order| ==> order[i] != order[j])
  }

  /** The vehicles in the order the state map visits them. */
  function InVisitingOrder(vehicles: seq<Vehicle>, order: seq<nat>): (fleet: seq<Vehicle>)
    requires forall j :: 0 <= j < |order| ==> order[j] < |vehicles|
    ensures |fleet| == |order| && forall j :: 0 <= j < |order| ==> fleet[j] == vehicles[order[j]]
  {
    seq(|order|, j requires 0 <= j < |order| => vehicles[order[j]])
  }

  /** Sorting keeps every package weight positive, since it only rearranges the orders. */
  lemma SortKeepsWeightsPositive(orders: seq<DeliveryOrder>)
    requires forall i :: 0 <= i < |orders| ==> orders[i].packageWeight > 0
    ensures forall i :: 0 <= i < |SortOrdersByPriority(orders)| ==> SortOrdersByPriority(orders)[i].packageWeight > 0
  {
    var sorted := SortOrdersByPriority(orders);
    forall i | 0 <= i < |sorted|
      ensures sorted[i].packageWeight > 0
    {
      assert sorted[i] in multiset(orders);
    }
  }

  /** With distinct vehicle ids, the states built from the vehicles, listed in visiting order,
      are indexed by `ids` and belong to the vehicles in visiting order. */
  lemma StatesFollowVisitingOrder(vehicles: seq<Vehicle>, visitOrder: seq<nat>,
                                  states: map<string, VehicleState>, ids: seq<string>, vs: seq<VehicleState>)
    requires DistinctVehicleIds(vehicles) && IsVisitingOrder(visitOrder, |vehicles|)
    requires |ids| == |visitOrder| && forall j :: 0 <= j < |ids| ==> ids[j] == vehicles[visitOrder[j]].vehicleId
    requires forall i :: 0 <= i < |vehicles| ==> vehicles[i].vehicleId in states
    requires forall id :: id in states ==> exists i :: 0 <= i < |vehicles| && vehicles[i].vehicleId == id
    requires forall i :: 0 <= i < |vehicles| ==>
               || states[vehicles[i].vehicleId].vehicle == vehicles[i]
               || exists j :: i < j < |vehicles| && vehicles[j].vehicleId == vehicles[i].vehicleId
    requires forall id :: id in states ==> states[id].vehicle.vehicleId == id
    requires forall a, b :: a in states && b in states && a != b ==> states[a] != states[b]
    requires |vs| == |ids| && forall j :: 0 <= j < |ids| ==> ids[j] in states && vs[j] == states[ids[j]]
    ensures SeparateStates(states, ids)
    ensures Drives(states, ids, InVisitingOrder(vehicles, visitOrder), vs)
  {
    forall i | 0 <= i < |vehicles|
      ensures states[vehicles[i].vehicleId].vehicle == vehicles[i]
    {
      if states[vehicles[i].vehicleId].vehicle != vehicles[i] {
        assert false;
      }
    }
    forall id | id in states
      ensures id in ids
    {
      var a :| 0 <= a < |vehicles| && vehicles[a].vehicleId == id;
      assert a in visitOrder;
      var j :| 0 <= j < |visitOrder| && visitOrder[j] == a;
      assert ids[j] == id;
    }
  }

  /** The distance table, filled in input order, holds every (visited vehicle, sorted order) pair
      under the key the greedy pass looks up. */
  lemma CoverageInVisitingOrder(vehicles: seq<Vehicle>, visitOrder: seq<nat>, sortedOrders: seq<DeliveryOrder>,
                                ids: seq<string>, distanceMatrix: map<string, real>, gc: (Point, Point) -> real)
    requires IsVisitingOrder(visitOrder, |vehicles|)
    requires |ids| == |visitOrder| && forall j :: 0 <= j < |ids| ==> ids[j] == vehicles[visitOrder[j]].vehicleId
    requires CoversPairs(distanceMatrix, vehicles, sortedOrders, gc, |vehicles|, |sortedOrders|)
    ensures forall i :: 0 <= i < |sortedOrders| ==>
              CachesOrder(distanceMatrix, ids, InVisitingOrder(vehicles, visitOrder), sortedOrders[i], gc)
  {
    var fleet := InVisitingOrder(vehicles, visitOrder);
    forall i | 0 <= i < |sortedOrders|
      ensures CachesOrder(distanceMatrix, ids, fleet, sortedOrders[i], gc)
    {
      forall j | 0 <= j < |ids|
        ensures && DistanceKey(ids[j], sortedOrders[i].orderId) in distanceMatrix
                && distanceMatrix[DistanceKey(ids[j], sortedOrders[i].orderId)] == Distance(gc, fleet[j], sortedOrders[i])
      {
        assert fleet[j] == vehicles[visitOrder[j]];
      }
    }
  }

  /** `optimizeDispatch`: an empty order list gives a FAILED plan "No orders to assign" (checked
      first), an empty fleet a FAILED plan "No vehicles available"; otherwise the orders are
      sorted, the distance table is filled (stopping at the first invalid coordinate), the greedy
      pass runs over the vehicles in the map's visiting order `visitOrder`, and the plan is the
      reference plan of the reference pass. */
  method OptimizeDispatch(orders: seq<DeliveryOrder>, vehicles: seq<Vehicle>, visitOrder: seq<nat>,
                          gc: (Point, Point) -> real)
    returns (r: Result<DispatchPlan, CoordinateError>)
    requires DistinctVehicleIds(vehicles) && DistinctOrderIds(orders)
    requires forall a :: 0 <= a < |vehicles| ==> ValidIdentifier(vehicles[a].vehicleId)
    requires forall i :: 0 <= i < |orders| ==> orders[i].packageWeight > 0
    requires IsVisitingOrder(visitOrder, |vehicles|)
    ensures orders == [] ==> r == Ok(EmptyPlan("No orders to assign"))
    ensures orders != [] && vehicles == [] ==> r == Ok(EmptyPlan("No vehicles available"))
    ensures orders != [] && vehicles != [] ==>
              LoadsWithinCapacity(InVisitingOrder(vehicles, visitOrder),
                                  Tallies(InVisitingOrder(vehicles, visitOrder), SortOrdersByPriority(orders), gc))
    ensures orders != [] && vehicles != [] ==>
              match MatrixError(gc, vehicles, SortOrdersByPriority(orders))
              case Some(e) => r == Err(e)
              case None =>
                var fleet := InVisitingOrder(vehicles, visitOrder);
                r == Ok(DispatchPlanOf(fleet, Tallies(fleet, SortOrdersByPriority(orders), gc), |orders|))
  {
    if orders == [] {
      return Ok(EmptyPlan("No orders to assign"));
    }
    if vehicles == [] {
      return Ok(EmptyPlan("No vehicles available"));
    }
    var sortedOrders := SortOrdersByPriority(orders);
    SortKeepsDistinctIds(orders);
    SortKeepsWeightsPositive(orders);
    ghost var fleet := InVisitingOrder(vehicles, visitOrder);
    UsedVehiclesWithinCapacity(fleet, sortedOrders, gc);

    var vehicleStates := InitializeVehicleStates(vehicles);
    var ids := seq(|visitOrder|, j requires 0 <= j < |visitOrder| => vehicles[visitOrder[j]].vehicleId);
    ghost var vs := seq(|ids|, j requires 0 <= j < |ids| => vehicleStates[ids[j]]);
    StatesFollowVisitingOrder(vehicles, visitOrder, vehicleStates, ids, vs);

    var matrixResult := BuildDistanceMatrix(vehicles, sortedOrders, gc);
    if matrixResult.Err? {
      return Err(matrixResult.error);
    }
    var distanceMatrix := matrixResult.value;
    CoverageInVisitingOrder(vehicles, visitOrder, sortedOrders, ids, distanceMatrix, gc);

    var assignments := AssignOrders(sortedOrders, vehicleStates, ids, distanceMatrix, fleet, vs, gc);
    ghost var tallies := Tallies(fleet, sortedOrders, gc);
    assert UsedHaveCapacity(fleet, tallies);
    var plan := BuildDispatchPlan(assignments, vehicleStates, ids, |sortedOrders|, fleet, vs, tallies);
    assert plan == DispatchPlanOf(fleet, tallies, |orders|);
    assert MatrixError(gc, vehicles, sortedOrders).None?;
    return Ok(plan);
  }
}

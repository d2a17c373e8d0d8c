/** The service in front of the engine. It stores orders and vehicles after checking the ids of
    a request against each other and against what is stored, and it runs the engine over
    everything stored. Each repository is modelled as the list of stored entities, in the order
    they were saved; `existsById` is membership of an id in that list. */
module Service {
  import opened Wrappers
  import opened Priorities
  import opened Entities
  import opened Haversine
  import opened OrderSorting
  import opened GreedyAssignment
  import opened PlanAssembly
  import opened OptimizationEngine

  /** Why a service call failed: one case per exception the service lets escape. */
  datatype ServiceError =
    | IllegalArgument(message: string)
    | DuplicateOrder(orderId: string)
    | DuplicateVehicle(vehicleId: string)
    | NoOrders
    | NoVehicles
    | InvalidCoordinates(error: CoordinateError)

  /** The figures of the message `saveOrders` answers with. */
  datatype OrdersSaved = OrdersSaved(saved: nat, high: nat, medium: nat, low: nat)

  /** The figures of the message `saveVehicles` answers with. */
  datatype VehiclesSaved = VehiclesSaved(saved: nat, totalCapacity: int)

  // ---------------------------------------------------------------------------------------
  // Duplicates inside one request

  /** No id occurs twice. */
  predicate AllDistinct(ids: seq<string>)
  {
    forall i, j :: 0 <= i < j < |ids| ==> ids[i] != ids[j]
  }

  /** The ids with every repeat dropped, first occurrences kept, as `stream().distinct()` does. */
  function Distinct(ids: seq<string>): (r: seq<string>)
    ensures |r| <= |ids|
    ensures forall x :: x in r <==> x in ids
  {
    if ids == [] then []
    else
      var d := Distinct(ids[..|ids| - 1]);
      assert forall x :: x in ids <==> x in ids[..|ids| - 1] || x == ids[|ids| - 1];
      if ids[|ids| - 1] in d then d else d + [ids[|ids| - 1]]
  }

  /** Counting the distinct ids detects a repeat: the count falls short of the number of ids
      exactly when some id occurs twice. */
  lemma {:induction false} DistinctCountDetectsRepeats(ids: seq<string>)
    ensures |Distinct(ids)| < |ids| <==> !AllDistinct(ids)
    ensures |Distinct(ids)| == |ids| <==> AllDistinct(ids)
  {
    if ids != [] {
      var prefix := ids[..|ids| - 1];
      var last := ids[|ids| - 1];
      DistinctCountDetectsRepeats(prefix);
      if last in prefix {
        var k :| 0 <= k < |prefix| && prefix[k] == last;
        assert ids[k] == ids[|ids| - 1];
      } else {
        if AllDistinct(prefix) {
          forall i, j | 0 <= i < j < |ids|
            ensures ids[i] != ids[j]
          {
            if j == |ids| - 1 {
              assert ids[i] == prefix[i];
            } else {
              assert ids[i] == prefix[i] && ids[j] == prefix[j];
            }
          }
        } else {
          var i, j :| 0 <= i < j < |prefix| && prefix[i] == prefix[j];
          assert ids[i] == ids[j];
        }
      }
    }
  }

  function OrderIds(orders: seq<DeliveryOrder>): (ids: seq<string>)
    ensures |ids| == |orders| && forall i :: 0 <= i < |orders| ==> ids[i] == orders[i].orderId
  {
    seq(|orders|, i requires 0 <= i < |orders| => orders[i].orderId)
  }

  function VehicleIds(vehicles: seq<Vehicle>): (ids: seq<string>)
    ensures |ids| == |vehicles| && forall i :: 0 <= i < |vehicles| ==> ids[i] == vehicles[i].vehicleId
  {
    seq(|vehicles|, i requires 0 <= i < |vehicles| => vehicles[i].vehicleId)
  }

  /** `validateNoDuplicateOrderIds`: fails with an illegal-argument error exactly when two orders
      of the request share an id. */
  function ValidateNoDuplicateOrderIds(orders: seq<DeliveryOrder>): (r: Option<ServiceError>)
    ensures r.None? <==> DistinctOrderIds(orders)
    ensures r.Some? ==> r.value == IllegalArgument("Request contains duplicate order IDs")
  {
    var ids := OrderIds(orders);
    DistinctCountDetectsRepeats(ids);
    assert AllDistinct(ids) <==> DistinctOrderIds(orders);
    if |Distinct(ids)| < |ids| then Some(IllegalArgument("Request contains duplicate order IDs")) else None
  }

  /** `validateNoDuplicateVehicleIds`: fails with an illegal-argument error exactly when two
      vehicles of the request share an id. */
  function ValidateNoDuplicateVehicleIds(vehicles: seq<Vehicle>): (r: Option<ServiceError>)
    ensures r.None? <==> DistinctVehicleIds(vehicles)
    ensures r.Some? ==> r.value == IllegalArgument("Request contains duplicate vehicle IDs")
  {
    var ids := VehicleIds(vehicles);
    DistinctCountDetectsRepeats(ids);
    assert AllDistinct(ids) <==> DistinctVehicleIds(vehicles);
    if |Distinct(ids)| < |ids| then Some(IllegalArgument("Request contains duplicate vehicle IDs")) else None
  }

  // ---------------------------------------------------------------------------------------
  // Ids already stored

  /** The first id of the request, in request order, that is already stored. */
  function FirstStored(ids: seq<string>, stored: set<string>): (r: Option<string>)
    ensures r.None? <==> forall i :: 0 <= i < |ids| ==> ids[i] !in stored
    ensures r.Some? ==> exists i :: && 0 <= i < |ids| && ids[i] == r.value && r.value in stored
                                    && forall k :: 0 <= k < i ==> ids[k] !in stored
  {
    if ids == [] then None
    else if ids[0] in stored then Some(ids[0])
    else
      var r := FirstStored(ids[1..], stored);
      assert forall i :: 1 <= i < |ids| ==> ids[i] == ids[1..][i - 1];
      if r.Some? then
        var i :| && 0 <= i < |ids[1..]| && ids[1..][i] == r.value && r.value in stored
                 && forall k :: 0 <= k < i ==> ids[1..][k] !in stored;
        assert ids[i + 1] == r.value;
        r
      else
        r
  }

  /** The stored id found by a scan that stopped at position `i` is the first stored one. */
  lemma FirstStoredAt(ids: seq<string>, stored: set<string>, i: nat)
    requires i < |ids| && ids[i] in stored
    requires forall k :: 0 <= k < i ==> ids[k] !in stored
    ensures FirstStored(ids, stored) == Some(ids[i])
  {
    var r := FirstStored(ids, stored);
    var j :| && 0 <= j < |ids| && ids[j] == r.value && r.value in stored
             && forall k :: 0 <= k < j ==> ids[k] !in stored;
    assert !(j < i) && !(i < j);
  }

  // ---------------------------------------------------------------------------------------
  // Figures of the save messages

  /** `countByPriority`: how many of the orders have priority `p`. */
  function CountByPriority(orders: seq<DeliveryOrder>, p: Priority): (r: nat)
    ensures r <= |orders|
    ensures r == 0 <==> forall i :: 0 <= i < |orders| ==> orders[i].priority != p
    ensures r == |orders| <==> forall i :: 0 <= i < |orders| ==> orders[i].priority == p
  {
    if orders == [] then 0
    else CountByPriority(orders[..|orders| - 1], p) + (if orders[|orders| - 1].priority == p then 1 else 0)
  }

  /** Every order has exactly one of the three priorities, so the counts add up to the number of
      orders. */
  lemma {:induction false} PriorityCountsAddUp(orders: seq<DeliveryOrder>)
    ensures CountByPriority(orders, HIGH) + CountByPriority(orders, MEDIUM) + CountByPriority(orders, LOW)
            == |orders|
  {
    if orders != [] {
      PriorityCountsAddUp(orders[..|orders| - 1]);
    }
  }

  /** The capacities of the vehicles, in order: the stream `mapToInt(Vehicle::getCapacity)`. */
  function Capacities(vehicles: seq<Vehicle>): (r: seq<int>)
    ensures |r| == |vehicles| && forall a :: 0 <= a < |r| ==> r[a] == vehicles[a].capacity
  {
    seq(|vehicles|, a requires 0 <= a < |vehicles| => vehicles[a].capacity)
  }

  /** The package weights of the orders, in order: the stream
      `mapToInt(DeliveryOrder::getPackageWeight)`. */
  function Weights(orders: seq<DeliveryOrder>): (r: seq<int>)
    ensures |r| == |orders| && forall i :: 0 <= i < |r| ==> r[i] == orders[i].packageWeight
  {
    seq(|orders|, i requires 0 <= i < |orders| => orders[i].packageWeight)
  }

  /** The exact sum. */
  function Sum(xs: seq<int>): int
  {
    if xs == [] then 0 else Sum(xs[..|xs| - 1]) + xs[|xs| - 1]
  }

  /** The value a Java `int` holds when the exact result is `x`: `x` wrapped into
      [-2^31, 2^31) modulo 2^32. */
  function WrapInt(x: int): (r: int)
    ensures -0x8000_0000 <= r < 0x8000_0000
    ensures (x - r) % 0x1_0000_0000 == 0
    ensures -0x8000_0000 <= x < 0x8000_0000 ==> r == x
  {
    (x + 0x8000_0000) % 0x1_0000_0000 - 0x8000_0000
  }

  /** The value a Java `long` holds when the exact result is `x`: `x` wrapped into
      [-2^63, 2^63) modulo 2^64. */
  function WrapLong(x: int): (r: int)
    ensures -0x8000_0000_0000_0000 <= r < 0x8000_0000_0000_0000
    ensures (x - r) % 0x1_0000_0000_0000_0000 == 0
    ensures -0x8000_0000_0000_0000 <= x < 0x8000_0000_0000_0000 ==> r == x
  {
    (x + 0x8000_0000_0000_0000) % 0x1_0000_0000_0000_0000 - 0x8000_0000_0000_0000
  }

  /** Wrapping an intermediate sum does not change the wrapped final sum. */
  lemma WrapThenAdd(a: int, b: int)
    ensures WrapInt(WrapInt(a) + b) == WrapInt(a + b)
  {
    var k := (a + 0x8000_0000) / 0x1_0000_0000;
    assert WrapInt(a) == a - k * 0x1_0000_0000;
    assert (a + b + 0x8000_0000) - k * 0x1_0000_0000 == (WrapInt(a) + b) + 0x8000_0000;
  }

  /** `IntStream.sum()`: the sum on Java `int`s, every addition wrapping around. */
  function IntSum(xs: seq<int>): int
  {
    if xs == [] then 0 else WrapInt(IntSum(xs[..|xs| - 1]) + xs[|xs| - 1])
  }

  /** `LongStream.sum()`: the sum on Java `long`s, every addition wrapping around. */
  function LongSum(xs: seq<int>): int
  {
    if xs == [] then 0 else WrapLong(LongSum(xs[..|xs| - 1]) + xs[|xs| - 1])
  }

  /** The `int` sum is the exact sum wrapped into the `int` range. */
  lemma {:induction false} IntSumIsWrappedSum(xs: seq<int>)
    ensures IntSum(xs) == WrapInt(Sum(xs))
  {
    if xs != [] {
      var prefix := xs[..|xs| - 1];
      IntSumIsWrappedSum(prefix);
      WrapThenAdd(Sum(prefix), xs[|xs| - 1]);
    }
  }

  /** The `int` sum is exact whenever the exact sum fits in an `int`. */
  lemma IntSumExactInRange(xs: seq<int>)
    requires -0x8000_0000 <= Sum(xs) < 0x8000_0000
    ensures IntSum(xs) == Sum(xs)
  {
    IntSumIsWrappedSum(xs);
  }

  /** Values between 0 and `m` add up to at most their number times `m`; while that bound fits
      in a `long`, the `long` sum never wraps and is the exact sum. */
  lemma {:induction false} LongSumIsExact(xs: seq<int>, m: nat)
    requires forall i :: 0 <= i < |xs| ==> 0 <= xs[i] <= m
    requires |xs| * m < 0x8000_0000_0000_0000
    ensures 0 <= Sum(xs) <= |xs| * m
    ensures LongSum(xs) == Sum(xs)
  {
    if xs != [] {
      var prefix := xs[..|xs| - 1];
      assert (|xs| - 1) * m + m == |xs| * m;
      LongSumIsExact(prefix, m);
    }
  }

  /** Equal values `c` add up to their number times `c`. */
  lemma {:induction false} SumUniform(xs: seq<int>, c: int)
    requires forall i :: 0 <= i < |xs| ==> xs[i] == c
    ensures Sum(xs) == |xs| * c
  {
    if xs != [] {
      SumUniform(xs[..|xs| - 1], c);
      assert (|xs| - 1) * c + c == |xs| * c;
    }
  }

  /** A request of 43 vehicles at the largest accepted capacity (50,000,000 g) carries
      2,150,000,000 g, past the `int` range, and the source reports -2,144,967,296 g. */
  lemma ReportedCapacityOverflows(vehicles: seq<Vehicle>)
    requires |vehicles| == 43
    requires forall a :: 0 <= a < |vehicles| ==> vehicles[a].capacity == 50_000_000
    ensures Sum(Capacities(vehicles)) == 2_150_000_000
    ensures IntSum(Capacities(vehicles)) == -2_144_967_296
  {
    SumUniform(Capacities(vehicles), 50_000_000);
    IntSumIsWrappedSum(Capacities(vehicles));
  }

  /** Summed as a `long`, the capacity of any accepted request, at most 50 vehicles of
      1,000 g to 50,000,000 g each, is reported exactly. */
  lemma LongCapacityReportIsExact(vehicles: seq<Vehicle>)
    requires |vehicles| <= 50
    requires forall a :: 0 <= a < |vehicles| ==> 1_000 <= vehicles[a].capacity <= 50_000_000
    ensures LongSum(Capacities(vehicles)) == Sum(Capacities(vehicles)) <= 2_500_000_000
  {
    LongSumIsExact(Capacities(vehicles), 50_000_000);
  }

  /** `validateTotalCapacity`: whether the warning is logged, comparing the order weights and the
      capacities summed as Java `int`s. It never rejects the request. While both exact sums fit
      in an `int`, the warning is logged exactly when the orders weigh more than the fleet can
      carry. */
  function CapacityWarning(orders: seq<DeliveryOrder>, vehicles: seq<Vehicle>): (r: bool)
    ensures && -0x8000_0000 <= Sum(Weights(orders)) < 0x8000_0000
            && -0x8000_0000 <= Sum(Capacities(vehicles)) < 0x8000_0000
            ==> (r <==> Sum(Weights(orders)) > Sum(Capacities(vehicles)))
  {
    IntSumIsWrappedSum(Weights(orders));
    IntSumIsWrappedSum(Capacities(vehicles));
    IntSum(Weights(orders)) > IntSum(Capacities(vehicles))
  }

  // ---------------------------------------------------------------------------------------
  // The service

  class DispatchService {
    /** The order repository's rows, in the order they were saved. */
    var storedOrders: seq<DeliveryOrder>
    /** The vehicle repository's rows, in the order they were saved. */
    var storedVehicles: seq<Vehicle>

    /** The primary keys are unique, and every row passed the request validation the framework
        applies before the service runs: positive weights and well-formed vehicle ids. */
    ghost predicate Valid()
      reads this
    {
      && DistinctOrderIds(storedOrders)
      && DistinctVehicleIds(storedVehicles)
      && (forall i :: 0 <= i < |storedOrders| ==> storedOrders[i].packageWeight > 0)
      && (forall a :: 0 <= a < |storedVehicles| ==> ValidIdentifier(storedVehicles[a].vehicleId))
    }

    constructor()
      ensures Valid()
      ensures storedOrders == [] && storedVehicles == []
    {
      storedOrders := [];
      storedVehicles := [];
    }

    /** `orderRepository.existsById`. */
    predicate OrderExists(orderId: string)
      reads this
    {
      exists i :: 0 <= i < |storedOrders| && storedOrders[i].orderId == orderId
    }

    /** `vehicleRepository.existsById`. */
    predicate VehicleExists(vehicleId: string)
      reads this
    {
      exists a :: 0 <= a < |storedVehicles| && storedVehicles[a].vehicleId == vehicleId
    }

    /** The stored order ids. */
    ghost function StoredOrderIds(): set<string>
      reads this
    {
      set i | 0 <= i < |storedOrders| :: storedOrders[i].orderId
    }

    /** The stored vehicle ids. */
    ghost function StoredVehicleIds(): set<string>
      reads this
    {
      set a | 0 <= a < |storedVehicles| :: storedVehicles[a].vehicleId
    }

    /** `saveOrders`: a request repeating an id fails with an illegal-argument error before the
        store is consulted; otherwise the first order, in request order, whose id is already
        stored fails the request with a duplicate-order error; in both cases nothing is saved.
        Otherwise the orders are appended and the answer reports how many were saved per
        priority. */
    method SaveOrders(request: seq<DeliveryOrder>) returns (r: Result<OrdersSaved, ServiceError>)
      requires Valid()
      requires forall i :: 0 <= i < |request| ==> request[i].packageWeight > 0
      modifies this
      ensures Valid()
      ensures storedVehicles == old(storedVehicles)
      ensures !DistinctOrderIds(request) ==>
                r == Err(IllegalArgument("Request contains duplicate order IDs")) && storedOrders == old(storedOrders)
      ensures DistinctOrderIds(request) ==>
                match FirstStored(OrderIds(request), old(StoredOrderIds()))
                case Some(id) => r == Err(DuplicateOrder(id)) && storedOrders == old(storedOrders)
                case None =>
                  && storedOrders == old(storedOrders) + request
                  && r == Ok(OrdersSaved(|request|, CountByPriority(request, HIGH),
                                         CountByPriority(request, MEDIUM), CountByPriority(request, LOW)))
    {
      var duplicate := ValidateNoDuplicateOrderIds(request);
      if duplicate.Some? {
        return Err(duplicate.value);
      }
      ghost var ids := OrderIds(request);
      var i := 0;
      while i < |request|
        invariant 0 <= i <= |request|
        invariant forall k :: 0 <= k < i ==> ids[k] !in StoredOrderIds()
      {
        if OrderExists(request[i].orderId) {
          FirstStoredAt(ids, StoredOrderIds(), i);
          return Err(DuplicateOrder(request[i].orderId));
        }
        i := i + 1;
      }
      assert FirstStored(ids, StoredOrderIds()).None?;
      storedOrders := storedOrders + request;
      r := Ok(OrdersSaved(|request|, CountByPriority(request, HIGH),
                          CountByPriority(request, MEDIUM), CountByPriority(request, LOW)));
    }

    /** `saveVehicles`: a request repeating an id fails with an illegal-argument error before the
        store is consulted; otherwise the first vehicle, in request order, whose id is already
        stored fails the request with a duplicate-vehicle error; in both cases nothing is saved.
        Otherwise the vehicles are appended and the answer reports how many were saved and their
        total capacity summed as a Java `int`, which is the exact total while that fits. */
    method SaveVehicles(request: seq<Vehicle>) returns (r: Result<VehiclesSaved, ServiceError>)
      requires Valid()
      requires forall a :: 0 <= a < |request| ==> ValidIdentifier(request[a].vehicleId)
      modifies this
      ensures Valid()
      ensures storedOrders == old(storedOrders)
      ensures !DistinctVehicleIds(request) ==>
                r == Err(IllegalArgument("Request contains duplicate vehicle IDs")) && storedVehicles == old(storedVehicles)
      ensures DistinctVehicleIds(request) ==>
                match FirstStored(VehicleIds(request), old(StoredVehicleIds()))
                case Some(id) => r == Err(DuplicateVehicle(id)) && storedVehicles == old(storedVehicles)
                case None =>
                  && storedVehicles == old(storedVehicles) + request
                  && r == Ok(VehiclesSaved(|request|, IntSum(Capacities(request))))
                  && (-0x8000_0000 <= Sum(Capacities(request)) < 0x8000_0000 ==>
                        r.value.totalCapacity == Sum(Capacities(request)))
    {
      var duplicate := ValidateNoDuplicateVehicleIds(request);
      if duplicate.Some? {
        return Err(duplicate.value);
      }
      ghost var ids := VehicleIds(request);
      var a := 0;
      while a < |request|
        invariant 0 <= a <= |request|
        invariant forall k :: 0 <= k < a ==> ids[k] !in StoredVehicleIds()
      {
        if VehicleExists(request[a].vehicleId) {
          FirstStoredAt(ids, StoredVehicleIds(), a);
          return Err(DuplicateVehicle(request[a].vehicleId));
        }
        a := a + 1;
      }
      assert FirstStored(ids, StoredVehicleIds()).None?;
      storedVehicles := storedVehicles + request;
      IntSumIsWrappedSum(Capacities(request));
      r := Ok(VehiclesSaved(|request|, IntSum(Capacities(request))));
    }

    /** `getDispatchPlan`: no stored orders fails with `NoOrdersException` before the vehicles are
        looked at, no stored vehicles with `NoVehiclesException`; otherwise the capacity check
        only warns and the answer is the engine's, over the stored orders and vehicles, with the
        vehicles visited in `visitOrder`. A bad coordinate propagates as the engine's error. */
    method GetDispatchPlan(visitOrder: seq<nat>, gc: (Point, Point) -> real)
      returns (r: Result<DispatchPlan, ServiceError>)
      requires Valid() && IsVisitingOrder(visitOrder, |storedVehicles|)
      ensures storedOrders == [] ==> r == Err(NoOrders)
      ensures storedOrders != [] && storedVehicles == [] ==> r == Err(NoVehicles)
      ensures storedOrders != [] && storedVehicles != [] ==>
                LoadsWithinCapacity(InVisitingOrder(storedVehicles, visitOrder),
                                    Tallies(InVisitingOrder(storedVehicles, visitOrder),
                                            SortOrdersByPriority(storedOrders), gc))
      ensures storedOrders != [] && storedVehicles != [] ==>
                match MatrixError(gc, storedVehicles, SortOrdersByPriority(storedOrders))
                case Some(e) => r == Err(InvalidCoordinates(e))
                case None =>
                  var fleet := InVisitingOrder(storedVehicles, visitOrder);
                  r == Ok(DispatchPlanOf(fleet, Tallies(fleet, SortOrdersByPriority(storedOrders), gc),
                                         |storedOrders|))
    {
      var orders := storedOrders;
      if orders == [] {
        return Err(NoOrders);
      }
      var vehicles := storedVehicles;
      if vehicles == [] {
        return Err(NoVehicles);
      }
      // Only a log line depends on the capacity check.
      ghost var warn := CapacityWarning(orders, vehicles);
      var plan := OptimizeDispatch(orders, vehicles, visitOrder, gc);
      match plan
      case Ok(p) => r := Ok(p);
      case Err(e) => r := Err(InvalidCoordinates(e));
    }

    /** `clearAllOrders`: empties the order store and reports how many rows it held. */
    method ClearAllOrders() returns (count: nat)
      modifies this
      ensures count == |old(storedOrders)|
      ensures storedOrders == [] && storedVehicles == old(storedVehicles)
      ensures old(Valid()) ==> Valid()
    {
      count := |storedOrders|;
      storedOrders := [];
    }

    /** `clearAllVehicles`: empties the vehicle store and reports how many rows it held. */
    method ClearAllVehicles() returns (count: nat)
      modifies this
      ensures count == |old(storedVehicles)|
      ensures storedVehicles == [] && storedOrders == old(storedOrders)
      ensures old(Valid()) ==> Valid()
    {
      count := |storedVehicles|;
      storedVehicles := [];
    }
  }
}

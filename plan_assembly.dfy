/** The dispatch plan returned to callers: one entry per vehicle that received orders, and a
    summary of counts, distance and utilization. Distances and percentages are kept as exact
    values; the "%.2f km" strings and the rounding to two decimals are not modelled. */
module PlanAssembly {
  import opened Priorities
  import opened Entities
  import opened Haversine
  import opened GreedyAssignment

  datatype Status = SUCCESS | PARTIAL | FAILED

  datatype AssignedOrder = AssignedOrder(
    orderId: string,
    address: string,
    packageWeight: int,
    priority: string,
    distanceFromVehicle: real)

  datatype VehiclePlan = VehiclePlan(
    vehicleId: string,
    totalLoad: int,
    totalDistance: real,
    assignedOrders: seq<AssignedOrder>,
    orderCount: nat,
    utilizationPercentage: real)

  datatype PlanSummary = PlanSummary(
    totalOrders: int,
    assignedOrders: int,
    unassignedOrders: int,
    totalVehicles: int,
    usedVehicles: int,
    totalDistanceCovered: real,
    averageUtilization: real)

  datatype DispatchPlan = DispatchPlan(
    message: string,
    status: Status,
    dispatchPlan: seq<VehiclePlan>,
    summary: PlanSummary)

  const GeneratedMessage := "Dispatch plan generated successfully"

  /** `buildEmptyPlan`: a FAILED plan with no entries and an all-zero summary. */
  function EmptyPlan(message: string): (r: DispatchPlan)
    ensures r.status == FAILED && r.message == message && r.dispatchPlan == []
    ensures && r.summary.totalOrders == 0 && r.summary.assignedOrders == 0 && r.summary.unassignedOrders == 0
            && r.summary.totalVehicles == 0 && r.summary.usedVehicles == 0
            && r.summary.totalDistanceCovered == 0.0 && r.summary.averageUtilization == 0.0
  {
    DispatchPlan(message, FAILED, [], PlanSummary(0, 0, 0, 0, 0, 0.0, 0.0))
  }

  /** Load as a percentage of capacity, before rounding. */
  function Utilization(load: int, capacity: int): real
    requires capacity != 0
  {
    (load as real * 100.0) / capacity as real
  }

  /** The mean of `count` values summing to `total`, or 0 when there are none. */
  function Average(total: real, count: int): real
  {
    if count > 0 then total / count as real else 0.0
  }

  function AssignedOrdersOf(rs: seq<AssignmentRecord>): (r: seq<AssignedOrder>)
    ensures |r| == |rs|
  {
    seq(|rs|, i requires 0 <= i < |rs| =>
      AssignedOrder(rs[i].order.orderId, rs[i].order.address, rs[i].order.packageWeight,
                    Name(rs[i].order.priority), rs[i].distance))
  }

  function VehiclePlanOf(v: Vehicle, t: Tally): VehiclePlan
    requires v.capacity != 0
  {
    VehiclePlan(v.vehicleId, t.load, t.travelled, AssignedOrdersOf(t.records), |t.records|,
                Utilization(t.load, v.capacity))
  }

  /** Every vehicle that received an order has a non-zero capacity to divide by. */
  predicate UsedHaveCapacity(fleet: seq<Vehicle>, ts: seq<Tally>)
    requires |ts| == |fleet|
  {
    forall k :: 0 <= k < |fleet| && ts[k].records != [] ==> fleet[k].capacity > 0
  }

  /** The plan entries, in vehicle iteration order, skipping vehicles with no orders. */
  function UsedPlans(fleet: seq<Vehicle>, ts: seq<Tally>): seq<VehiclePlan>
    requires |ts| == |fleet| && UsedHaveCapacity(fleet, ts)
  {
    if fleet == [] then []
    else
      var n := |fleet| - 1;
      var before := UsedPlans(fleet[..n], ts[..n]);
      if ts[n].records == [] then before else before + [VehiclePlanOf(fleet[n], ts[n])]
  }

  /** How many of the vehicles' lists are non-empty. */
  function NonEmptyCount(ts: seq<Tally>): nat
  {
    if ts == [] then 0 else NonEmptyCount(ts[..|ts| - 1]) + (if ts[|ts| - 1].records != [] then 1 else 0)
  }

  /** There is one plan entry per vehicle with a non-empty list. */
  lemma {:induction false} UsedPlansCountNonEmpty(fleet: seq<Vehicle>, ts: seq<Tally>)
    requires |ts| == |fleet| && UsedHaveCapacity(fleet, ts)
    ensures |UsedPlans(fleet, ts)| == NonEmptyCount(ts)
  {
    if fleet != [] {
      var n := |fleet| - 1;
      UsedPlansCountNonEmpty(fleet[..n], ts[..n]);
    }
  }

  function SumOrderCounts(ps: seq<VehiclePlan>): int
  {
    if ps == [] then 0 else SumOrderCounts(ps[..|ps| - 1]) + ps[|ps| - 1].orderCount
  }

  function SumTotalDistances(ps: seq<VehiclePlan>): real
  {
    if ps == [] then 0.0 else SumTotalDistances(ps[..|ps| - 1]) + ps[|ps| - 1].totalDistance
  }

  function SumUtilizations(ps: seq<VehiclePlan>): real
  {
    if ps == [] then 0.0 else SumUtilizations(ps[..|ps| - 1]) + ps[|ps| - 1].utilizationPercentage
  }

  /** The distance travelled by every vehicle of the fleet, used or not. */
  function SumTravelled(ts: seq<Tally>): real
  {
    if ts == [] then 0.0 else SumTravelled(ts[..|ts| - 1]) + ts[|ts| - 1].travelled
  }

  /** A vehicle that received nothing has travelled nothing. */
  predicate IdleTravelNothing(ts: seq<Tally>)
  {
    forall k :: 0 <= k < |ts| && ts[k].records == [] ==> ts[k].travelled == 0.0
  }

  /** `buildDispatchPlan`, as a value: entries for the used vehicles, the summary, and the status
      rule SUCCESS when every order was assigned, PARTIAL otherwise. */
  function DispatchPlanOf(fleet: seq<Vehicle>, ts: seq<Tally>, totalOrders: int): (r: DispatchPlan)
    requires |ts| == |fleet| && UsedHaveCapacity(fleet, ts)
    ensures r.status != FAILED && r.message == GeneratedMessage
    ensures r.status == SUCCESS <==> r.summary.assignedOrders == totalOrders
    ensures r.summary.totalOrders == totalOrders
    ensures r.summary.assignedOrders == AssignedCount(ts)
    ensures r.summary.assignedOrders + r.summary.unassignedOrders == totalOrders
    ensures r.summary.totalVehicles == |fleet|
    ensures r.summary.usedVehicles == |r.dispatchPlan| == NonEmptyCount(ts)
  {
    UsedPlansCountNonEmpty(fleet, ts);
    PlanCountsEveryAssignment(fleet, ts);
    var ps := UsedPlans(fleet, ts);
    var assignedCount := SumOrderCounts(ps);
    var used := |ps|;
    DispatchPlan(
      GeneratedMessage,
      if assignedCount == totalOrders then SUCCESS else PARTIAL,
      ps,
      PlanSummary(totalOrders, assignedCount, totalOrders - assignedCount, |fleet|, used, SumTotalDistances(ps),
                  Average(SumUtilizations(ps), used)))
  }

  /** The summary's distance is the whole fleet's once idle vehicles have not moved, and its
      utilization is the mean over the plan entries, or 0 with no entries. */
  lemma PlanTotals(fleet: seq<Vehicle>, ts: seq<Tally>, totalOrders: int)
    requires |ts| == |fleet| && UsedHaveCapacity(fleet, ts)
    ensures var r := DispatchPlanOf(fleet, ts, totalOrders);
            && r.summary.totalDistanceCovered == SumTotalDistances(r.dispatchPlan)
            && (IdleTravelNothing(ts) ==> r.summary.totalDistanceCovered == SumTravelled(ts))
            && r.summary.averageUtilization == Average(SumUtilizations(r.dispatchPlan), r.summary.usedVehicles)
            && (r.summary.usedVehicles == 0 ==> r.summary.averageUtilization == 0.0)
  {
    PlanDistanceIsFleetDistance(fleet, ts);
  }

  /** Visiting one more vehicle adds its entry when its list is non-empty, and nothing otherwise. */
  lemma UsedPlansStep(fleet: seq<Vehicle>, ts: seq<Tally>, j: nat)
    requires |ts| == |fleet| && UsedHaveCapacity(fleet, ts) && j < |fleet|
    ensures UsedHaveCapacity(fleet[..j], ts[..j]) && UsedHaveCapacity(fleet[..j + 1], ts[..j + 1])
    ensures UsedPlans(fleet[..j + 1], ts[..j + 1])
            == if ts[j].records == [] then UsedPlans(fleet[..j], ts[..j])
               else UsedPlans(fleet[..j], ts[..j]) + [VehiclePlanOf(fleet[j], ts[j])]
  {
    assert fleet[..j + 1][..j] == fleet[..j] && ts[..j + 1][..j] == ts[..j];
  }

  /** The three running sums grow by the added entry's count, distance and utilization. */
  lemma SumsStep(ps: seq<VehiclePlan>, p: VehiclePlan)
    ensures SumOrderCounts(ps + [p]) == SumOrderCounts(ps) + p.orderCount
    ensures SumTotalDistances(ps + [p]) == SumTotalDistances(ps) + p.totalDistance
    ensures SumUtilizations(ps + [p]) == SumUtilizations(ps) + p.utilizationPercentage
  {
    assert (ps + [p])[..|ps|] == ps;
  }

  /** Visiting vehicle `j` leaves the entries and their sums alone when its list is empty, and
      otherwise appends its entry and adds its count, distance and utilization to the sums. */
  lemma PlanStep(fleet: seq<Vehicle>, ts: seq<Tally>, j: nat)
    requires |ts| == |fleet| && UsedHaveCapacity(fleet, ts) && j < |fleet|
    ensures UsedHaveCapacity(fleet[..j], ts[..j]) && UsedHaveCapacity(fleet[..j + 1], ts[..j + 1])
    ensures var before, after := UsedPlans(fleet[..j], ts[..j]), UsedPlans(fleet[..j + 1], ts[..j + 1]);
            && (ts[j].records == [] ==> after == before)
            && (ts[j].records != [] ==>
                  && after == before + [VehiclePlanOf(fleet[j], ts[j])]
                  && SumOrderCounts(after) == SumOrderCounts(before) + |ts[j].records|
                  && SumTotalDistances(after) == SumTotalDistances(before) + ts[j].travelled
                  && SumUtilizations(after) == SumUtilizations(before) + Utilization(ts[j].load, fleet[j].capacity))
  {
    UsedPlansStep(fleet, ts, j);
    if ts[j].records != [] {
      SumsStep(UsedPlans(fleet[..j], ts[..j]), VehiclePlanOf(fleet[j], ts[j]));
    }
  }

  /** Exactly the vehicles with a non-empty list appear in the plan, and every entry's order count
      is the length of its non-empty list. */
  lemma {:induction false} UsedPlansAreTheUsedVehicles(fleet: seq<Vehicle>, ts: seq<Tally>)
    requires |ts| == |fleet| && UsedHaveCapacity(fleet, ts)
    ensures forall k :: 0 <= k < |fleet| && ts[k].records != [] ==> VehiclePlanOf(fleet[k], ts[k]) in UsedPlans(fleet, ts)
    ensures forall p :: p in UsedPlans(fleet, ts) ==>
              && 0 < p.orderCount == |p.assignedOrders|
              && exists k :: 0 <= k < |fleet| && ts[k].records != [] && p == VehiclePlanOf(fleet[k], ts[k])
    ensures |UsedPlans(fleet, ts)| <= |fleet|
  {
    if fleet != [] {
      var n := |fleet| - 1;
      UsedPlansAreTheUsedVehicles(fleet[..n], ts[..n]);
      forall p | p in UsedPlans(fleet, ts)
        ensures exists k :: 0 <= k < |fleet| && ts[k].records != [] && p == VehiclePlanOf(fleet[k], ts[k])
      {
        if p in UsedPlans(fleet[..n], ts[..n]) {
          var k :| 0 <= k < n && ts[..n][k].records != [] && p == VehiclePlanOf(fleet[..n][k], ts[..n][k]);
          assert fleet[k] == fleet[..n][k] && ts[k] == ts[..n][k];
        } else {
          assert p == VehiclePlanOf(fleet[n], ts[n]);
        }
      }
      forall k | 0 <= k < |fleet| && ts[k].records != []
        ensures VehiclePlanOf(fleet[k], ts[k]) in UsedPlans(fleet, ts)
      {
        if k < n {
          assert fleet[..n][k] == fleet[k] && ts[..n][k] == ts[k];
        }
      }
    }
  }

  /** The assigned count of the summary, accumulated over used vehicles only, is the total
      number of orders in all vehicles' lists. */
  lemma {:induction false} PlanCountsEveryAssignment(fleet: seq<Vehicle>, ts: seq<Tally>)
    requires |ts| == |fleet| && UsedHaveCapacity(fleet, ts)
    ensures SumOrderCounts(UsedPlans(fleet, ts)) == AssignedCount(ts)
  {
    if fleet != [] {
      var n := |fleet| - 1;
      PlanCountsEveryAssignment(fleet[..n], ts[..n]);
      var before := UsedPlans(fleet[..n], ts[..n]);
      if ts[n].records != [] {
        var ps := before + [VehiclePlanOf(fleet[n], ts[n])];
        assert ps[..|ps| - 1] == before;
      }
    }
  }

  /** Summed over the used vehicles only, the distance is still that of the whole fleet, since a
      vehicle with no orders has not moved. */
  lemma {:induction false} PlanDistanceIsFleetDistance(fleet: seq<Vehicle>, ts: seq<Tally>)
    requires |ts| == |fleet| && UsedHaveCapacity(fleet, ts)
    ensures IdleTravelNothing(ts) ==> SumTotalDistances(UsedPlans(fleet, ts)) == SumTravelled(ts)
  {
    if fleet != [] && IdleTravelNothing(ts) {
      var n := |fleet| - 1;
      assert IdleTravelNothing(ts[..n]) by {
        forall k | 0 <= k < n && ts[..n][k].records == [] ensures ts[..n][k].travelled == 0.0 {
          assert ts[..n][k] == ts[k];
        }
      }
      PlanDistanceIsFleetDistance(fleet[..n], ts[..n]);
      if ts[n].records != [] {
        SumsStep(UsedPlans(fleet[..n], ts[..n]), VehiclePlanOf(fleet[n], ts[n]));
      }
    }
  }

  /** Utilizations each in (0, 100] add up to a positive total of at most 100 per entry. */
  lemma {:induction false} UtilizationSumBounds(ps: seq<VehiclePlan>)
    requires forall i :: 0 <= i < |ps| ==> 0.0 < ps[i].utilizationPercentage <= 100.0
    ensures ps != [] ==> 0.0 < SumUtilizations(ps) <= 100.0 * |ps| as real
    ensures ps == [] ==> SumUtilizations(ps) == 0.0
  {
    if ps != [] {
      var n := |ps| - 1;
      assert forall i :: 0 <= i < n ==> ps[..n][i] == ps[i];
      UtilizationSumBounds(ps[..n]);
    }
  }

  /** A positive total of at most 100 per counted entry averages to a value in (0, 100]. */
  lemma AverageAtMostFull(total: real, count: int)
    requires count > 0 && 0.0 < total <= 100.0 * count as real
    ensures 0.0 < Average(total, count) <= 100.0
  {
    var c := count as real;
    assert Average(total, count) * c == total;
  }

  /** Every load is non-negative, and a vehicle holding records carries a positive load no
      greater than its capacity. */
  predicate LoadsWithinCapacity(fleet: seq<Vehicle>, ts: seq<Tally>)
    requires |ts| == |fleet|
  {
    forall k :: 0 <= k < |fleet| ==>
      && ts[k].load >= 0
      && (ts[k].records != [] ==> 0 < ts[k].load <= fleet[k].capacity)
  }

  /** One greedy step with a positive package weight keeps every load within capacity. */
  lemma PlaceKeepsLoadsWithinCapacity(fleet: seq<Vehicle>, ts: seq<Tally>, o: DeliveryOrder,
                                      gc: (Point, Point) -> real)
    requires |ts| == |fleet| && LoadsWithinCapacity(fleet, ts)
    requires o.packageWeight > 0
    ensures LoadsWithinCapacity(fleet, Place(fleet, ts, o, gc))
  {
    match Nearest(fleet, Loads(ts), o, gc)
    case None =>
    case Some(a) =>
      assert Eligible(fleet[a.slot], Loads(ts)[a.slot], o);
  }

  /** With positive package weights, a vehicle that received an order carries a positive load
      no greater than its capacity. */
  lemma {:induction false} UsedVehiclesWithinCapacity(fleet: seq<Vehicle>, orders: seq<DeliveryOrder>,
                                                      gc: (Point, Point) -> real)
    requires forall i :: 0 <= i < |orders| ==> orders[i].packageWeight > 0
    ensures LoadsWithinCapacity(fleet, Tallies(fleet, orders, gc))
    decreases |orders|
  {
    if orders != [] {
      var prev := orders[..|orders| - 1];
      UsedVehiclesWithinCapacity(fleet, prev, gc);
      PlaceKeepsLoadsWithinCapacity(fleet, Tallies(fleet, prev, gc), orders[|orders| - 1], gc);
    }
  }

  /** A load no greater than a positive capacity is at most 100 percent of it. */
  lemma UtilizationAtMostFull(load: int, capacity: int)
    requires 0 < load <= capacity
    ensures 0.0 < Utilization(load, capacity) <= 100.0
  {
    var l, c := load as real, capacity as real;
    assert l * 100.0 <= c * 100.0;
  }

  /** The summary of a greedy run accounts for every sorted order: the assigned count plus the
      orders nobody had room for is the total; the status is SUCCESS exactly when no order was
      left over, and PARTIAL otherwise, including when nothing could be assigned. */
  lemma GreedyPlanSummary(fleet: seq<Vehicle>, orders: seq<DeliveryOrder>, gc: (Point, Point) -> real)
    requires GreatCircleLaws(gc)
    requires forall i :: 0 <= i < |orders| ==> orders[i].packageWeight > 0
    ensures LoadsWithinCapacity(fleet, Tallies(fleet, orders, gc))
    ensures UsedHaveCapacity(fleet, Tallies(fleet, orders, gc))
    ensures var plan := DispatchPlanOf(fleet, Tallies(fleet, orders, gc), |orders|);
            && plan.summary.totalOrders == |orders|
            && plan.summary.assignedOrders == AssignedCount(Tallies(fleet, orders, gc))
            && plan.summary.unassignedOrders == |Unassigned(fleet, orders, gc)|
            && (plan.status == SUCCESS <==> Unassigned(fleet, orders, gc) == [])
            && (plan.status == PARTIAL <==> Unassigned(fleet, orders, gc) != [])
            && plan.summary.totalVehicles == |fleet|
            && plan.summary.usedVehicles == |plan.dispatchPlan| == NonEmptyCount(Tallies(fleet, orders, gc)) <= |fleet|
            && (forall p :: p in plan.dispatchPlan ==> 0.0 < p.utilizationPercentage <= 100.0)
            && plan.summary.totalDistanceCovered == SumTravelled(Tallies(fleet, orders, gc))
            && (plan.summary.usedVehicles > 0 ==> 0.0 < plan.summary.averageUtilization <= 100.0)
  {
    var ts := Tallies(fleet, orders, gc);
    TalliesKeepCapacity(fleet, orders, gc);
    UsedVehiclesWithinCapacity(fleet, orders, gc);
    AssignedAndUnassignedAddUp(fleet, orders, gc);
    PlanCountsEveryAssignment(fleet, ts);
    UsedPlansAreTheUsedVehicles(fleet, ts);
    forall p | p in UsedPlans(fleet, ts)
      ensures 0.0 < p.utilizationPercentage <= 100.0
    {
      var k :| 0 <= k < |fleet| && ts[k].records != [] && p == VehiclePlanOf(fleet[k], ts[k]);
      UtilizationAtMostFull(ts[k].load, fleet[k].capacity);
    }
    PlanTotals(fleet, ts, |orders|);
    var ps := UsedPlans(fleet, ts);
    UtilizationSumBounds(ps);
    if ps != [] {
      AverageAtMostFull(SumUtilizations(ps), |ps|);
    }
  }
}

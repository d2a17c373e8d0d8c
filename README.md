# Greedy dispatch engine — a Dafny model

This project models the core of a delivery dispatch service. Clients save delivery orders and
vehicles. A dispatch plan is then computed over everything stored:

- orders are sorted by priority (HIGH, MEDIUM, LOW), then by package weight, heaviest first;
- each order in turn goes to the nearest vehicle that still has room for it;
- the result is a plan with one entry per used vehicle and a summary with counts, distance,
  utilization and a status (SUCCESS, PARTIAL or FAILED).

The model follows the Java code file by file:

- `priority.dfy`: the priority enum and its sort key.
- `entities.dfy`: the two entities, `Vehicle` and `DeliveryOrder`, with the vehicle's capacity
  helpers.
- `haversine.dfy`: coordinate validation, the order of the checks in `calculate`, the metre and
  threshold wrappers. The great-circle formula itself is a parameter `gc`.
- `order_sorting.dfy`: the stable sort the engine dispatches in.
- `greedy_assignment.dfy`: a value-level reference of the greedy pass:
  - `Scan`/`Nearest` for `findBestVehicle`;
  - `Place` for one iteration of `assignOrders`;
  - `Tallies` for the whole pass.

  The properties of the pass are proved about it: the capacity invariant, every order handled
  once, and the counts adding up.
- `plan_assembly.dfy`: the reference plan built from the tallies (`DispatchPlanOf`) and its
  summary properties.
- `optimization_engine.dfy`: the engine as the source writes it:
  - a `VehicleState` class whose `currentLoad` and `totalDistance` are updated in place;
  - the distance table filled by nested loops;
  - `findBestVehicle`, `assignOrders` and `buildDispatchPlan` as loops.

  Each method is proved to compute the reference values above.
- `dispatch_service.dfy`: the service as a class holding the stored orders and vehicles:
  - duplicate checks inside a request and against the store;
  - the save reports;
  - the guards in front of the engine.

Distances are real numbers.

The vehicle states live in a hash map, so the order in which they are visited is not fixed by
the input. It is given as a parameter: a permutation `visitOrder` of the vehicle indices. Ties
between equally near vehicles, and the order of the plan's entries, follow it.

## Model

| member | source | states |
|---|---|---|
| `Priorities.SortOrder` | src/main/java/com/freightfox/dispatch/model/enums/Priority.java:19-25 | the sort key is always between 1 and 3 |
| `Priorities.SortOrderRanksHighFirst` | src/main/java/com/freightfox/dispatch/model/enums/Priority.java:20-24 | HIGH, MEDIUM and LOW get 3, 2 and 1, strictly decreasing |
| `Priorities.SortOrderInjective` | src/main/java/com/freightfox/dispatch/model/enums/Priority.java:20-24 | two priorities share a key only if they are the same priority |
| `Entities.Vehicle.CanAccommodate` | src/main/java/com/freightfox/dispatch/model/entity/Vehicle.java:68-70 | an empty vehicle accepts a weight iff the weight is at most the capacity (a weight equal to the capacity fits), which agrees with `getRemainingCapacity(0) >= weight` |
| `Entities.Vehicle.RemainingCapacity` | src/main/java/com/freightfox/dispatch/model/entity/Vehicle.java:77-79 | remaining capacity plus the load is the capacity |
| `Entities.RemainingCapacityShrinks` | src/main/java/com/freightfox/dispatch/model/entity/Vehicle.java:77-79 | a heavier load leaves strictly less room; a vehicle loaded to capacity has none |
| `Haversine.ValidateCoordinates` | src/main/java/com/freightfox/dispatch/util/HaversineCalculator.java:98-118 | a point is rejected iff its latitude is outside [-90, 90] or its longitude outside [-180, 180] (bounds inclusive); latitude is checked first, and the error names the point, the axis and the offending value |
| `Haversine.MessageMentionsAxisAndRange` | src/main/java/com/freightfox/dispatch/util/HaversineCalculator.java:100-116 | every coordinate error message names the point, the axis and the words "out of range" |
| `Haversine.Calculate` | src/main/java/com/freightfox/dispatch/util/HaversineCalculator.java:29-65 | succeeds iff both points are valid, with the formula's value; a bad starting point is reported as "Starting point" even if the end is also bad, and a bad end only when the start is valid |
| `Haversine.CalculateInMeters` | src/main/java/com/freightfox/dispatch/util/HaversineCalculator.java:86-88 | same validation outcome as `calculate`, 1000 times its value |
| `Haversine.IsWithinDistance` | src/main/java/com/freightfox/dispatch/util/HaversineCalculator.java:129-136 | true iff the distance is at most the threshold (inclusive); errors as `calculate` |
| `Haversine.CalculateSymmetricAndReflexive` | src/main/java/com/freightfox/dispatch/util/HaversineCalculator.java:24-64 | under the assumed laws of the formula, the distance is symmetric, zero from a point to itself, and a point is within any non-negative threshold of itself |
| `Haversine.DistanceBelowDoubleMax` | src/main/java/com/freightfox/dispatch/service/OptimizationEngine.java:214 | every formula distance lies below `Double.MAX_VALUE`, the initial minimum of `findBestVehicle` |
| `OrderSorting.SortOrdersByPriority` | src/main/java/com/freightfox/dispatch/service/OptimizationEngine.java:82-91 | the sorted list is a permutation of the input (same multiset and length), non-increasing in priority and, within a priority, non-increasing in weight |
| `OrderSorting.SortIsStable` | src/main/java/com/freightfox/dispatch/service/OptimizationEngine.java:82-91 | orders equal on both keys keep their input order |
| `OrderSorting.SortKeepsDistinctIds` | src/main/java/com/freightfox/dispatch/service/OptimizationEngine.java:82-91 | sorting keeps order ids distinct |
| `GreedyAssignment.Scan` | src/main/java/com/freightfox/dispatch/service/OptimizationEngine.java:213-233 | after the first n vehicles, a kept vehicle is one of them, has room for the order, and its distance is the kept minimum; without one the minimum is still `Double.MAX_VALUE` |
| `GreedyAssignment.ScanKeepsMinimum` | src/main/java/com/freightfox/dispatch/service/OptimizationEngine.java:221-231 | the kept distance is no larger than that of any eligible vehicle seen, and strictly smaller than that of every eligible vehicle before the kept one |
| `GreedyAssignment.NearestIsNearestEligible` | src/main/java/com/freightfox/dispatch/service/OptimizationEngine.java:208-236 | no vehicle is chosen iff no vehicle has `capacity - currentLoad >= weight`; a chosen vehicle is eligible, at minimal distance among eligible ones, and the first such in visiting order |
| `GreedyAssignment.PlaceIsGreedyStep` | src/main/java/com/freightfox/dispatch/service/OptimizationEngine.java:157-195 | an order with no eligible vehicle changes nothing; otherwise exactly the nearest eligible vehicle gains the weight, the distance and one record, and every other vehicle is unchanged |
| `GreedyAssignment.TalliesOneMore` | src/main/java/com/freightfox/dispatch/service/OptimizationEngine.java:151-196 | the pass over one more order is one more greedy step |
| `GreedyAssignment.TalliesKeepCapacity` | src/main/java/com/freightfox/dispatch/service/OptimizationEngine.java:151-196 | after any prefix of the pass, every vehicle's load is the sum of the weights of its records and its distance the sum of their distances, and a vehicle that received anything is within capacity |
| `GreedyAssignment.PlaceAccountsForOrder` | src/main/java/com/freightfox/dispatch/service/OptimizationEngine.java:163-195 | one greedy step adds the order to exactly one vehicle's list when some vehicle has room for it, and to no list exactly when none has |
| `GreedyAssignment.UnassignedStep` | src/main/java/com/freightfox/dispatch/service/OptimizationEngine.java:187-195 | handling one more order adds it to the unassigned orders when no vehicle has room for it, and leaves them unchanged otherwise |
| `GreedyAssignment.EveryOrderHandledOnce` | src/main/java/com/freightfox/dispatch/service/OptimizationEngine.java:151-196 | the orders held by the vehicles plus the unassigned ones are exactly the sorted orders, each once |
| `GreedyAssignment.AssignedAndUnassignedAddUp` | src/main/java/com/freightfox/dispatch/service/OptimizationEngine.java:178-189 | the number of assigned records plus the number of unassigned orders is the number of orders |
| `GreedyAssignment.RecordsFollowDispatchOrder` | src/main/java/com/freightfox/dispatch/service/OptimizationEngine.java:151-176 | each vehicle's list holds its orders in sorted sequence (a subsequence of the sorted orders) |
| `PlanAssembly.UsedPlansAreTheUsedVehicles` | src/main/java/com/freightfox/dispatch/service/OptimizationEngine.java:251-291 | the plan has an entry for exactly the vehicles whose list is non-empty; each entry has a positive order count equal to its number of assigned orders |
| `PlanAssembly.PlanCountsEveryAssignment` | src/main/java/com/freightfox/dispatch/service/OptimizationEngine.java:261-262 | the order counts of the entries add up to the number of assignment records |
| `PlanAssembly.PlaceKeepsLoadsWithinCapacity` | src/main/java/com/freightfox/dispatch/service/OptimizationEngine.java:163-176 | one greedy step with a positive weight keeps every vehicle's load between 0 and its capacity |
| `PlanAssembly.UsedVehiclesWithinCapacity` | src/main/java/com/freightfox/dispatch/service/OptimizationEngine.java:163-176 | with positive weights, every vehicle ends with a load between 0 and its capacity, and one that received orders with a positive load |
| `PlanAssembly.UtilizationAtMostFull` | src/main/java/com/freightfox/dispatch/service/OptimizationEngine.java:266 | a load within capacity gives a utilization in (0, 100] |
| `PlanAssembly.EmptyPlan` | src/main/java/com/freightfox/dispatch/service/OptimizationEngine.java:321-336 | the plan keeps the given message, is FAILED, has no entries, and every count, the distance and the average utilization of its summary are zero |
| `PlanAssembly.UsedPlansCountNonEmpty` | src/main/java/com/freightfox/dispatch/service/OptimizationEngine.java:251-261 | there is one plan entry per vehicle whose list is non-empty |
| `PlanAssembly.DispatchPlanOf` | src/main/java/com/freightfox/dispatch/service/OptimizationEngine.java:239-316 | the plan is never FAILED and carries the success message; it is SUCCESS iff the assigned count equals the total, else PARTIAL; assignedOrders is the number of assignment records and assigned plus unassigned is the total; totalVehicles counts every vehicle; usedVehicles is the number of entries, which is the number of non-empty lists |
| `PlanAssembly.GreedyPlanSummary` | src/main/java/com/freightfox/dispatch/service/OptimizationEngine.java:249-315 | for the greedy pass: totalOrders is the number of orders, assignedOrders the assignment count, unassignedOrders the number left over; status is SUCCESS iff none is left over, else PARTIAL; totalVehicles counts every vehicle; usedVehicles is the number of plan entries and of vehicles with a non-empty list; every utilization is in (0, 100]; totalDistanceCovered is the distance travelled by the whole fleet; with at least one used vehicle the average utilization is in (0, 100] |
| `PlanAssembly.PlanTotals` | src/main/java/com/freightfox/dispatch/service/OptimizationEngine.java:263-296 | totalDistanceCovered is the sum of the entries' distances, which is the whole fleet's distance when vehicles without orders have not moved; averageUtilization is the mean utilization of the entries, and 0 when there are none |
| `PlanAssembly.PlanDistanceIsFleetDistance` | src/main/java/com/freightfox/dispatch/service/OptimizationEngine.java:251-263 | when vehicles without orders have not moved, the distance summed over used vehicles only equals the sum over every vehicle |
| `PlanAssembly.UtilizationSumBounds` | src/main/java/com/freightfox/dispatch/service/OptimizationEngine.java:266-267 | utilizations each in (0, 100] add up to a positive total of at most 100 per entry, and to 0 over no entries |
| `PlanAssembly.AverageAtMostFull` | src/main/java/com/freightfox/dispatch/service/OptimizationEngine.java:294-296 | a positive total of at most 100 per used vehicle averages to a value in (0, 100] |
| `OptimizationEngine.VehicleState.constructor` | src/main/java/com/freightfox/dispatch/service/OptimizationEngine.java:350-358 | a new state is unloaded and has travelled nothing |
| `OptimizationEngine.VehicleState.RemainingCapacity` | src/main/java/com/freightfox/dispatch/service/OptimizationEngine.java:360-362 | the remaining capacity plus the current load is the capacity |
| `OptimizationEngine.VehicleState.AddOrder` | src/main/java/com/freightfox/dispatch/service/OptimizationEngine.java:364-367 | the load grows by the package weight and the distance by the given distance |
| `OptimizationEngine.DistanceKeyInjective` | src/main/java/com/freightfox/dispatch/service/OptimizationEngine.java:339-341 | for vehicle ids of the accepted form, two (vehicle, order) pairs share a cache key iff they are the same pair |
| `OptimizationEngine.RowErrorNoneIffValid` | src/main/java/com/freightfox/dispatch/service/OptimizationEngine.java:114-127 | one vehicle's row is computed without error iff the vehicle and every order have valid coordinates |
| `OptimizationEngine.MatrixErrorNoneIffValid` | src/main/java/com/freightfox/dispatch/service/OptimizationEngine.java:107-131 | the table is filled without error iff every vehicle and order involved has valid coordinates |
| `OptimizationEngine.TableKeysArePairKeys` | src/main/java/com/freightfox/dispatch/service/OptimizationEngine.java:111-124 | the keys cached for the first vehicles are exactly the keys of their (vehicle, order) pairs: every pair's key is present and every key is some pair's |
| `OptimizationEngine.TableKeysCount` | src/main/java/com/freightfox/dispatch/service/OptimizationEngine.java:111-124 | with distinct ids of the accepted form, the table of the first i vehicles holds i times the number of orders keys, no pair overwriting another |
| `OptimizationEngine.CacheRow` | src/main/java/com/freightfox/dispatch/service/OptimizationEngine.java:112-125 | the inner loop: fails with the first error of the whole table when the vehicle's row has a bad coordinate; otherwise caches every pair of the row, adds exactly the row's keys, and leaves the earlier rows' entries in place |
| `OptimizationEngine.BuildDistanceMatrix` | src/main/java/com/freightfox/dispatch/service/OptimizationEngine.java:107-131 | fails iff some pair has a bad coordinate, with the first error met vehicle by vehicle, order by order; otherwise every pair's distance is cached under its key, the table holds no other key, and it has one entry per pair (number of vehicles times number of orders) |
| `OptimizationEngine.FindBestVehicle` | src/main/java/com/freightfox/dispatch/service/OptimizationEngine.java:208-236 | the loop returns the reference choice `Nearest` for the current loads, by vehicle id and distance, or none exactly when it does |
| `OptimizationEngine.AssignOne` | src/main/java/com/freightfox/dispatch/service/OptimizationEngine.java:157-195 | the states and lists after one order hold the reference greedy step applied to what they held before |
| `OptimizationEngine.EmptyLists` | src/main/java/com/freightfox/dispatch/service/OptimizationEngine.java:140-145 | every vehicle id gets an empty list, and no other key is present |
| `OptimizationEngine.AssignOrders` | src/main/java/com/freightfox/dispatch/service/OptimizationEngine.java:134-202 | starting from unloaded vehicles, the final loads, distances and lists are those of the reference pass over the sorted orders |
| `OptimizationEngine.InitializeVehicleStates` | src/main/java/com/freightfox/dispatch/service/OptimizationEngine.java:94-104 | one fresh, unloaded state per vehicle id, owned by that vehicle (the last one when ids repeat), distinct ids holding distinct states |
| `OptimizationEngine.StatesFollowVisitingOrder` | src/main/java/com/freightfox/dispatch/service/OptimizationEngine.java:94-104 | with distinct vehicle ids, listing the state map in visiting order gives one separate state per vehicle, each owned by the vehicle at that position |
| `OptimizationEngine.BuildDispatchPlan` | src/main/java/com/freightfox/dispatch/service/OptimizationEngine.java:239-316 | the loop's plan is the reference plan of the tallies the states and lists hold |
| `OptimizationEngine.OptimizeDispatch` | src/main/java/com/freightfox/dispatch/service/OptimizationEngine.java:27-79 | no orders gives the FAILED plan "No orders to assign" with an all-zero summary, checked before the vehicles; no vehicles gives "No vehicles available"; a bad coordinate propagates as the table's first error; otherwise the result is the reference plan of the greedy pass over the sorted orders, with every load within capacity |
| `Service.DistinctCountDetectsRepeats` | src/main/java/com/freightfox/dispatch/service/DispatchService.java:263-264 | the distinct count falls short of the number of ids iff some id occurs twice |
| `Service.ValidateNoDuplicateOrderIds` | src/main/java/com/freightfox/dispatch/service/DispatchService.java:258-268 | fails with "Request contains duplicate order IDs" iff two orders of the request share an id |
| `Service.ValidateNoDuplicateVehicleIds` | src/main/java/com/freightfox/dispatch/service/DispatchService.java:271-281 | fails with "Request contains duplicate vehicle IDs" iff two vehicles of the request share an id |
| `Service.FirstStored` | src/main/java/com/freightfox/dispatch/service/DispatchService.java:76-81 | none iff no request id is stored; otherwise the first stored id in request order |
| `Service.CountByPriority` | src/main/java/com/freightfox/dispatch/service/DispatchService.java:307-311 | the count is at most the number of orders; it is zero iff no order has the priority, and the number of orders iff every order has it |
| `Service.PriorityCountsAddUp` | src/main/java/com/freightfox/dispatch/service/DispatchService.java:89-95 | the HIGH, MEDIUM and LOW counts add up to the number of orders |
| `Service.WrapInt` | src/main/java/com/freightfox/dispatch/service/DispatchService.java:134 | a Java `int` result lies in [-2^31, 2^31), differs from the exact result by a multiple of 2^32, and is the exact result when that fits |
| `Service.IntSumIsWrappedSum` | src/main/java/com/freightfox/dispatch/service/DispatchService.java:134-136 | `IntStream.sum()`, wrapping at every addition, is the exact sum wrapped into the `int` range |
| `Service.IntSumExactInRange` | src/main/java/com/freightfox/dispatch/service/DispatchService.java:134-136 | the `int` sum is the exact sum whenever the exact sum fits in an `int` |
| `Service.LongSumIsExact` | src/main/java/com/freightfox/dispatch/service/DispatchService.java:134-136 | values between 0 and m add up to at most their number times m, and while that bound fits in a `long` the `long` sum is the exact sum |
| `Service.ReportedCapacityOverflows` | src/main/java/com/freightfox/dispatch/service/DispatchService.java:134-142 | 43 vehicles of 50,000,000 g carry 2,150,000,000 g and the source reports -2,144,967,296 g |
| `Service.LongCapacityReportIsExact` | src/main/java/com/freightfox/dispatch/service/DispatchService.java:134-142 | summed as a `long`, the capacity of every accepted request (at most 50 vehicles of 1,000 g to 50,000,000 g) is the exact total, at most 2,500,000,000 g |
| `Service.CapacityWarning` | src/main/java/com/freightfox/dispatch/service/DispatchService.java:284-304 | the warning compares the two `int` sums; while both exact sums fit in an `int`, it is raised iff the orders weigh more than the fleet's total capacity |
| `Service.DispatchService.constructor` | src/main/java/com/freightfox/dispatch/service/DispatchService.java:40-50 | the service starts over empty order and vehicle repositories |
| `Service.DispatchService.SaveOrders` | src/main/java/com/freightfox/dispatch/service/DispatchService.java:63-98 | a request repeating an id fails with an illegal-argument error, before the store is consulted; otherwise the first already-stored id, in request order, fails with a duplicate-order error; nothing is saved in either case; otherwise the orders are appended and the report gives the count saved and the HIGH, MEDIUM and LOW counts; ids stay unique |
| `Service.DispatchService.SaveVehicles` | src/main/java/com/freightfox/dispatch/service/DispatchService.java:108-145 | the same checks with a duplicate-vehicle error; otherwise the vehicles are appended and the report gives the count and the total capacity summed as a Java `int`, which is the exact total whenever that fits in an `int`; ids stay unique |
| `Service.DispatchService.GetDispatchPlan` | src/main/java/com/freightfox/dispatch/service/DispatchService.java:158-191 | no stored orders fails with NoOrders before the vehicles are looked at; no stored vehicles fails with NoVehicles; otherwise the capacity comparison only warns, and the result is the engine's: the table's first coordinate error, or the plan of the greedy pass over the stored orders sorted for dispatch and the stored vehicles in visiting order, with every load within capacity |
| `Service.DispatchService.ClearAllOrders` | src/main/java/com/freightfox/dispatch/service/DispatchService.java:212-218 | empties the order store, leaves the vehicles, and reports how many orders were deleted |
| `Service.DispatchService.ClearAllVehicles` | src/main/java/com/freightfox/dispatch/service/DispatchService.java:223-229 | empties the vehicle store, leaves the orders, and reports how many vehicles were deleted |

## Left out

- The haversine formula (`HaversineCalculator.java:38-60`) is floating-point trigonometry. It
  is the parameter `gc`. Its laws are hypotheses in `GreatCircleLaws`, not proved:
  - non-negative and at most 4R;
  - zero from a point to itself;
  - symmetric.
- Doubles are modelled as exact reals. NaN, infinities and rounding error are not modelled.
- The "%.2f km" strings, the `%.4f` value in error messages (a parameter of `Message`) and the
  rounding of utilization to two decimals are not modelled. Utilization and average
  utilization are the exact quotients before rounding.
- Hash-map iteration order is not computed. `visitOrder` stands for it.
- `OptimizationEngine.OptimizeDispatch`: requires distinct vehicle and order ids, because
  `states.put` and the distance keys would otherwise overwrite entries silently. The stores'
  primary keys guarantee this.
- `OptimizationEngine.OptimizeDispatch`: requires vehicle ids of the accepted form
  (`^[A-Z0-9-]+$`), which keeps the "vehicleId:orderId" keys apart.
- `OptimizationEngine.OptimizeDispatch`: requires positive weights. Request validation
  guarantees these.
- `Service.DispatchService.SaveOrders` requires positive weights and `SaveVehicles` requires
  well-formed vehicle ids. The framework enforces these on the request objects before the
  service runs.
- Loads and utilization counts use unbounded integers. Engine loads stay within a vehicle's
  capacity, so they cannot overflow.
- The `int` sums in `validateTotalCapacity` can wrap around, like the reported capacity under
  Findings. `CapacityWarning` models them as written, but only the log line depends on the
  result, and logging is not modelled.
- The repositories' `findAll` is taken to return rows in the order they were saved. Spring
  and JPA plumbing, transactions, entity timestamps, the HTTP layer, DTO conversion
  (including `Priority.valueOf`) and bean validation are not modelled.
- Logging is not modelled. This includes the priority counts the engine only logs
  (`OptimizationEngine.java:47-50`) and the capacity warning.
- `getAllOrders` and `getAllVehicles` return the stores unchanged and have no member.
- Success messages are represented by the figures they report (`OrdersSaved`,
  `VehiclesSaved`), not by their text.

## Findings

| source | as written | input that shows it | evidently intended | confidence | as-written member | corrected member |
|---|---|---|---|---|---|---|
| src/main/java/com/freightfox/dispatch/service/DispatchService.java:134-142 | the reported total capacity is summed in Java `int`, which wraps past 2,147,483,647 g | a valid request of 43 vehicles at the largest accepted capacity, 50,000,000 g (up to 50 per request are accepted), is reported as -2,144,967,296 g | the exact sum, 2,150,000,000 g, which a `long` sum (`mapToLong`) gives for every accepted request | not executed | `Service.ReportedCapacityOverflows` | `Service.LongCapacityReportIsExact` |

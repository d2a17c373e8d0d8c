/** A value-level reference for the engine's greedy pass: which vehicle an order goes to, and
    what every vehicle has accumulated after a prefix of the sorted orders. The imperative
    engine is proved to compute exactly these values. */
module GreedyAssignment {
  import opened Wrappers
  import opened Entities
  import opened Haversine

  /** Distance from a vehicle's current position to an order's destination. */
  function Distance(gc: (Point, Point) -> real, v: Vehicle, o: DeliveryOrder): real
  {
    gc(Point(v.currentLatitude, v.currentLongitude), Point(o.latitude, o.longitude))
  }

  /** A vehicle carrying `load` grams still has room for `o`. */
  predicate Eligible(v: Vehicle, load: int, o: DeliveryOrder)
  {
    v.capacity - load >= o.packageWeight
  }

  /** No vehicle of the fleet has room for `o`. */
  predicate NoRoom(fleet: seq<Vehicle>, loads: seq<int>, o: DeliveryOrder)
    requires |loads| == |fleet|
  {
    forall k :: 0 <= k < |fleet| ==> !Eligible(fleet[k], loads[k], o)
  }

  /** Slot `k` holds an eligible vehicle at minimal distance, and no earlier eligible vehicle is
      as near (ties go to the first vehicle in iteration order). */
  ghost predicate IsNearestEligible(fleet: seq<Vehicle>, loads: seq<int>, o: DeliveryOrder,
                                    gc: (Point, Point) -> real, k: int)
    requires |loads| == |fleet|
  {
    && 0 <= k < |fleet|
    && Eligible(fleet[k], loads[k], o)
    && (forall j :: 0 <= j < |fleet| && Eligible(fleet[j], loads[j], o) ==>
          Distance(gc, fleet[k], o) <= Distance(gc, fleet[j], o))
    && (forall j :: 0 <= j < k && Eligible(fleet[j], loads[j], o) ==>
          Distance(gc, fleet[k], o) < Distance(gc, fleet[j], o))
  }

  /** The vehicle chosen for an order: its slot in iteration order and its distance. */
  datatype Choice = Choice(slot: nat, distance: real)

  /** The pair (best, minDistance) after `findBestVehicle` has examined the first `n` vehicles;
      minDistance starts at `Double.MAX_VALUE` and only a strictly smaller distance replaces it. */
  function Scan(fleet: seq<Vehicle>, loads: seq<int>, o: DeliveryOrder, gc: (Point, Point) -> real, n: nat)
    : (r: (Option<Choice>, real))
    requires n <= |fleet| == |loads|
    ensures r.0.None? ==> r.1 == DoubleMax
    ensures r.0.Some? ==> && r.0.value.slot < n && Eligible(fleet[r.0.value.slot], loads[r.0.value.slot], o)
                          && r.0.value.distance == r.1 == Distance(gc, fleet[r.0.value.slot], o)
  {
    if n == 0 then (None, DoubleMax)
    else
      var prev := Scan(fleet, loads, o, gc, n - 1);
      var d := Distance(gc, fleet[n - 1], o);
      if Eligible(fleet[n - 1], loads[n - 1], o) && d < prev.1 then
        (Some(Choice(n - 1, d)), d)
      else
        prev
  }

  /** After `n` vehicles the kept distance is below `Double.MAX_VALUE` when a vehicle was kept, is
      no larger than any eligible vehicle's distance, and is strictly smaller than that of every
      eligible vehicle before the kept one. */
  lemma {:induction false} ScanKeepsMinimum(fleet: seq<Vehicle>, loads: seq<int>, o: DeliveryOrder,
                                            gc: (Point, Point) -> real, n: nat)
    requires n <= |fleet| == |loads|
    ensures var r := Scan(fleet, loads, o, gc, n);
            && (r.0.Some? ==> r.1 < DoubleMax)
            && (forall j :: 0 <= j < n && Eligible(fleet[j], loads[j], o) ==> r.1 <= Distance(gc, fleet[j], o))
            && (r.0.Some? ==> forall j :: 0 <= j < r.0.value.slot && Eligible(fleet[j], loads[j], o) ==>
                                 r.1 < Distance(gc, fleet[j], o))
  {
    if n > 0 {
      ScanKeepsMinimum(fleet, loads, o, gc, n - 1);
    }
  }

  /** The result of `findBestVehicle` for the whole fleet. */
  function Nearest(fleet: seq<Vehicle>, loads: seq<int>, o: DeliveryOrder, gc: (Point, Point) -> real)
    : Option<Choice>
    requires |fleet| == |loads|
  {
    Scan(fleet, loads, o, gc, |fleet|).0
  }

  /** With haversine distances (always below `Double.MAX_VALUE`), no vehicle is chosen exactly
      when none has room, and a chosen vehicle is the nearest eligible one, first on ties. */
  lemma NearestIsNearestEligible(fleet: seq<Vehicle>, loads: seq<int>, o: DeliveryOrder,
                                 gc: (Point, Point) -> real)
    requires |fleet| == |loads|
    requires GreatCircleLaws(gc)
    ensures Nearest(fleet, loads, o, gc).None? <==> NoRoom(fleet, loads, o)
    ensures Nearest(fleet, loads, o, gc).Some? ==>
              && IsNearestEligible(fleet, loads, o, gc, Nearest(fleet, loads, o, gc).value.slot)
              && Nearest(fleet, loads, o, gc).value.distance
                 == Distance(gc, fleet[Nearest(fleet, loads, o, gc).value.slot], o)
  {
    ScanKeepsMinimum(fleet, loads, o, gc, |fleet|);
    if Nearest(fleet, loads, o, gc).None? {
      forall k | 0 <= k < |fleet| ensures !Eligible(fleet[k], loads[k], o) {
        DistanceBelowDoubleMax(gc, Point(fleet[k].currentLatitude, fleet[k].currentLongitude),
                               Point(o.latitude, o.longitude));
      }
    }
  }

  /** One sorted order handed to one vehicle, with the distance it was chosen at. */
  datatype AssignmentRecord = AssignmentRecord(order: DeliveryOrder, distance: real)

  /** What one vehicle has accumulated: its load, its travelled distance and its records. */
  datatype Tally = Tally(load: int, travelled: real, records: seq<AssignmentRecord>)

  function Loads(ts: seq<Tally>): (r: seq<int>)
    ensures |r| == |ts| && forall k :: 0 <= k < |ts| ==> r[k] == ts[k].load
  {
    seq(|ts|, k requires 0 <= k < |ts| => ts[k].load)
  }

  /** The state of `n` vehicles before any assignment. */
  function Idle(n: nat): (r: seq<Tally>)
    ensures |r| == n && forall k :: 0 <= k < n ==> r[k] == Tally(0, 0.0, [])
  {
    seq(n, _ => Tally(0, 0.0, []))
  }

  /** One iteration of `assignOrders`: the order goes to the vehicle `findBestVehicle` picks,
      whose load, distance and records grow; nothing else changes. */
  function Place(fleet: seq<Vehicle>, ts: seq<Tally>, o: DeliveryOrder, gc: (Point, Point) -> real)
    : (r: seq<Tally>)
    requires |ts| == |fleet|
    ensures |r| == |fleet|
  {
    match Nearest(fleet, Loads(ts), o, gc)
    case None => ts
    case Some(a) =>
      var t := ts[a.slot];
      ts[a.slot := Tally(t.load + o.packageWeight, t.travelled + a.distance,
                         t.records + [AssignmentRecord(o, a.distance)])]
  }

  /** The vehicles' state after the greedy pass over `orders`, one order at a time. */
  function Tallies(fleet: seq<Vehicle>, orders: seq<DeliveryOrder>, gc: (Point, Point) -> real)
    : (r: seq<Tally>)
    ensures |r| == |fleet|
    decreases |orders|
  {
    if orders == [] then Idle(|fleet|)
    else Place(fleet, Tallies(fleet, orders[..|orders| - 1], gc), orders[|orders| - 1], gc)
  }

  /** Handling one more order of a list extends the pass over the orders before it by one step. */
  lemma TalliesOneMore(fleet: seq<Vehicle>, orders: seq<DeliveryOrder>, i: nat, gc: (Point, Point) -> real)
    requires i < |orders|
    ensures Tallies(fleet, orders[..i + 1], gc) == Place(fleet, Tallies(fleet, orders[..i], gc), orders[i], gc)
  {
    assert orders[..i + 1][..i] == orders[..i];
  }

  /** The orders that, at their turn, found no vehicle with enough remaining capacity. */
  function Unassigned(fleet: seq<Vehicle>, orders: seq<DeliveryOrder>, gc: (Point, Point) -> real)
    : seq<DeliveryOrder>
    decreases |orders|
  {
    if orders == [] then []
    else
      var prev := orders[..|orders| - 1];
      var o := orders[|orders| - 1];
      Unassigned(fleet, prev, gc) + (if NoRoom(fleet, Loads(Tallies(fleet, prev, gc)), o) then [o] else [])
  }

  /** One greedy step: an order nobody has room for changes nothing; otherwise exactly the nearest
      eligible vehicle receives it, its load grows by the weight and its distance by the
      vehicle-to-order distance, and every other vehicle is untouched. */
  lemma PlaceIsGreedyStep(fleet: seq<Vehicle>, ts: seq<Tally>, o: DeliveryOrder, gc: (Point, Point) -> real)
    requires |ts| == |fleet|
    requires GreatCircleLaws(gc)
    ensures NoRoom(fleet, Loads(ts), o) ==> Place(fleet, ts, o, gc) == ts
    ensures !NoRoom(fleet, Loads(ts), o) ==>
              exists k :: && IsNearestEligible(fleet, Loads(ts), o, gc, k)
                          && Place(fleet, ts, o, gc)[k]
                             == Tally(ts[k].load + o.packageWeight, ts[k].travelled + Distance(gc, fleet[k], o),
                                      ts[k].records + [AssignmentRecord(o, Distance(gc, fleet[k], o))])
                          && forall j :: 0 <= j < |ts| && j != k ==> Place(fleet, ts, o, gc)[j] == ts[j]
  {
    NearestIsNearestEligible(fleet, Loads(ts), o, gc);
    if !NoRoom(fleet, Loads(ts), o) {
      var k := Nearest(fleet, Loads(ts), o, gc).value.slot;
      assert IsNearestEligible(fleet, Loads(ts), o, gc, k);
    }
  }

  function SumWeights(rs: seq<AssignmentRecord>): int
  {
    if rs == [] then 0 else SumWeights(rs[..|rs| - 1]) + rs[|rs| - 1].order.packageWeight
  }

  function SumDistances(rs: seq<AssignmentRecord>): real
  {
    if rs == [] then 0.0 else SumDistances(rs[..|rs| - 1]) + rs[|rs| - 1].distance
  }

  /** The per-vehicle invariant of the greedy pass: the load is the total weight of the records
      and the distance their total distance, and a vehicle that received anything is within
      capacity; with a non-negative capacity every vehicle is. */
  predicate TallyAccounts(v: Vehicle, t: Tally)
  {
    && t.load == SumWeights(t.records)
    && t.travelled == SumDistances(t.records)
    && (t.records != [] ==> t.load <= v.capacity)
    && (0 <= v.capacity ==> t.load <= v.capacity)
  }

  /** One greedy step keeps the per-vehicle invariant of every vehicle. */
  lemma PlaceKeepsAccounts(fleet: seq<Vehicle>, ts: seq<Tally>, o: DeliveryOrder, gc: (Point, Point) -> real)
    requires |ts| == |fleet|
    requires forall k :: 0 <= k < |fleet| ==> TallyAccounts(fleet[k], ts[k])
    ensures forall k :: 0 <= k < |fleet| ==> TallyAccounts(fleet[k], Place(fleet, ts, o, gc)[k])
  {
    match Nearest(fleet, Loads(ts), o, gc)
    case None =>
    case Some(a) =>
      var t := ts[a.slot];
      var rs := t.records + [AssignmentRecord(o, a.distance)];
      assert rs[..|rs| - 1] == t.records;
      assert Loads(ts)[a.slot] == t.load;
      var r := Place(fleet, ts, o, gc);
      assert r == ts[a.slot := Tally(t.load + o.packageWeight, t.travelled + a.distance, rs)];
      assert TallyAccounts(fleet[a.slot], r[a.slot]);
      forall k | 0 <= k < |fleet| && k != a.slot
        ensures TallyAccounts(fleet[k], r[k])
      {
        assert r[k] == ts[k];
      }
  }

  /** The per-vehicle invariant holds after every prefix of the pass. */
  lemma {:induction false} TalliesKeepCapacity(fleet: seq<Vehicle>, orders: seq<DeliveryOrder>,
                                               gc: (Point, Point) -> real)
    ensures forall k :: 0 <= k < |fleet| ==> TallyAccounts(fleet[k], Tallies(fleet, orders, gc)[k])
    decreases |orders|
  {
    if orders != [] {
      var prev := orders[..|orders| - 1];
      TalliesKeepCapacity(fleet, prev, gc);
      PlaceKeepsAccounts(fleet, Tallies(fleet, prev, gc), orders[|orders| - 1], gc);
    }
  }

  function OrdersOf(rs: seq<AssignmentRecord>): (r: seq<DeliveryOrder>)
    ensures |r| == |rs| && forall i :: 0 <= i < |rs| ==> r[i] == rs[i].order
  {
    seq(|rs|, i requires 0 <= i < |rs| => rs[i].order)
  }

  /** All orders held by the vehicles, counted with multiplicity. */
  function Bag(ts: seq<Tally>): multiset<DeliveryOrder>
  {
    if ts == [] then multiset{} else Bag(ts[..|ts| - 1]) + multiset(OrdersOf(ts[|ts| - 1].records))
  }

  /** Number of orders held by the vehicles: the sum of their list sizes. */
  function AssignedCount(ts: seq<Tally>): int
  {
    if ts == [] then 0 else AssignedCount(ts[..|ts| - 1]) + |ts[|ts| - 1].records|
  }

  lemma {:induction false} BagSize(ts: seq<Tally>)
    ensures |Bag(ts)| == AssignedCount(ts)
  {
    if ts != [] {
      BagSize(ts[..|ts| - 1]);
    }
  }

  lemma {:induction false} BagGrows(ts: seq<Tally>, us: seq<Tally>, k: nat, rec: AssignmentRecord)
    requires |us| == |ts| && k < |ts|
    requires us[k].records == ts[k].records + [rec]
    requires forall j :: 0 <= j < |ts| && j != k ==> us[j].records == ts[j].records
    ensures Bag(us) == Bag(ts) + multiset{rec.order}
  {
    var n := |ts|;
    if k == n - 1 {
      BagGrowsAtEnd(ts, us, rec);
    } else {
      BagGrows(ts[..n - 1], us[..n - 1], k, rec);
      assert us[n - 1].records == ts[n - 1].records;
    }
  }

  lemma BagGrowsAtEnd(ts: seq<Tally>, us: seq<Tally>, rec: AssignmentRecord)
    requires |us| == |ts| > 0
    requires us[|ts| - 1].records == ts[|ts| - 1].records + [rec]
    requires forall j :: 0 <= j < |ts| - 1 ==> us[j].records == ts[j].records
    ensures Bag(us) == Bag(ts) + multiset{rec.order}
  {
    var n := |ts|;
    assert OrdersOf(us[n - 1].records) == OrdersOf(ts[n - 1].records) + [rec.order];
    BagSame(ts[..n - 1], us[..n - 1]);
  }

  lemma {:induction false} BagSame(ts: seq<Tally>, us: seq<Tally>)
    requires |us| == |ts|
    requires forall j :: 0 <= j < |ts| ==> us[j].records == ts[j].records
    ensures Bag(us) == Bag(ts)
  {
    if ts != [] {
      BagSame(ts[..|ts| - 1], us[..|us| - 1]);
    }
  }

  lemma BagIdle(n: nat)
    ensures Bag(Idle(n)) == multiset{}
  {
    if n > 0 {
      assert Idle(n)[..n - 1] == Idle(n - 1);
      BagIdle(n - 1);
    }
  }

  /** One greedy step puts the order either into exactly one list or, when no vehicle has room,
      nowhere. */
  lemma PlaceAccountsForOrder(fleet: seq<Vehicle>, ts: seq<Tally>, o: DeliveryOrder, gc: (Point, Point) -> real)
    requires |ts| == |fleet|
    requires GreatCircleLaws(gc)
    ensures NoRoom(fleet, Loads(ts), o) ==> Bag(Place(fleet, ts, o, gc)) == Bag(ts)
    ensures !NoRoom(fleet, Loads(ts), o) ==> Bag(Place(fleet, ts, o, gc)) == Bag(ts) + multiset{o}
  {
    NearestIsNearestEligible(fleet, Loads(ts), o, gc);
    match Nearest(fleet, Loads(ts), o, gc)
    case None =>
    case Some(a) =>
      BagGrows(ts, Place(fleet, ts, o, gc), a.slot, AssignmentRecord(o, a.distance));
  }

  /** The last order joins the unassigned ones exactly when no vehicle had room for it. */
  lemma UnassignedStep(fleet: seq<Vehicle>, orders: seq<DeliveryOrder>, gc: (Point, Point) -> real)
    requires orders != []
    ensures var prev, o := orders[..|orders| - 1], orders[|orders| - 1];
            && (NoRoom(fleet, Loads(Tallies(fleet, prev, gc)), o) ==>
                  multiset(Unassigned(fleet, orders, gc)) == multiset(Unassigned(fleet, prev, gc)) + multiset{o})
            && (!NoRoom(fleet, Loads(Tallies(fleet, prev, gc)), o) ==>
                  Unassigned(fleet, orders, gc) == Unassigned(fleet, prev, gc))
  {
    var prev, o := orders[..|orders| - 1], orders[|orders| - 1];
    var left := Unassigned(fleet, prev, gc);
    if NoRoom(fleet, Loads(Tallies(fleet, prev, gc)), o) {
      assert multiset(left + [o]) == multiset(left) + multiset{o};
    } else {
      assert left + [] == left;
    }
  }

  /** Handling one more order adds it to the placed orders or to the left-over ones. */
  lemma OneMoreOrderHandled(fleet: seq<Vehicle>, orders: seq<DeliveryOrder>, gc: (Point, Point) -> real)
    requires GreatCircleLaws(gc)
    requires orders != []
    ensures var prev := orders[..|orders| - 1];
            Bag(Tallies(fleet, orders, gc)) + multiset(Unassigned(fleet, orders, gc))
            == Bag(Tallies(fleet, prev, gc)) + multiset(Unassigned(fleet, prev, gc)) + multiset{orders[|orders| - 1]}
  {
    var prev, o := orders[..|orders| - 1], orders[|orders| - 1];
    PlaceAccountsForOrder(fleet, Tallies(fleet, prev, gc), o, gc);
    UnassignedStep(fleet, orders, gc);
  }

  lemma LastSplit(orders: seq<DeliveryOrder>)
    requires orders != []
    ensures multiset(orders) == multiset(orders[..|orders| - 1]) + multiset{orders[|orders| - 1]}
  {
    assert orders == orders[..|orders| - 1] + [orders[|orders| - 1]];
  }

  /** Every sorted order is handled exactly once: it ends up in exactly one vehicle's list or
      among the orders nobody had room for, and no order appears that was not in the input. */
  lemma {:induction false} EveryOrderHandledOnce(fleet: seq<Vehicle>, orders: seq<DeliveryOrder>,
                                                 gc: (Point, Point) -> real)
    requires GreatCircleLaws(gc)
    ensures Bag(Tallies(fleet, orders, gc)) + multiset(Unassigned(fleet, orders, gc)) == multiset(orders)
    decreases |orders|
  {
    if orders == [] {
      BagIdle(|fleet|);
    } else {
      var prev := orders[..|orders| - 1];
      EveryOrderHandledOnce(fleet, prev, gc);
      OneMoreOrderHandled(fleet, orders, gc);
      LastSplit(orders);
    }
  }

  /** The orders placed and the orders left over together number exactly the sorted orders. */
  lemma AssignedAndUnassignedAddUp(fleet: seq<Vehicle>, orders: seq<DeliveryOrder>, gc: (Point, Point) -> real)
    requires GreatCircleLaws(gc)
    ensures AssignedCount(Tallies(fleet, orders, gc)) + |Unassigned(fleet, orders, gc)| == |orders|
  {
    var ts, us := Tallies(fleet, orders, gc), Unassigned(fleet, orders, gc);
    EveryOrderHandledOnce(fleet, orders, gc);
    BagSize(ts);
    assert |Bag(ts) + multiset(us)| == |multiset(orders)|;
  }

  /** `a` lists some of the elements of `b`, in the same relative order. */
  predicate IsSubsequence(a: seq<DeliveryOrder>, b: seq<DeliveryOrder>)
    decreases |b|
  {
    if a == [] then true
    else if b == [] then false
    else (a[|a| - 1] == b[|b| - 1] && IsSubsequence(a[..|a| - 1], b[..|b| - 1]))
         || IsSubsequence(a, b[..|b| - 1])
  }

  /** Each vehicle receives its orders in dispatch order. */
  lemma {:induction false} RecordsFollowDispatchOrder(fleet: seq<Vehicle>, orders: seq<DeliveryOrder>,
                                                      gc: (Point, Point) -> real)
    ensures forall k :: 0 <= k < |fleet| ==> IsSubsequence(OrdersOf(Tallies(fleet, orders, gc)[k].records), orders)
    decreases |orders|
  {
    if orders != [] {
      var prev := orders[..|orders| - 1];
      var o := orders[|orders| - 1];
      RecordsFollowDispatchOrder(fleet, prev, gc);
      var ts := Tallies(fleet, prev, gc);
      forall k | 0 <= k < |fleet|
        ensures IsSubsequence(OrdersOf(Tallies(fleet, orders, gc)[k].records), orders)
      {
        var before := OrdersOf(ts[k].records);
        var after := OrdersOf(Tallies(fleet, orders, gc)[k].records);
        assert IsSubsequence(before, prev);
        if after == before {
          assert after == [] || IsSubsequence(after, orders[..|orders| - 1]);
        } else {
          assert after == before + [o];
          assert after[..|after| - 1] == before;
        }
      }
    }
  }
}

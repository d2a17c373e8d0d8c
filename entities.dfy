/** The two persisted entities the engine consumes: vehicles and delivery orders. */
module Entities {
  import opened Priorities

  /** A vehicle of the fleet. Capacity and weights are in grams; coordinates in degrees. */
  datatype Vehicle = Vehicle(
    vehicleId: string,
    capacity: int,
    currentLatitude: real,
    currentLongitude: real,
    currentAddress: string)
  {
    /** Whether an empty vehicle can carry a package of `weight` grams. */
    function CanAccommodate(weight: int): (ok: bool)
      ensures ok <==> RemainingCapacity(0) >= weight
      ensures ok <==> weight <= capacity
    {
      capacity >= weight
    }

    /** What is left of the capacity once `currentLoad` grams are on board. */
    function RemainingCapacity(currentLoad: int): (r: int)
      ensures r + currentLoad == capacity
    {
      capacity - currentLoad
    }
  }

  /** Loading more leaves strictly less room, and a vehicle loaded to capacity has none left. */
  lemma RemainingCapacityShrinks(v: Vehicle, lighter: int, heavier: int)
    requires lighter < heavier
    ensures v.RemainingCapacity(lighter) > v.RemainingCapacity(heavier)
    ensures v.RemainingCapacity(v.capacity) == 0
  {
  }

  /** A delivery order: where it goes, how heavy it is and how urgent. */
  datatype DeliveryOrder = DeliveryOrder(
    orderId: string,
    latitude: real,
    longitude: real,
    address: string,
    packageWeight: int,
    priority: Priority)

  /** An identifier as requests accept it: one or more upper-case letters, digits and hyphens. */
  predicate ValidIdentifier(s: string)
  {
    |s| > 0 && forall i :: 0 <= i < |s| ==> ('A' <= s[i] <= 'Z') || ('0' <= s[i] <= '9') || s[i] == '-'
  }

  /** No two vehicles share an identifier (the identifier is the table's primary key). */
  ghost predicate DistinctVehicleIds(vs: seq<Vehicle>)
  {
    forall i, j :: 0 <= i < j < |vs| ==> vs[i].vehicleId != vs[j].vehicleId
  }

  /** No two orders share an identifier (the identifier is the table's primary key). */
  ghost predicate DistinctOrderIds(os: seq<DeliveryOrder>)
  {
    forall i, j :: 0 <= i < j < |os| ==> os[i].orderId != os[j].orderId
  }
}

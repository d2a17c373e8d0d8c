/** The dispatch order: orders sorted by priority (HIGH first), then by package weight (heaviest
    first), stably, so that orders equal on both keys keep their input order. The Java code uses
    a stable library sort with that comparator; a stable sort's output is determined by its
    input, and here it is computed by insertion. */
module OrderSorting {
  import opened Priorities
  import opened Entities

  /** `a` may be dispatched before `b`: it has a higher priority, or the same priority and a
      weight at least as large. */
  predicate RanksAtLeast(a: DeliveryOrder, b: DeliveryOrder)
  {
    || SortOrder(a.priority) > SortOrder(b.priority)
    || (SortOrder(a.priority) == SortOrder(b.priority) && a.packageWeight >= b.packageWeight)
  }

  /** The comparator treats `a` and `b` as equal. */
  predicate SameRank(a: DeliveryOrder, b: DeliveryOrder)
  {
    SortOrder(a.priority) == SortOrder(b.priority) && a.packageWeight == b.packageWeight
  }

  /** Every order ranks at least as high as every later one. */
  ghost predicate DispatchOrdered(s: seq<DeliveryOrder>)
  {
    forall i, j :: 0 <= i < j < |s| ==> RanksAtLeast(s[i], s[j])
  }

  /** Places `x` before the first element it ranks at least as high as, hence after every
      element that strictly outranks it. */
  function Insert(x: DeliveryOrder, t: seq<DeliveryOrder>): (r: seq<DeliveryOrder>)
    ensures multiset(r) == multiset(t) + multiset{x}
  {
    if t == [] || RanksAtLeast(x, t[0]) then [x] + t
    else
      assert t == [t[0]] + t[1..];
      [t[0]] + Insert(x, t[1..])
  }

  lemma {:induction false} InsertKeepsOrdered(x: DeliveryOrder, t: seq<DeliveryOrder>)
    requires DispatchOrdered(t)
    ensures DispatchOrdered(Insert(x, t))
  {
    if t == [] || RanksAtLeast(x, t[0]) {
      forall j | 1 <= j < |t| + 1 ensures RanksAtLeast(x, ([x] + t)[j]) {
        assert RanksAtLeast(t[0], t[j - 1]);
      }
    } else {
      var rest := Insert(x, t[1..]);
      InsertKeepsOrdered(x, t[1..]);
      forall y | y in rest ensures RanksAtLeast(t[0], y) {
        assert y in multiset(rest);
        if y != x {
          assert y in multiset(t[1..]);
          var j :| 0 <= j < |t[1..]| && t[1..][j] == y;
          assert RanksAtLeast(t[0], t[j + 1]);
        }
      }
      var r := [t[0]] + rest;
      forall i, j | 0 <= i < j < |r| ensures RanksAtLeast(r[i], r[j]) {
        if i == 0 {
          assert r[j] in rest;
        } else {
          assert r[i] == rest[i - 1] && r[j] == rest[j - 1];
        }
      }
    }
  }

  /** `sortOrdersByPriority`: a permutation of the input in dispatch order. */
  function SortOrdersByPriority(orders: seq<DeliveryOrder>): (sorted: seq<DeliveryOrder>)
    ensures |sorted| == |orders|
    ensures multiset(sorted) == multiset(orders)
    ensures DispatchOrdered(sorted)
  {
    if orders == [] then []
    else
      var rest := SortOrdersByPriority(orders[1..]);
      InsertKeepsOrdered(orders[0], rest);
      assert multiset(orders) == multiset(orders[1..]) + multiset{orders[0]} by {
        assert orders == [orders[0]] + orders[1..];
      }
      Insert(orders[0], rest)
  }

  /** The orders of `s` that the comparator puts in the same class as `key`, in their order in `s`. */
  function RankClass(s: seq<DeliveryOrder>, key: DeliveryOrder): seq<DeliveryOrder>
  {
    if s == [] then []
    else if SameRank(s[0], key) then [s[0]] + RankClass(s[1..], key)
    else RankClass(s[1..], key)
  }

  lemma {:induction false} InsertRankClass(x: DeliveryOrder, t: seq<DeliveryOrder>, key: DeliveryOrder)
    ensures RankClass(Insert(x, t), key) == if SameRank(x, key) then [x] + RankClass(t, key) else RankClass(t, key)
  {
    if t == [] || RanksAtLeast(x, t[0]) {
      assert ([x] + t)[1..] == t;
    } else {
      var r := [t[0]] + Insert(x, t[1..]);
      assert r[1..] == Insert(x, t[1..]);
      InsertRankClass(x, t[1..], key);
    }
  }

  /** Stability: within each class of equal priority and weight, the sorted sequence lists the
      same orders in the same relative order as the input. */
  lemma {:induction false} SortIsStable(orders: seq<DeliveryOrder>, key: DeliveryOrder)
    ensures RankClass(SortOrdersByPriority(orders), key) == RankClass(orders, key)
  {
    if orders != [] {
      SortIsStable(orders[1..], key);
      InsertRankClass(orders[0], SortOrdersByPriority(orders[1..]), key);
    }
  }

  lemma {:induction false} InsertKeepsDistinctIds(x: DeliveryOrder, t: seq<DeliveryOrder>)
    requires DistinctOrderIds(t)
    requires forall y :: y in t ==> y.orderId != x.orderId
    ensures DistinctOrderIds(Insert(x, t))
  {
    if t == [] || RanksAtLeast(x, t[0]) {
      var r := [x] + t;
      forall i, j | 0 <= i < j < |r| ensures r[i].orderId != r[j].orderId {
        if i == 0 { assert r[j] in t; } else { assert r[i] == t[i - 1] && r[j] == t[j - 1]; }
      }
    } else {
      var rest := Insert(x, t[1..]);
      InsertKeepsDistinctIds(x, t[1..]);
      var r := [t[0]] + rest;
      forall i, j | 0 <= i < j < |r| ensures r[i].orderId != r[j].orderId {
        if i == 0 {
          assert r[j] in multiset(rest);
          if r[j] != x {
            assert r[j] in multiset(t[1..]);
            var m :| 0 <= m < |t[1..]| && t[1..][m] == r[j];
            assert t[0].orderId != t[m + 1].orderId;
          } else {
            assert t[0] in t;
          }
        } else {
          assert r[i] == rest[i - 1] && r[j] == rest[j - 1];
        }
      }
    }
  }

  /** Sorting never duplicates an order identifier. */
  lemma {:induction false} SortKeepsDistinctIds(orders: seq<DeliveryOrder>)
    requires DistinctOrderIds(orders)
    ensures DistinctOrderIds(SortOrdersByPriority(orders))
  {
    if orders != [] {
      var rest := SortOrdersByPriority(orders[1..]);
      assert DistinctOrderIds(orders[1..]) by {
        forall i, j | 0 <= i < j < |orders[1..]| ensures orders[1..][i].orderId != orders[1..][j].orderId {
          assert orders[1..][i] == orders[i + 1] && orders[1..][j] == orders[j + 1];
        }
      }
      SortKeepsDistinctIds(orders[1..]);
      forall y | y in rest ensures y.orderId != orders[0].orderId {
        assert y in multiset(orders[1..]);
        var m :| 0 <= m < |orders[1..]| && orders[1..][m] == y;
        assert orders[0].orderId != orders[m + 1].orderId;
      }
      InsertKeepsDistinctIds(orders[0], rest);
    }
  }
}

/** The records the assignment engine works on, and the reference semantics
    of a fill round: every truck is tried against every order in a fixed
    order, a compatible pair is committed, and each truck is then reset for
    the next round. */
module Assignment {
  import opened Secure
  import opened VectorFunctions

  /** A truck: its owner, its remaining capacity, the node it stands on, the
      node it is committed to drive to (the dummy node when uncommitted), and
      the scratch distance used by one repositioning step. */
  datatype Truck = Truck(freighterId: int, capacity: int, position: int, destination: int, distToOrder: int)

  /** An order: where it is picked up and delivered, its volume, whether it
      is assigned (processed), whether it was assigned in the current round,
      and the freighter it is assigned to (the dummy freighter until then). */
  datatype Order = Order(origin: int, destination: int, volume: int,
                         processed: int, processThisRound: int, freighterId: int)

  /** The flags of an order are 0/1, and an order not yet processed is neither
      counted in this round nor assigned to any freighter. */
  predicate OrderFlagsValid(o: Order, dummyFreighterId: int) {
    && IsBit(o.processed)
    && IsBit(o.processThisRound)
    && (o.processed == 0 ==> o.processThisRound == 0 && o.freighterId == dummyFreighterId)
  }

  /** The four conditions under which a truck takes an order. */
  predicate Compatible(t: Truck, o: Order, dummyNode: int) {
    && t.position == o.origin
    && (t.destination == dummyNode || t.destination == o.destination)
    && t.capacity - o.volume >= 0
    && o.processed == 0
  }

  /** The compatibility flag, computed without branching as the product of
      four 0/1 conditions. It is itself 0/1 and is 1 exactly when the pair is
      compatible, provided the order's processed flag is 0/1. */
  function CompatibleFlag(t: Truck, o: Order, dummyNode: int): (c: int)
    ensures IsBit(o.processed) ==> IsBit(c) && (c == 1 <==> Compatible(t, o, dummyNode))
  {
    var equalPositions := Eq(t.position, o.origin);
    var destinationsCompatible := RealOr(Eq(t.destination, dummyNode), Eq(t.destination, o.destination));
    var positiveCapacity := Ge(t.capacity - o.volume, 0);
    var orderIsOpen := 1 - o.processed;
    var c := equalPositions * destinationsCompatible * positiveCapacity * orderIsOpen;
    assert IsBit(o.processed) ==> IsBit(c) && (c == 1 <==> Compatible(t, o, dummyNode)) by {
      if IsBit(o.processed) {
        BitProduct(equalPositions, destinationsCompatible);
        BitProduct(equalPositions * destinationsCompatible, positiveCapacity);
        BitProduct(equalPositions * destinationsCompatible * positiveCapacity, orderIsOpen);
      }
    }
    c
  }

  /** Multiplication is AND on 0/1 values. */
  lemma BitProduct(a: int, b: int)
    requires IsBit(a) && IsBit(b)
    ensures IsBit(a * b) && (a * b == 1 <==> a == 1 && b == 1)
  {
  }

  /** Order o became o2 by being taken by truck t: it was open, it is picked
      up where t stands, and it is now processed, counted in this round and
      assigned to t's freighter. */
  predicate Taken(o: Order, o2: Order, t: Truck) {
    && o.processed == 0
    && o.origin == t.position
    && o2 == o.(processed := 1, processThisRound := 1, freighterId := t.freighterId)
  }

  /** Reference semantics of filling a truck with an order: a compatible pair
      commits the truck to the order's destination, loads the order's volume
      and assigns the order to the truck's freighter; any other pair is left
      as it is. */
  function Fill(t: Truck, o: Order, dummyNode: int): (r: (Truck, Order))
    ensures t.capacity >= 0 ==> r.0.capacity >= 0
    ensures o.processed != 0 ==> r == (t, o)
    ensures r.1 == o || Taken(o, r.1, t)
    ensures r.1 != o <==> Compatible(t, o, dummyNode)
    ensures r.1 != o ==> r.0 == t.(destination := o.destination, capacity := t.capacity - o.volume)
    ensures r.1 == o ==> r.0 == t
    ensures r.0.position == t.position && r.0.freighterId == t.freighterId
    ensures r.0.distToOrder == t.distToOrder
  {
    if Compatible(t, o, dummyNode) then
      (t.(destination := o.destination, capacity := t.capacity - o.volume),
       o.(processed := 1, processThisRound := 1, freighterId := t.freighterId))
    else
      (t, o)
  }

  /** Filling the same pair again changes nothing: after a first fill the
      order is either processed or still incompatible. */
  lemma FillIdempotent(t: Truck, o: Order, dummyNode: int)
    ensures var r := Fill(t, o, dummyNode); Fill(r.0, r.1, dummyNode) == r
  {
  }

  /** One truck's pass: the truck is filled with every order in turn, the
      truck state threading from one order to the next. */
  function Pass(t: Truck, os: seq<Order>, dummyNode: int): (r: (Truck, seq<Order>))
    ensures |r.1| == |os|
    ensures r.0.position == t.position && r.0.freighterId == t.freighterId
    ensures r.0.distToOrder == t.distToOrder
    ensures t.capacity >= 0 ==> r.0.capacity >= 0
    ensures forall j :: 0 <= j < |os| ==> r.1[j] == os[j] || Taken(os[j], r.1[j], t)
    decreases |os|
  {
    if |os| == 0 then (t, [])
    else
      var p := Pass(t, os[..|os| - 1], dummyNode);
      var f := Fill(p.0, os[|os| - 1], dummyNode);
      (f.0, p.1 + [f.1])
  }

  /** Within one pass a truck commits to a single destination: every order it
      takes is delivered where the truck ends up committed, an existing
      commitment is kept, and the truck stays uncommitted exactly when it
      takes nothing. Order destinations must differ from the dummy node. */
  lemma {:induction false} PassCommitsOneDestination(t: Truck, os: seq<Order>, dummyNode: int)
    requires forall j :: 0 <= j < |os| ==> os[j].destination != dummyNode
    ensures var r := Pass(t, os, dummyNode);
      && (t.destination != dummyNode ==> r.0.destination == t.destination)
      && (forall j :: 0 <= j < |os| && r.1[j] != os[j] ==> os[j].destination == r.0.destination)
      && (r.0.destination == dummyNode <==> t.destination == dummyNode && r.1 == os)
  {
    if |os| > 0 {
      var front := os[..|os| - 1];
      PassCommitsOneDestination(t, front, dummyNode);
      var p := Pass(t, front, dummyNode);
      var last := os[|os| - 1];
      var f := Fill(p.0, last, dummyNode);
      var r := Pass(t, os, dummyNode);
      assert r == (f.0, p.1 + [f.1]);
      forall j | 0 <= j < |os| && r.1[j] != os[j]
        ensures os[j].destination == r.0.destination
      {
        if j < |os| - 1 {
          assert r.1[j] == p.1[j] && os[j] == front[j];
          assert p.0.destination != dummyNode;
          assert r.0.destination == p.0.destination;
        }
      }
      if r.1 == os {
        assert p.1 == front by {
          forall j | 0 <= j < |front| ensures p.1[j] == front[j] {
            assert r.1[j] == p.1[j];
          }
        }
      }
      if t.destination == dummyNode && p.1 == front && f.1 == last {
        assert r.1 == os;
      }
    }
  }

  /** End of a truck's pass (oblivious form): capacity back to the maximum,
      the truck moved to its committed destination when it has one, and the
      commitment cleared. */
  function ResetTruck(t: Truck, truckCapacity: int, dummyNode: int): (r: Truck)
    ensures r.capacity == truckCapacity && r.destination == dummyNode
    ensures r.position == if t.destination != dummyNode then t.destination else t.position
    ensures r.freighterId == t.freighterId && r.distToOrder == t.distToOrder
  {
    t.(capacity := truckCapacity,
       position := IfElse(1 - Eq(t.destination, dummyNode), t.destination, t.position),
       destination := dummyNode)
  }

  /** A truck that starts its pass uncommitted ends it where it stood if it
      took no order, and otherwise at the destination of every order it took. */
  lemma TruckEndsAtDestinationOfItsOrders(t: Truck, os: seq<Order>, dummyNode: int, truckCapacity: int)
    requires t.destination == dummyNode
    requires forall j :: 0 <= j < |os| ==> os[j].destination != dummyNode
    ensures var p := Pass(t, os, dummyNode);
      var r := ResetTruck(p.0, truckCapacity, dummyNode);
      && (p.1 == os ==> r.position == t.position)
      && (forall j :: 0 <= j < |os| && p.1[j] != os[j] ==> r.position == os[j].destination)
  {
    PassCommitsOneDestination(t, os, dummyNode);
  }

  /** The fill round from truck i on: truck i takes its pass against the
      orders as the earlier trucks left them and is reset right after it, then
      the round goes on with truck i + 1. The whole round is FillFrom(ts, os,
      dummyNode, truckCapacity, 0). */
  function FillFrom(ts: seq<Truck>, os: seq<Order>, dummyNode: int, truckCapacity: int, i: nat): (r: (seq<Truck>, seq<Order>))
    requires i <= |ts|
    ensures |r.0| == |ts| && |r.1| == |os|
    ensures forall k :: 0 <= k < i ==> r.0[k] == ts[k]
    ensures forall k :: i <= k < |ts| ==>
      && r.0[k].capacity == truckCapacity
      && r.0[k].destination == dummyNode
      && r.0[k].freighterId == ts[k].freighterId
    decreases |ts| - i
  {
    if i == |ts| then (ts, os)
    else
      var p := Pass(ts[i], os, dummyNode);
      FillFrom(ts[i := ResetTruck(p.0, truckCapacity, dummyNode)], p.1, dummyNode, truckCapacity, i + 1)
  }

  /** In a fill round every order is either left untouched or taken exactly
      as one of the trucks still to come found it: at that truck's position
      and for that truck's freighter. */
  lemma {:induction false} FillFromTakesOrKeeps(ts: seq<Truck>, os: seq<Order>, dummyNode: int, truckCapacity: int, i: nat, j: nat)
    requires i <= |ts| && j < |os|
    ensures var r := FillFrom(ts, os, dummyNode, truckCapacity, i);
      r.1[j] == os[j] || exists k :: i <= k < |ts| && Taken(os[j], r.1[j], ts[k])
    decreases |ts| - i
  {
    if i < |ts| {
      var p := Pass(ts[i], os, dummyNode);
      var ts' := ts[i := ResetTruck(p.0, truckCapacity, dummyNode)];
      var r := FillFrom(ts', p.1, dummyNode, truckCapacity, i + 1);
      assert FillFrom(ts, os, dummyNode, truckCapacity, i) == r;
      FillFromTakesOrKeeps(ts', p.1, dummyNode, truckCapacity, i + 1, j);
      if p.1[j] == os[j] {
        if r.1[j] != os[j] {
          var k :| i + 1 <= k < |ts| && Taken(p.1[j], r.1[j], ts'[k]);
          assert Taken(os[j], r.1[j], ts[k]);
        }
      } else {
        assert Taken(os[j], p.1[j], ts[i]);
        assert r.1[j] == p.1[j];
      }
    }
  }

  /** A pass over orders that are all processed changes nothing. */
  lemma {:induction false} PassOverProcessed(t: Truck, os: seq<Order>, dummyNode: int)
    requires forall j :: 0 <= j < |os| ==> os[j].processed != 0
    ensures Pass(t, os, dummyNode) == (t, os)
    decreases |os|
  {
    if |os| > 0 {
      var front := os[..|os| - 1];
      PassOverProcessed(t, front, dummyNode);
      assert front + [os[|os| - 1]] == os;
    }
  }

  /** A truck that stands at the origin of the first open order, is
      uncommitted and has room for it takes that order in its pass. */
  lemma {:induction false} PassTakesFirstOpen(t: Truck, os: seq<Order>, dummyNode: int, k: nat)
    requires k < |os| && os[k].processed == 0
    requires forall j :: 0 <= j < k ==> os[j].processed != 0
    requires t.position == os[k].origin && t.destination == dummyNode && os[k].volume <= t.capacity
    ensures Pass(t, os, dummyNode).1[k].processed == 1
    decreases |os|
  {
    var front := os[..|os| - 1];
    if k == |os| - 1 {
      PassOverProcessed(t, front, dummyNode);
      assert Compatible(t, os[k], dummyNode);
    } else {
      PassTakesFirstOpen(t, front, dummyNode, k);
    }
  }

  /** Progress of a fill round: if truck c (not yet past in the round from
      truck i on) stands at the origin of the first open order k, is
      uncommitted and has room for it, order k ends processed, by truck c or
      by an earlier one. */
  lemma {:induction false} FillFromTakesFirstOpen(ts: seq<Truck>, os: seq<Order>, dummyNode: int, truckCapacity: int,
                                                  i: nat, c: nat, k: nat)
    requires i <= c < |ts| && k < |os|
    requires IsBit(os[k].processed)
    requires forall j :: 0 <= j < k ==> os[j].processed != 0
    requires ts[c].position == os[k].origin && ts[c].destination == dummyNode && os[k].volume <= ts[c].capacity
    ensures FillFrom(ts, os, dummyNode, truckCapacity, i).1[k].processed == 1
    decreases |ts| - i
  {
    if os[k].processed == 1 {
      FillFromTakesOrKeeps(ts, os, dummyNode, truckCapacity, i, k);
    } else {
      var p := Pass(ts[i], os, dummyNode);
      var ts' := ts[i := ResetTruck(p.0, truckCapacity, dummyNode)];
      assert FillFrom(ts, os, dummyNode, truckCapacity, i) == FillFrom(ts', p.1, dummyNode, truckCapacity, i + 1);
      if i == c {
        PassTakesFirstOpen(ts[c], os, dummyNode, k);
        if i + 1 < |ts| {
          FillFromTakesOrKeeps(ts', p.1, dummyNode, truckCapacity, i + 1, k);
        }
      } else {
        assert p.1[k] == os[k] || Taken(os[k], p.1[k], ts[i]);
        forall j | 0 <= j < k
          ensures p.1[j].processed != 0
        {
          assert p.1[j] == os[j] || Taken(os[j], p.1[j], ts[i]);
        }
        FillFromTakesFirstOpen(ts', p.1, dummyNode, truckCapacity, i + 1, c, k);
      }
    }
  }

  /** Number of processed orders. */
  function ProcessedCount(os: seq<Order>): int {
    if |os| == 0 then 0 else ProcessedCount(os[..|os| - 1]) + os[|os| - 1].processed
  }

  /** Number of orders assigned in the current round: the sum of the
      process-this-round flags. */
  function RoundCount(os: seq<Order>): int {
    if |os| == 0 then 0 else RoundCount(os[..|os| - 1]) + os[|os| - 1].processThisRound
  }

  /** With 0/1 flags, the processed count lies between 0 and the number of
      orders, reaching it exactly when every order is processed; the round
      count is never negative, and is 0 when no order is flagged. */
  lemma {:induction false} CountBounds(os: seq<Order>)
    requires forall j :: 0 <= j < |os| ==> IsBit(os[j].processed) && IsBit(os[j].processThisRound)
    ensures 0 <= ProcessedCount(os) <= |os|
    ensures ProcessedCount(os) == |os| <==> forall j :: 0 <= j < |os| ==> os[j].processed == 1
    ensures RoundCount(os) >= 0
    ensures (forall j :: 0 <= j < |os| ==> os[j].processThisRound == 0) ==> RoundCount(os) == 0
    ensures (forall j :: 0 <= j < |os| ==> os[j].processed == 0) ==> ProcessedCount(os) == 0
  {
    if |os| > 0 {
      var front := os[..|os| - 1];
      CountBounds(front);
      if ProcessedCount(os) == |os| {
        assert ProcessedCount(front) == |front| && os[|os| - 1].processed == 1;
        forall j | 0 <= j < |os| ensures os[j].processed == 1 {
          if j < |front| { assert front[j] == os[j]; }
        }
      }
      if forall j :: 0 <= j < |os| ==> os[j].processed == 1 {
        assert forall j :: 0 <= j < |front| ==> front[j].processed == 1;
      }
    }
  }

  /** When every order keeps processed minus process-this-round, the
      difference of the two counts is kept too. */
  lemma {:induction false} CountsDifferenceKept(os: seq<Order>, os2: seq<Order>)
    requires |os2| == |os|
    requires forall j :: 0 <= j < |os| ==>
      os2[j].processed - os2[j].processThisRound == os[j].processed - os[j].processThisRound
    ensures ProcessedCount(os2) - RoundCount(os2) == ProcessedCount(os) - RoundCount(os)
  {
    if |os| > 0 {
      CountsDifferenceKept(os[..|os| - 1], os2[..|os2| - 1]);
    }
  }

  /** Raising processed flags never lowers the processed count, and raising
      one strictly raises it. */
  lemma {:induction false} ProcessedCountGrows(os: seq<Order>, os2: seq<Order>, k: int)
    requires |os2| == |os|
    requires forall j :: 0 <= j < |os| ==> os2[j].processed >= os[j].processed
    ensures ProcessedCount(os2) >= ProcessedCount(os)
    ensures 0 <= k < |os| && os2[k].processed > os[k].processed ==> ProcessedCount(os2) > ProcessedCount(os)
  {
    if |os| > 0 {
      ProcessedCountGrows(os[..|os| - 1], os2[..|os2| - 1], k);
    }
  }

  /** The processed count reads only the processed flags. */
  lemma {:induction false} ProcessedCountOfSameFlags(os: seq<Order>, os2: seq<Order>)
    requires |os2| == |os|
    requires forall j :: 0 <= j < |os| ==> os2[j].processed == os[j].processed
    ensures ProcessedCount(os2) == ProcessedCount(os)
  {
    if |os| > 0 {
      ProcessedCountOfSameFlags(os[..|os| - 1], os2[..|os2| - 1]);
    }
  }

  /** What one fill round does to the orders, starting from valid flags with
      nothing counted yet: flags stay valid, the round count is exactly the
      number of newly processed orders, a processed order is never touched
      again, and every newly processed order was taken by one of the trucks
      as it stood at the start of the round. */
  lemma FillRound(ts: seq<Truck>, os: seq<Order>, dummyNode: int, truckCapacity: int, dummyFreighterId: int)
    requires forall j :: 0 <= j < |os| ==> OrderFlagsValid(os[j], dummyFreighterId) && os[j].processThisRound == 0
    ensures var r := FillFrom(ts, os, dummyNode, truckCapacity, 0);
      && (forall j :: 0 <= j < |os| ==> OrderFlagsValid(r.1[j], dummyFreighterId))
      && RoundCount(r.1) == ProcessedCount(r.1) - ProcessedCount(os)
      && (forall j :: 0 <= j < |os| && os[j].processed == 1 ==> r.1[j] == os[j])
      && (forall j :: 0 <= j < |os| && r.1[j] != os[j] ==> exists i :: 0 <= i < |ts| && Taken(os[j], r.1[j], ts[i]))
  {
    var r := FillFrom(ts, os, dummyNode, truckCapacity, 0);
    forall j | 0 <= j < |os|
      ensures r.1[j] == os[j] || exists i :: 0 <= i < |ts| && Taken(os[j], r.1[j], ts[i])
      ensures r.1[j].processed - r.1[j].processThisRound == os[j].processed - os[j].processThisRound
    {
      FillFromTakesOrKeeps(ts, os, dummyNode, truckCapacity, 0, j);
    }
    CountsDifferenceKept(os, r.1);
    CountBounds(os);
  }
}

/** The MUPOL solver: rounds of filling trucks with orders, and, when a round
    assigns nothing, one empty drive that brings the truck closest to the
    first unassigned order to that order's pick-up node. All state lives in
    one MPCSolver object whose lists of trucks, orders and empty drives the
    methods rewrite. */
module Solver {
  import opened Secure
  import opened VectorFunctions
  import opened Assignment

  /** A repositioning drive with no order on board: the freighter of the truck
      that moves, where it was, and the pick-up node it moves to. */
  datatype EmptyDrive = EmptyDrive(freighterId: int, closestPosition: int, firstUnprocessedOrigin: int)

  /** Number of rounds in counts (the revealed per-round counts) that
      assigned nothing. */
  function Stalls(counts: seq<int>): (r: nat)
    ensures r <= |counts|
  {
    if |counts| == 0 then 0
    else Stalls(counts[..|counts| - 1]) + (if counts[|counts| - 1] == 0 then 1 else 0)
  }

  /** Sum of the per-round counts. */
  function Total(counts: seq<int>): int {
    if |counts| == 0 then 0 else Total(counts[..|counts| - 1]) + counts[|counts| - 1]
  }

  /** Index of the first order not yet processed; |os| when all are. */
  function FirstUnprocessed(os: seq<Order>): (k: nat)
    ensures k <= |os|
    ensures k < |os| ==> os[k].processed == 0
    ensures forall j :: 0 <= j < k ==> os[j].processed != 0
  {
    if |os| == 0 then 0
    else if os[0].processed == 0 then 0
    else 1 + FirstUnprocessed(os[1..])
  }

  /** Route cost from node p to node q as the indicator-vector lookup yields
      it: the matrix entry, or 0 when either node is not a map position. */
  function LookupDistance(route: seq<seq<int>>, n: nat, p: int, q: int): int
    requires IsSquare(route, n)
  {
    if 0 <= p < n && 0 <= q < n then route[p][q] else 0
  }

  /** Every truck's route cost to the target node. */
  ghost function Distances(ts: seq<Truck>, route: seq<seq<int>>, n: nat, target: int): seq<int>
    requires IsSquare(route, n)
  {
    seq(|ts|, i requires 0 <= i < |ts| => LookupDistance(route, n, ts[i].position, target))
  }

  /** Some truck of the fleet belongs to freighter f. */
  ghost predicate Owned(ts: seq<Truck>, f: int) {
    exists i :: 0 <= i < |ts| && ts[i].freighterId == f
  }

  /** Trucks and orders between two rounds: no truck is committed and none
      has a negative capacity; every order has valid flags and is not counted
      in a round; numProcessed is the number of processed orders; and every
      processed order is assigned to a freighter of the fleet. */
  ghost predicate Settled(ts: seq<Truck>, os: seq<Order>, numProcessed: int, dummyNode: int, dummyFreighterId: int) {
    && (forall i :: 0 <= i < |ts| ==> ts[i].capacity >= 0 && ts[i].destination == dummyNode)
    && (forall j :: 0 <= j < |os| ==> OrderFlagsValid(os[j], dummyFreighterId) && os[j].processThisRound == 0)
    && numProcessed == ProcessedCount(os)
    && (forall j :: 0 <= j < |os| && os[j].processed == 1 ==> Owned(ts, os[j].freighterId))
  }

  /** FirstUnprocessed reads only the processed flags. */
  lemma {:induction false} FirstUnprocessedOfSameFlags(os: seq<Order>, os2: seq<Order>)
    requires |os2| == |os|
    requires forall j :: 0 <= j < |os| ==> os2[j].processed == os[j].processed
    ensures FirstUnprocessed(os2) == FirstUnprocessed(os)
  {
    if |os| > 0 {
      FirstUnprocessedOfSameFlags(os[1..], os2[1..]);
    }
  }

  /** With valid flags and fewer processed orders than orders, some order is
      still open, so the first unprocessed index is a real index. */
  lemma OpenOrderExists(os: seq<Order>, dummyFreighterId: int)
    requires forall j :: 0 <= j < |os| ==> OrderFlagsValid(os[j], dummyFreighterId)
    requires ProcessedCount(os) < |os|
    ensures FirstUnprocessed(os) < |os|
  {
    CountBounds(os);
  }

  /** A whole round, on values: from settled trucks ts0 and orders os0, a
      fill that leaves each order as it was or taken by one of the trucks of
      ts0 (os1), trucks that are reset and keep their owners (ts2, after any
      repositioning), and the round flags cleared (os3), give settled trucks
      and orders again, with the processed count grown by the number of
      orders the round took. */
  lemma RoundSettles(ts0: seq<Truck>, os0: seq<Order>, numProcessed: int, dummyNode: int, dummyFreighterId: int,
                     truckCapacity: int, os1: seq<Order>, ts2: seq<Truck>, os3: seq<Order>)
    requires Settled(ts0, os0, numProcessed, dummyNode, dummyFreighterId) && truckCapacity >= 0
    requires |os1| == |os0|
    requires forall j :: 0 <= j < |os1| ==> os1[j] == os0[j] || exists i :: 0 <= i < |ts0| && Taken(os0[j], os1[j], ts0[i])
    requires |ts2| == |ts0|
    requires forall i :: 0 <= i < |ts2| ==>
      ts2[i].capacity == truckCapacity && ts2[i].destination == dummyNode && ts2[i].freighterId == ts0[i].freighterId
    requires |os3| == |os1| && forall j :: 0 <= j < |os3| ==> os3[j] == os1[j].(processThisRound := 0)
    ensures Settled(ts2, os3, numProcessed + ProcessedCount(os3) - ProcessedCount(os0), dummyNode, dummyFreighterId)
  {
    forall j | 0 <= j < |os3|
      ensures os3[j].processed == os1[j].processed
      ensures OrderFlagsValid(os3[j], dummyFreighterId) && os3[j].processThisRound == 0
    {
    }
    forall j | 0 <= j < |os3| && os3[j].processed == 1
      ensures Owned(ts2, os3[j].freighterId)
    {
      if os1[j] == os0[j] {
        var i :| 0 <= i < |ts0| && ts0[i].freighterId == os0[j].freighterId;
        assert ts2[i].freighterId == os3[j].freighterId;
      } else {
        var i :| 0 <= i < |ts0| && Taken(os0[j], os1[j], ts0[i]);
        assert ts2[i].freighterId == os3[j].freighterId;
      }
    }
  }

  /** Some order is open, and a truck stands uncommitted at the origin of the
      first open order with room for it. */
  ghost predicate FirstOpenReachable(ts: seq<Truck>, os: seq<Order>, dummyNode: int) {
    var k := FirstUnprocessed(os);
    && k < |os|
    && exists i :: 0 <= i < |ts| && ts[i].position == os[k].origin && ts[i].destination == dummyNode && os[k].volume <= ts[i].capacity
  }

  /** After a repositioning drive: some order is open, exactly one drive was
      appended to drives0, it goes to the origin of the first open order, and
      a truck now stands there. */
  ghost predicate Repositioned(drives0: seq<EmptyDrive>, drives: seq<EmptyDrive>, ts: seq<Truck>, os: seq<Order>) {
    var k := FirstUnprocessed(os);
    && k < |os|
    && |drives| == |drives0| + 1
    && drives[..|drives0|] == drives0
    && drives[|drives0|].firstUnprocessedOrigin == os[k].origin
    && exists i :: 0 <= i < |ts| && ts[i].position == os[k].origin
  }

  /** Repositioned reads only the processed flags and origins of the orders. */
  lemma RepositionedOfSameFlags(drives0: seq<EmptyDrive>, drives: seq<EmptyDrive>, ts: seq<Truck>, os1: seq<Order>, os3: seq<Order>)
    requires Repositioned(drives0, drives, ts, os1)
    requires |os3| == |os1|
    requires forall j :: 0 <= j < |os1| ==> os3[j].processed == os1[j].processed && os3[j].origin == os1[j].origin
    ensures Repositioned(drives0, drives, ts, os3)
  {
    FirstUnprocessedOfSameFlags(os1, os3);
  }

  /** After a repositioning drive with every truck reset to an empty,
      uncommitted truck of the given capacity, the first open order is
      reachable as soon as it fits into such a truck. */
  lemma StallMakesReachable(drives0: seq<EmptyDrive>, drives: seq<EmptyDrive>, ts: seq<Truck>, os: seq<Order>,
                            dummyNode: int, truckCapacity: int)
    requires Repositioned(drives0, drives, ts, os)
    requires forall i :: 0 <= i < |ts| ==> ts[i].capacity == truckCapacity && ts[i].destination == dummyNode
    requires forall j :: 0 <= j < |os| ==> os[j].volume <= truckCapacity
    ensures FirstOpenReachable(ts, os, dummyNode)
  {
    var k := FirstUnprocessed(os);
    var i :| 0 <= i < |ts| && ts[i].position == os[k].origin;
    assert ts[i].destination == dummyNode && os[k].volume <= ts[i].capacity;
  }

  /** A fill round from a state where the first open order is reachable
      assigns at least one order. */
  lemma RoundProgress(ts: seq<Truck>, os: seq<Order>, dummyNode: int, truckCapacity: int, dummyFreighterId: int)
    requires forall j :: 0 <= j < |os| ==> OrderFlagsValid(os[j], dummyFreighterId) && os[j].processThisRound == 0
    requires FirstOpenReachable(ts, os, dummyNode)
    ensures RoundCount(FillFrom(ts, os, dummyNode, truckCapacity, 0).1) > 0
  {
    var k := FirstUnprocessed(os);
    var c :| 0 <= c < |ts| && ts[c].position == os[k].origin && ts[c].destination == dummyNode && os[k].volume <= ts[c].capacity;
    var r := FillFrom(ts, os, dummyNode, truckCapacity, 0);
    FillFromTakesFirstOpen(ts, os, dummyNode, truckCapacity, 0, c, k);
    FillRound(ts, os, dummyNode, truckCapacity, dummyFreighterId);
    forall j | 0 <= j < |os|
      ensures r.1[j].processed >= os[j].processed
    {
      FillFromTakesOrKeeps(ts, os, dummyNode, truckCapacity, 0, j);
    }
    ProcessedCountGrows(os, r.1, k);
  }

  /** Trucks ts and orders os are what the fill round makes of ts0 and os0. */
  ghost predicate IsFillRound(ts0: seq<Truck>, os0: seq<Order>, ts: seq<Truck>, os: seq<Order>, dummyNode: int, truckCapacity: int) {
    (ts, os) == FillFrom(ts0, os0, dummyNode, truckCapacity, 0)
  }

  /** ts is ts0 with at most the positions and the distance scratch fields
      changed. */
  ghost predicate MovedOnly(ts0: seq<Truck>, ts: seq<Truck>) {
    && |ts| == |ts0|
    && forall i :: 0 <= i < |ts| ==> ts[i] == ts0[i].(position := ts[i].position, distToOrder := ts[i].distToOrder)
  }

  /** The repositioning drive from trucks ts0 and drives drives0, for orders
      os: the truck c with the lowest route cost to the first unprocessed
      order's origin (lowest index on ties) gets one drive recorded with its
      freighter and old position, and is the only truck moved, to that origin;
      every truck records its route cost. */
  ghost predicate DroveClosest(ts0: seq<Truck>, os: seq<Order>, drives0: seq<EmptyDrive>,
                               ts: seq<Truck>, drives: seq<EmptyDrive>, route: seq<seq<int>>, n: nat)
    requires IsSquare(route, n) && |ts0| > 0
  {
    var k := FirstUnprocessed(os);
    var origin := if k < |os| then os[k].origin else 0;
    var ds := Distances(ts0, route, n, origin);
    var c := ArgMin(ds);
    && drives == drives0 + [EmptyDrive(ts0[c].freighterId, ts0[c].position, origin)]
    && |ts| == |ts0|
    && forall i :: 0 <= i < |ts| ==>
         ts[i] == ts0[i].(distToOrder := ds[i], position := if i == c then origin else ts0[i].position)
  }

  /** The exact outcome of one round from trucks ts0, orders os0 and drives
      drives0: the fill round gives filledTrucks and filledOrders; the orders
      then only have their round flags cleared; the trucks and drives stay as
      they were after the fill unless the round assigned nothing, in which
      case the repositioning drive DroveClosest follows the fill. */
  ghost predicate RoundOutcome(ts0: seq<Truck>, os0: seq<Order>, drives0: seq<EmptyDrive>,
                               filledTrucks: seq<Truck>, filledOrders: seq<Order>,
                               ts: seq<Truck>, os: seq<Order>, drives: seq<EmptyDrive>, numAddedOrders: int,
                               dummyNode: int, truckCapacity: int, route: seq<seq<int>>, n: nat) {
    && IsFillRound(ts0, os0, filledTrucks, filledOrders, dummyNode, truckCapacity)
    && |os| == |filledOrders|
    && (forall j :: 0 <= j < |os| ==> os[j] == filledOrders[j].(processThisRound := 0))
    && (numAddedOrders != 0 ==> ts == filledTrucks && drives == drives0)
    && (numAddedOrders == 0 ==> MovedOnly(filledTrucks, ts))
    && (numAddedOrders == 0 && IsSquare(route, n) && |filledTrucks| > 0 ==>
          DroveClosest(filledTrucks, filledOrders, drives0, ts, drives, route, n))
  }

  /** Orders keep their origin, destination and volume. */
  ghost predicate SameJobs(os0: seq<Order>, os1: seq<Order>) {
    && |os1| == |os0|
    && forall j :: 0 <= j < |os0| ==>
         os1[j].origin == os0[j].origin && os1[j].destination == os0[j].destination && os1[j].volume == os0[j].volume
  }

  /** Keeping the jobs is transitive. */
  lemma SameJobsTransitive(os0: seq<Order>, os1: seq<Order>, os2: seq<Order>)
    requires SameJobs(os0, os1) && SameJobs(os1, os2)
    ensures SameJobs(os0, os2)
  {
  }

  /** Orders processed in os0 are the same in os3. */
  ghost predicate KeepsProcessed(os0: seq<Order>, os3: seq<Order>) {
    |os3| == |os0| && forall j :: 0 <= j < |os0| && os0[j].processed == 1 ==> os3[j] == os0[j]
  }

  /** Every order processed in os3 but not in os0 was picked up where one of
      the trucks ts0 stood, and is assigned to that truck's freighter. */
  ghost predicate TakenByFleet(ts0: seq<Truck>, os0: seq<Order>, os3: seq<Order>)
    requires |os3| == |os0|
  {
    forall j :: 0 <= j < |os0| && os0[j].processed == 0 && os3[j].processed == 1 ==>
      exists i :: 0 <= i < |ts0| && ts0[i].position == os0[j].origin && ts0[i].freighterId == os3[j].freighterId
  }

  /** What a round does to the orders, on values: with os1 as in
      RoundSettles and the round flags then cleared (os3), every order
      processed before is untouched, and each newly processed order was
      picked up where one of the trucks stood at the start of the round, for
      that truck's freighter; no order's route or volume changes. */
  lemma RoundTakes(ts0: seq<Truck>, os0: seq<Order>, dummyFreighterId: int, os1: seq<Order>, os3: seq<Order>)
    requires forall j :: 0 <= j < |os0| ==> OrderFlagsValid(os0[j], dummyFreighterId) && os0[j].processThisRound == 0
    requires |os1| == |os0|
    requires forall j :: 0 <= j < |os1| ==> os1[j] == os0[j] || exists i :: 0 <= i < |ts0| && Taken(os0[j], os1[j], ts0[i])
    requires |os3| == |os1| && forall j :: 0 <= j < |os3| ==> os3[j] == os1[j].(processThisRound := 0)
    ensures KeepsProcessed(os0, os3)
    ensures TakenByFleet(ts0, os0, os3)
    ensures SameJobs(os0, os3)
  {
    forall j | 0 <= j < |os0| && os0[j].processed == 0 && os3[j].processed == 1
      ensures exists i :: 0 <= i < |ts0| && ts0[i].position == os0[j].origin && ts0[i].freighterId == os3[j].freighterId
    {
      assert os1[j] != os0[j];
      var i :| 0 <= i < |ts0| && Taken(os0[j], os1[j], ts0[i]);
      assert ts0[i].position == os0[j].origin && ts0[i].freighterId == os3[j].freighterId;
    }
  }

  class MPCSolver {
    var trucks: seq<Truck>
    var orders: seq<Order>
    var emptyDrives: seq<EmptyDrive>
    var numProcessedOrders: int
    const dummyFreighterId: int
    const dummyNode: int
    const truckCapacity: int
    /** Number of map positions; nodes are 0 .. numPositions - 1. */
    const numPositions: nat
    /** The map's route-cost matrix. */
    const routeMatrix: seq<seq<int>>

    /** The state between two rounds: at least one order, a square route
        matrix, a non-negative truck capacity, and settled trucks and orders. */
    ghost predicate BetweenRounds()
      reads this
    {
      && |orders| > 0
      && IsSquare(routeMatrix, numPositions)
      && truckCapacity >= 0
      && Settled(trucks, orders, numProcessedOrders, dummyNode, dummyFreighterId)
    }

    /** A solver over uploaded trucks and orders, which start uncommitted,
        unprocessed and unassigned. */
    constructor (trucks0: seq<Truck>, orders0: seq<Order>, dummyFreighterId: int, dummyNode: int,
                 truckCapacity: int, numPositions: nat, routeMatrix: seq<seq<int>>)
      requires |orders0| > 0
      requires truckCapacity >= 0
      requires IsSquare(routeMatrix, numPositions)
      requires forall i :: 0 <= i < |trucks0| ==> trucks0[i].capacity >= 0 && trucks0[i].destination == dummyNode
      requires forall j :: 0 <= j < |orders0| ==>
        orders0[j].processed == 0 && orders0[j].processThisRound == 0 && orders0[j].freighterId == dummyFreighterId
      ensures BetweenRounds()
      ensures trucks == trucks0 && orders == orders0 && emptyDrives == [] && numProcessedOrders == 0
      ensures this.dummyFreighterId == dummyFreighterId && this.dummyNode == dummyNode
      ensures this.truckCapacity == truckCapacity
      ensures this.numPositions == numPositions && this.routeMatrix == routeMatrix
    {
      trucks := trucks0;
      orders := orders0;
      emptyDrives := [];
      numProcessedOrders := 0;
      this.dummyFreighterId := dummyFreighterId;
      this.dummyNode := dummyNode;
      this.truckCapacity := truckCapacity;
      this.numPositions := numPositions;
      this.routeMatrix := routeMatrix;
      new;
      CountBounds(orders);
    }

    /** Try truck ti against order oi: compute the compatibility flag, then
        update the truck and the order unconditionally through arithmetic
        selects. The result is the reference Fill. */
    method FillTruckWithOrder(ti: nat, oi: nat)
      requires ti < |trucks| && oi < |orders|
      requires IsBit(orders[oi].processed)
      modifies this`trucks, this`orders
      ensures var r := Fill(old(trucks[ti]), old(orders[oi]), dummyNode);
        trucks == old(trucks)[ti := r.0] && orders == old(orders)[oi := r.1]
    {
      var truck, order := trucks[ti], orders[oi];
      var compatible := CompatibleFlag(truck, order, dummyNode);
      truck := truck.(destination := IfElse(compatible, order.destination, truck.destination));
      order := order.(processed := RealOr(compatible, order.processed));
      order := order.(processThisRound := RealOr(compatible, order.processThisRound));
      order := order.(freighterId := IfElse(compatible, truck.freighterId, order.freighterId));
      truck := truck.(capacity := truck.capacity - order.volume * compatible);
      trucks := trucks[ti := truck];
      orders := orders[oi := order];
    }

    /** The inner loop of the fill round: truck ti against every order in
        turn. */
    method FillTruckWithOrders(ti: nat)
      requires ti < |trucks|
      requires forall k :: 0 <= k < |orders| ==> IsBit(orders[k].processed)
      modifies this`trucks, this`orders
      ensures var p := Pass(old(trucks[ti]), old(orders), dummyNode);
        trucks == old(trucks)[ti := p.0] && orders == p.1
    {
      ghost var t0, os0 := trucks[ti], orders;
      for j := 0 to |orders|
        invariant |orders| == |os0|
        invariant trucks == old(trucks)[ti := Pass(t0, os0[..j], dummyNode).0]
        invariant orders[..j] == Pass(t0, os0[..j], dummyNode).1
        invariant orders[j..] == os0[j..]
      {
        assert orders[j] == os0[j];
        FillTruckWithOrder(ti, j);
        assert os0[..j + 1][..j] == os0[..j];
        assert orders[..j + 1] == orders[..j] + [orders[j]];
      }
      assert orders[..|orders|] == orders && os0[..|os0|] == os0;
    }

    /** One fill round: each truck in turn against every order, then reset.
        The loop keeps the rest of the round, FillFrom from truck i on, equal
        to the whole round from the initial state. */
    method FillTrucks()
      requires forall k :: 0 <= k < |orders| ==> IsBit(orders[k].processed)
      modifies this`trucks, this`orders
      ensures trucks == FillFrom(old(trucks), old(orders), dummyNode, truckCapacity, 0).0
      ensures orders == FillFrom(old(trucks), old(orders), dummyNode, truckCapacity, 0).1
    {
      ghost var ts0, os0 := trucks, orders;
      for i := 0 to |trucks|
        invariant |trucks| == |ts0|
        invariant FillFrom(trucks, orders, dummyNode, truckCapacity, i) == FillFrom(ts0, os0, dummyNode, truckCapacity, 0)
        invariant forall k :: 0 <= k < |orders| ==> IsBit(orders[k].processed)
      {
        ghost var ts, os := trucks, orders;
        FillTruckWithOrders(i);
        trucks := trucks[i := ResetTruck(trucks[i], truckCapacity, dummyNode)];
        assert trucks == ts[i := ResetTruck(Pass(ts[i], os, dummyNode).0, truckCapacity, dummyNode)];
        forall k | 0 <= k < |orders|
          ensures IsBit(orders[k].processed)
        {
          assert orders[k] == os[k] || Taken(os[k], orders[k], ts[i]);
        }
      }
    }

    /** The pick-up node of the first order not yet processed (0 when every
        order is processed), and its indicator vector over the map positions. */
    method LocateFirstUnprocessedOrigin() returns (firstUnprocessedOrigin: int, firstUnprocessedOriginVec: seq<int>)
      requires |orders| > 0
      requires forall j :: 0 <= j < |orders| ==> IsBit(orders[j].processed)
      ensures var k := FirstUnprocessed(orders);
        firstUnprocessedOrigin == if k < |orders| then orders[k].origin else 0
      ensures |firstUnprocessedOriginVec| == numPositions
      ensures IsIndicator(firstUnprocessedOriginVec, firstUnprocessedOrigin)
    {
      var os := orders;
      var unprocessedIndexes := seq(|os|, j requires 0 <= j < |os| => 1 - os[j].processed);
      var firstUnprocessedIndex := FindFirstNonZero(unprocessedIndexes);
      var origins := seq(|os|, j requires 0 <= j < |os| => os[j].origin);
      firstUnprocessedOrigin := Dot(origins, firstUnprocessedIndex);
      firstUnprocessedOriginVec := ComputeIndicatorVector(numPositions, firstUnprocessedOrigin);

      ghost var k := FirstUnprocessed(orders);
      assert IsBits(unprocessedIndexes);
      if k < |orders| {
        assert AllZero(unprocessedIndexes[..k]);
        FirstNonZeroMaskAt(unprocessedIndexes, k);
        DotIndicator(origins, firstUnprocessedIndex, k);
      } else {
        assert AllZero(unprocessedIndexes);
        FirstNonZeroMaskZeroIff(unprocessedIndexes);
        assert IsIndicator(firstUnprocessedIndex, |orders|);
        DotIndicator(origins, firstUnprocessedIndex, |orders|);
      }
    }

    /** Truck ti's route cost to the node whose indicator vector is given,
        read obliviously as positionVec . (routeMatrix . nodeVec). */
    method FindTruckDistToOrder(ti: nat, nodeIndicatorVector: seq<int>, ghost target: int)
      requires IsSquare(routeMatrix, numPositions)
      requires ti < |trucks|
      requires |nodeIndicatorVector| == numPositions && IsIndicator(nodeIndicatorVector, target)
      modifies this`trucks
      ensures trucks == old(trucks)[ti := old(trucks[ti]).(distToOrder :=
        LookupDistance(routeMatrix, numPositions, old(trucks[ti]).position, target))]
    {
      var truckPositionVec := ComputeIndicatorVector(numPositions, trucks[ti].position);
      var dist := Dot(truckPositionVec, MatVec(routeMatrix, nodeIndicatorVector));
      LookupByIndicators(routeMatrix, numPositions, truckPositionVec, trucks[ti].position, nodeIndicatorVector, target);
      trucks := trucks[ti := trucks[ti].(distToOrder := dist)];
    }

    /** Every truck's route cost to the target node. */
    method FindDistancesToOrder(nodeIndicatorVector: seq<int>, ghost target: int)
      requires IsSquare(routeMatrix, numPositions)
      requires |nodeIndicatorVector| == numPositions && IsIndicator(nodeIndicatorVector, target)
      modifies this`trucks
      ensures |trucks| == |old(trucks)|
      ensures forall i :: 0 <= i < |trucks| ==> trucks[i] == old(trucks[i]).(distToOrder :=
        LookupDistance(routeMatrix, numPositions, old(trucks[i]).position, target))
    {
      for i := 0 to |trucks|
        invariant |trucks| == |old(trucks)|
        invariant forall k :: 0 <= k < i ==> trucks[k] == old(trucks[k]).(distToOrder :=
          LookupDistance(routeMatrix, numPositions, old(trucks[k]).position, target))
        invariant forall k :: i <= k < |trucks| ==> trucks[k] == old(trucks[k])
      {
        FindTruckDistToOrder(i, nodeIndicatorVector, target);
      }
    }

    /** Position of the truck at a secret index, by a select chain over all
        trucks; the dummy node when the index matches no truck. */
    method FindTruckPosition(truckIndex: int) returns (position: int)
      ensures position == if 0 <= truckIndex < |trucks| then trucks[truckIndex].position else dummyNode
    {
      position := dummyNode;
      for otherTruckIndex := 0 to |trucks|
        invariant position == if 0 <= truckIndex < otherTruckIndex then trucks[truckIndex].position else dummyNode
      {
        position := IfElse(Eq(otherTruckIndex, truckIndex), trucks[otherTruckIndex].position, position);
      }
    }

    /** Freighter of the truck at a secret index, by a select chain over all
        trucks; the dummy freighter when the index matches no truck. */
    method FindFreighterId(truckIndex: int) returns (freighterId: int)
      ensures freighterId == if 0 <= truckIndex < |trucks| then trucks[truckIndex].freighterId else dummyFreighterId
    {
      freighterId := dummyFreighterId;
      for otherTruckIndex := 0 to |trucks|
        invariant freighterId == if 0 <= truckIndex < otherTruckIndex then trucks[truckIndex].freighterId else dummyFreighterId
      {
        freighterId := IfElse(Eq(otherTruckIndex, truckIndex), trucks[otherTruckIndex].freighterId, freighterId);
      }
    }

    /** Move the truck at a secret index to the given node by rewriting every
        truck's position through a select; only that truck changes. */
    method MoveTruck(truckIndex: int, destination: int)
      modifies this`trucks
      ensures |trucks| == |old(trucks)|
      ensures forall i :: 0 <= i < |trucks| ==>
        trucks[i] == if i == truckIndex then old(trucks[i]).(position := destination) else old(trucks[i])
    {
      for otherTruckIndex := 0 to |trucks|
        invariant |trucks| == |old(trucks)|
        invariant forall i :: 0 <= i < otherTruckIndex ==>
          trucks[i] == if i == truckIndex then old(trucks[i]).(position := destination) else old(trucks[i])
        invariant forall i :: otherTruckIndex <= i < |trucks| ==> trucks[i] == old(trucks[i])
      {
        var truck := trucks[otherTruckIndex];
        trucks := trucks[otherTruckIndex := truck.(position :=
          IfElse(Eq(otherTruckIndex, truckIndex), destination, truck.position))];
      }
    }

    /** The repositioning step: find the first unprocessed order's pick-up
        node, every truck's distance to it, the closest truck (lowest index on
        ties); record an empty drive for that truck and move it there. */
    method CreateEmptyTruckDrive()
      requires IsSquare(routeMatrix, numPositions)
      requires |orders| > 0 && |trucks| > 0
      requires forall j :: 0 <= j < |orders| ==> IsBit(orders[j].processed)
      modifies this`trucks, this`emptyDrives
      ensures DroveClosest(old(trucks), orders, old(emptyDrives), trucks, emptyDrives, routeMatrix, numPositions)
      ensures FirstUnprocessed(orders) < |orders| ==> Repositioned(old(emptyDrives), emptyDrives, trucks, orders)
      ensures MovedOnly(old(trucks), trucks)
      ensures forall i :: 0 <= i < |trucks| ==>
        && trucks[i].capacity == old(trucks[i]).capacity
        && trucks[i].destination == old(trucks[i]).destination
        && trucks[i].freighterId == old(trucks[i]).freighterId
    {
      var firstUnprocessedOrigin, firstUnprocessedOriginVec := LocateFirstUnprocessedOrigin();
      FindDistancesToOrder(firstUnprocessedOriginVec, firstUnprocessedOrigin);
      var ts := trucks;
      var dists := seq(|ts|, i requires 0 <= i < |ts| => ts[i].distToOrder);
      assert dists == Distances(old(trucks), routeMatrix, numPositions, firstUnprocessedOrigin);
      var closestTruckIndex := ArgMin(dists);
      var closestPosition := FindTruckPosition(closestTruckIndex);
      var freighterId := FindFreighterId(closestTruckIndex);
      emptyDrives := emptyDrives + [EmptyDrive(freighterId, closestPosition, firstUnprocessedOrigin)];
      MoveTruck(closestTruckIndex, firstUnprocessedOrigin);
      assert trucks[closestTruckIndex].position == firstUnprocessedOrigin;
    }

    /** Clear every order's process-this-round flag; nothing else changes. */
    method ClearRoundFlags()
      modifies this`orders
      ensures |orders| == |old(orders)|
      ensures forall j :: 0 <= j < |orders| ==> orders[j] == old(orders[j]).(processThisRound := 0)
    {
      for j := 0 to |orders|
        invariant |orders| == |old(orders)|
        invariant forall k :: 0 <= k < j ==> orders[k] == old(orders[k]).(processThisRound := 0)
        invariant forall k :: j <= k < |orders| ==> orders[k] == old(orders[k])
      {
        orders := orders[j := orders[j].(processThisRound := 0)];
      }
    }

    /** The first half of a round: fill the trucks, then sum the orders' round
        flags, the number the solver reveals. Every truck ends reset, and
        every order is left as it was or taken by one of the trucks as they
        stood before the fill; the number is the growth of the processed
        count. */
    method FillAndCount() returns (numAddedOrders: int)
      requires forall j :: 0 <= j < |orders| ==> OrderFlagsValid(orders[j], dummyFreighterId) && orders[j].processThisRound == 0
      modifies this`trucks, this`orders
      ensures IsFillRound(old(trucks), old(orders), trucks, orders, dummyNode, truckCapacity)
      ensures numAddedOrders == RoundCount(orders)
      ensures numAddedOrders >= 0 && numAddedOrders == ProcessedCount(orders) - old(ProcessedCount(orders))
      ensures |trucks| == |old(trucks)| && |orders| == |old(orders)|
      ensures forall i :: 0 <= i < |trucks| ==>
        trucks[i].capacity == truckCapacity && trucks[i].destination == dummyNode && trucks[i].freighterId == old(trucks[i]).freighterId
      ensures forall j :: 0 <= j < |orders| ==> OrderFlagsValid(orders[j], dummyFreighterId)
      ensures forall j :: 0 <= j < |orders| ==>
        orders[j] == old(orders[j]) || exists i :: 0 <= i < |old(trucks)| && Taken(old(orders[j]), orders[j], old(trucks)[i])
      ensures old(FirstOpenReachable(trucks, orders, dummyNode)) ==> numAddedOrders > 0
    {
      ghost var ts0, os0 := trucks, orders;
      FillTrucks();
      FillRound(ts0, os0, dummyNode, truckCapacity, dummyFreighterId);
      if FirstOpenReachable(ts0, os0, dummyNode) {
        RoundProgress(ts0, os0, dummyNode, truckCapacity, dummyFreighterId);
      }
      CountBounds(orders);
      numAddedOrders := RoundCount(orders);
    }

    /** The second half of a round, after the count is revealed: reposition
        one truck when the round assigned nothing, clear the round flags and
        add the count to the processed counter. */
    method FinishRound(numAddedOrders: int)
      requires IsSquare(routeMatrix, numPositions)
      requires |orders| > 0 && |trucks| > 0
      requires forall j :: 0 <= j < |orders| ==> OrderFlagsValid(orders[j], dummyFreighterId)
      requires numAddedOrders == 0 ==> ProcessedCount(orders) < |orders|
      modifies this`trucks, this`orders, this`emptyDrives, this`numProcessedOrders
      ensures numProcessedOrders == old(numProcessedOrders) + numAddedOrders
      ensures |orders| == |old(orders)| && forall j :: 0 <= j < |orders| ==> orders[j] == old(orders[j]).(processThisRound := 0)
      ensures numAddedOrders != 0 ==> trucks == old(trucks) && emptyDrives == old(emptyDrives)
      ensures numAddedOrders == 0 ==> MovedOnly(old(trucks), trucks) && Repositioned(old(emptyDrives), emptyDrives, trucks, orders)
      ensures numAddedOrders == 0 ==>
        DroveClosest(old(trucks), old(orders), old(emptyDrives), trucks, emptyDrives, routeMatrix, numPositions)
    {
      ghost var os1, drives0 := orders, emptyDrives;
      if numAddedOrders == 0 {
        OpenOrderExists(os1, dummyFreighterId);
        CreateEmptyTruckDrive();
      }
      ClearRoundFlags();
      if numAddedOrders == 0 {
        RepositionedOfSameFlags(drives0, emptyDrives, trucks, os1, orders);
      }
      numProcessedOrders := numProcessedOrders + numAddedOrders;
    }

    /** One round of the solver loop: fill, reveal how many orders this round
        assigned, reposition one truck when that number is 0, clear the round
        flags and add the number to the processed counter. Runs only while
        some order is unprocessed. */
    method SolveRound() returns (numAddedOrders: int, ghost filledTrucks: seq<Truck>, ghost filledOrders: seq<Order>)
      requires BetweenRounds() && |trucks| > 0
      requires numProcessedOrders < |orders|
      modifies this`trucks, this`orders, this`emptyDrives, this`numProcessedOrders
      ensures BetweenRounds()
      ensures RoundOutcome(old(trucks), old(orders), old(emptyDrives), filledTrucks, filledOrders, trucks, orders, emptyDrives,
                           numAddedOrders, dummyNode, truckCapacity, routeMatrix, numPositions)
      ensures |trucks| == |old(trucks)| && |orders| == |old(orders)|
      ensures forall i :: 0 <= i < |trucks| ==>
        trucks[i].capacity == truckCapacity && trucks[i].freighterId == old(trucks[i]).freighterId
      ensures numAddedOrders >= 0
      ensures numAddedOrders == ProcessedCount(orders) - old(ProcessedCount(orders))
      ensures numProcessedOrders == old(numProcessedOrders) + numAddedOrders
      ensures KeepsProcessed(old(orders), orders)
      ensures TakenByFleet(old(trucks), old(orders), orders)
      ensures SameJobs(old(orders), orders)
      ensures old(FirstOpenReachable(trucks, orders, dummyNode)) ==> numAddedOrders > 0
      ensures numAddedOrders != 0 ==> emptyDrives == old(emptyDrives)
      ensures numAddedOrders == 0 ==> Repositioned(old(emptyDrives), emptyDrives, trucks, orders)
    {
      ghost var ts0, os0, drives0 := trucks, orders, emptyDrives;
      ghost var n0 := numProcessedOrders;
      numAddedOrders := FillAndCount();
      filledTrucks, filledOrders := trucks, orders;
      FinishRound(numAddedOrders);
      ProcessedCountOfSameFlags(filledOrders, orders);
      RoundSettles(ts0, os0, n0, dummyNode, dummyFreighterId, truckCapacity, filledOrders, trucks, orders);
      RoundTakes(ts0, os0, dummyFreighterId, filledOrders, orders);
    }

    /** One round as the solver loop sees it: SolveRound, with only the facts
        the loop carries from one round to the next. */
    method RunRound() returns (numAddedOrders: int)
      requires BetweenRounds() && |trucks| > 0
      requires numProcessedOrders < |orders|
      modifies this`trucks, this`orders, this`emptyDrives, this`numProcessedOrders
      ensures BetweenRounds() && |trucks| > 0
      ensures numAddedOrders >= 0
      ensures numProcessedOrders == old(numProcessedOrders) + numAddedOrders
      ensures SameJobs(old(orders), orders)
      ensures old(FirstOpenReachable(trucks, orders, dummyNode)) ==> numAddedOrders > 0
      ensures numAddedOrders != 0 ==> emptyDrives == old(emptyDrives)
      ensures numAddedOrders == 0 ==> Repositioned(old(emptyDrives), emptyDrives, trucks, orders)
      ensures forall i :: 0 <= i < |trucks| ==> trucks[i].capacity == truckCapacity
    {
      ghost var filledTrucks, filledOrders;
      numAddedOrders, filledTrucks, filledOrders := SolveRound();
    }

    /** The solver loop, run for at most maxRounds rounds: it stops once every
        order is processed. When every order fits into an empty truck, each
        round either assigns an order or repositions a truck so that the next
        round assigns one, so 2 * (number of open orders) rounds suffice. */
    method SolveProblem(maxRounds: nat) returns (rounds: nat, ghost counts: seq<int>)
      requires BetweenRounds() && |trucks| > 0
      modifies this`trucks, this`orders, this`emptyDrives, this`numProcessedOrders
      ensures BetweenRounds()
      ensures rounds == |counts| <= maxRounds
      ensures forall r :: 0 <= r < |counts| ==> counts[r] >= 0
      ensures numProcessedOrders == old(numProcessedOrders) + Total(counts)
      ensures |emptyDrives| == |old(emptyDrives)| + Stalls(counts)
      ensures numProcessedOrders == |orders| || rounds == maxRounds
      ensures numProcessedOrders == |orders| ==>
        forall j :: 0 <= j < |orders| ==> orders[j].processed == 1 && Owned(trucks, orders[j].freighterId)
      ensures
        && (forall j :: 0 <= j < |old(orders)| ==> old(orders)[j].volume <= truckCapacity)
        && maxRounds >= 2 * (|old(orders)| - old(numProcessedOrders))
        ==> numProcessedOrders == |orders|
    {
      ghost var fits := forall j :: 0 <= j < |orders| ==> orders[j].volume <= truckCapacity;
      ghost var open0 := |orders| - numProcessedOrders;
      ghost var reachable := false;
      rounds, counts := 0, [];
      CountBounds(orders);
      while numProcessedOrders < |orders| && rounds < maxRounds
        invariant BetweenRounds() && |trucks| > 0
        invariant rounds == |counts| <= maxRounds
        invariant forall r :: 0 <= r < |counts| ==> counts[r] >= 0
        invariant numProcessedOrders == old(numProcessedOrders) + Total(counts)
        invariant |emptyDrives| == |old(emptyDrives)| + Stalls(counts)
        invariant numProcessedOrders <= |orders|
        invariant SameJobs(old(orders), orders)
        invariant fits ==> reachable ==> FirstOpenReachable(trucks, orders, dummyNode)
        invariant fits ==> rounds + 2 * (|orders| - numProcessedOrders) <= 2 * open0 + (if reachable then 1 else 0)
        decreases maxRounds - rounds
      {
        ghost var drives0, os0 := emptyDrives, orders;
        var numAddedOrders := RunRound();
        SameJobsTransitive(old(orders), os0, orders);
        if numAddedOrders == 0 && fits {
          StallMakesReachable(drives0, emptyDrives, trucks, orders, dummyNode, truckCapacity);
        }
        assert (counts + [numAddedOrders])[..|counts|] == counts;
        counts := counts + [numAddedOrders];
        reachable := numAddedOrders == 0;
        rounds := rounds + 1;
        CountBounds(orders);
      }
      CountBounds(orders);
    }

  }
}

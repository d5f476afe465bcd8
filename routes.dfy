/** The routing table of the mesh layer (winc_mesh.c) as values: the
    eight route slots together with route_count, the update rule of
    mesh_update_route, the minimum-hop lookup of mesh_find_route, the
    timeout sweep of winc_mesh_process and the neighbour list a beacon
    advertises. The imperative versions in WincMesh are proved against
    these functions. */
module Routes {
  import opened WincHeader

  /** routes[] and route_count. */
  datatype Table = Table(slots: seq<Route>, count: nat)

  /** The table invariant the mesh keeps: eight slots, route_count at most
      eight, no active slot at or past route_count, at most one active slot
      per node, and every active route at least one hop long. */
  predicate TableOk(t: Table) {
    |t.slots| == MaxNodes && t.count <= MaxNodes &&
    (forall i :: t.count <= i < MaxNodes ==> !t.slots[i].active) &&
    (forall i, j :: 0 <= i < j < MaxNodes && t.slots[i].active && t.slots[j].active ==>
                      t.slots[i].nodeId != t.slots[j].nodeId) &&
    (forall i :: 0 <= i < MaxNodes && t.slots[i].active ==> t.slots[i].hopCount >= 1)
  }

  /** The zero-filled table winc_mesh_init starts from. */
  const EmptyTable: Table := Table(seq(MaxNodes, _ => EmptyRoute), 0)

  lemma {:induction false} EmptyTableOk()
    ensures TableOk(EmptyTable)
    ensures forall i :: 0 <= i < MaxNodes ==> !EmptyTable.slots[i].active
  {
  }

  // ------------------------------------------------------ mesh_update_route

  /** The slot of the active route to `node`, or -1. */
  function ExistingSlot(s: seq<Route>, node: Byte, from: nat): (r: int)
    requires from <= |s|
    decreases |s| - from
    ensures r == -1 || from <= r < |s|
    ensures r >= 0 ==> s[r].active && s[r].nodeId == node
    ensures r >= 0 ==> forall i :: from <= i < r ==> !(s[i].active && s[i].nodeId == node)
    ensures r == -1 ==> forall i :: from <= i < |s| ==> !(s[i].active && s[i].nodeId == node)
  {
    if from == |s| then -1
    else if s[from].active && s[from].nodeId == node then from
    else ExistingSlot(s, node, from + 1)
  }

  /** The first inactive slot, or -1. */
  function FirstInactive(s: seq<Route>, from: nat): (r: int)
    requires from <= |s|
    decreases |s| - from
    ensures r == -1 || from <= r < |s|
    ensures r >= 0 ==> !s[r].active && forall i :: from <= i < r ==> s[i].active
    ensures r == -1 ==> forall i :: from <= i < |s| ==> s[i].active
  {
    if from == |s| then -1
    else if !s[from].active then from
    else FirstInactive(s, from + 1)
  }

  /** mesh_update_route: refresh the active route to `node` when the new
      hop count is no worse, else take the first inactive slot and grow
      route_count to cover it, else change nothing. */
  function Update(t: Table, node: Byte, nextHop: Byte, hops: Byte, now: U32): Table
    requires |t.slots| == MaxNodes
  {
    var e := ExistingSlot(t.slots, node, 0);
    var f := FirstInactive(t.slots, 0);
    if e >= 0 then
      if hops <= t.slots[e].hopCount
      then t.(slots := t.slots[e := t.slots[e].(nextHop := nextHop, hopCount := hops, lastSeen := now)])
      else t
    else if f >= 0 then
      Table(t.slots[f := Route(node, nextHop, hops, now, true)], if f >= t.count then f + 1 else t.count)
    else t
  }

  /** An update keeps the table invariant and never shrinks route_count. */
  lemma {:induction false} UpdateKeepsTableOk(t: Table, node: Byte, nextHop: Byte, hops: Byte, now: U32)
    requires TableOk(t) && hops >= 1
    ensures TableOk(Update(t, node, nextHop, hops, now))
    ensures t.count <= Update(t, node, nextHop, hops, now).count <= MaxNodes
  {
    var e := ExistingSlot(t.slots, node, 0);
    if e >= 0 && hops <= t.slots[e].hopCount {
      UpdateRefreshes(t, node, nextHop, hops, now);
    } else if e < 0 && FirstInactive(t.slots, 0) >= 0 {
      UpdateInserts(t, node, nextHop, hops, now);
    } else {
      UpdateKeeps(t, node, nextHop, hops, now);
    }
  }

  lemma {:induction false} UpdateRefreshes(t: Table, node: Byte, nextHop: Byte, hops: Byte, now: U32)
    requires TableOk(t) && hops >= 1
    requires ExistingSlot(t.slots, node, 0) >= 0 && hops <= t.slots[ExistingSlot(t.slots, node, 0)].hopCount
    ensures TableOk(Update(t, node, nextHop, hops, now)) && Update(t, node, nextHop, hops, now).count == t.count
  {
    var e := ExistingSlot(t.slots, node, 0);
    var r := t.slots[e].(nextHop := nextHop, hopCount := hops, lastSeen := now);
    RefreshOk(t, e, r);
    assert Update(t, node, nextHop, hops, now) == t.(slots := t.slots[e := r]);
  }

  lemma {:induction false} UpdateInserts(t: Table, node: Byte, nextHop: Byte, hops: Byte, now: U32)
    requires TableOk(t) && hops >= 1
    requires ExistingSlot(t.slots, node, 0) < 0 && FirstInactive(t.slots, 0) >= 0
    ensures TableOk(Update(t, node, nextHop, hops, now)) && Update(t, node, nextHop, hops, now).count >= t.count
  {
    var f := FirstInactive(t.slots, 0);
    InsertOk(t, f, Route(node, nextHop, hops, now, true));
  }

  lemma {:induction false} UpdateKeeps(t: Table, node: Byte, nextHop: Byte, hops: Byte, now: U32)
    requires TableOk(t)
    requires !(ExistingSlot(t.slots, node, 0) >= 0 && hops <= t.slots[ExistingSlot(t.slots, node, 0)].hopCount)
    requires !(ExistingSlot(t.slots, node, 0) < 0 && FirstInactive(t.slots, 0) >= 0)
    ensures Update(t, node, nextHop, hops, now) == t
  {
  }

  /** Rewriting an active slot without changing its node or activity keeps
      the invariant. */
  lemma {:induction false} RefreshOk(t: Table, e: int, r: Route)
    requires TableOk(t) && 0 <= e < MaxNodes && t.slots[e].active
    requires r.active && r.nodeId == t.slots[e].nodeId && r.hopCount >= 1
    ensures TableOk(t.(slots := t.slots[e := r]))
  {
  }

  /** Filling an inactive slot with a route to a node that has no active
      route, and covering it by route_count, keeps the invariant. */
  lemma {:induction false} InsertOk(t: Table, f: int, r: Route)
    requires TableOk(t) && 0 <= f < MaxNodes && !t.slots[f].active && r.hopCount >= 1
    requires forall i :: 0 <= i < MaxNodes && t.slots[i].active ==> t.slots[i].nodeId != r.nodeId
    ensures TableOk(Table(t.slots[f := r], if f >= t.count then f + 1 else t.count))
  {
  }

  /** The outcome for the updated node: an existing route is overwritten
      exactly when the new hop count is at most the stored one (so an equal
      count still moves the next hop); a node without a route gets the first
      inactive slot; with every slot active and none for this node nothing
      changes. */
  lemma {:induction false} UpdateOutcome(t: Table, node: Byte, nextHop: Byte, hops: Byte, now: U32)
    requires TableOk(t)
    ensures var u := Update(t, node, nextHop, hops, now);
            var e := ExistingSlot(t.slots, node, 0);
            var f := FirstInactive(t.slots, 0);
            (e >= 0 && hops <= t.slots[e].hopCount ==>
               u.slots[e] == Route(node, nextHop, hops, now, true) && u.count == t.count) &&
            (e >= 0 && hops > t.slots[e].hopCount ==> u == t) &&
            (e < 0 && f >= 0 ==> u.slots[f] == Route(node, nextHop, hops, now, true) &&
                                 u.count == (if f < t.count then t.count else f + 1)) &&
            (e < 0 && f < 0 ==> u == t)
  {
  }

  /** An update touches no slot but the node's route or, when it has
      none, the first inactive slot. */
  lemma {:induction false} UpdateTouchesOneSlot(t: Table, node: Byte, nextHop: Byte, hops: Byte, now: U32, i: int)
    requires |t.slots| == MaxNodes && 0 <= i < MaxNodes
    requires Update(t, node, nextHop, hops, now).slots[i] != t.slots[i]
    ensures i == (if ExistingSlot(t.slots, node, 0) >= 0 then ExistingSlot(t.slots, node, 0)
                  else FirstInactive(t.slots, 0))
  {
  }

  /** Active routes to other nodes are left exactly as they were. */
  lemma {:induction false} UpdateKeepsOtherRoutes(t: Table, node: Byte, nextHop: Byte, hops: Byte, now: U32, i: int)
    requires TableOk(t) && 0 <= i < MaxNodes && t.slots[i].active && t.slots[i].nodeId != node
    ensures Update(t, node, nextHop, hops, now).slots[i] == t.slots[i]
  {
  }

  /** After an update there is an active route to the node unless the
      table was full of routes to other nodes. */
  lemma {:induction false} UpdateMakesRoute(t: Table, node: Byte, nextHop: Byte, hops: Byte, now: U32)
    requires TableOk(t)
    requires ExistingSlot(t.slots, node, 0) >= 0 || FirstInactive(t.slots, 0) >= 0
    ensures ExistingSlot(Update(t, node, nextHop, hops, now).slots, node, 0) >= 0
  {
    var u := Update(t, node, nextHop, hops, now);
    var e := ExistingSlot(t.slots, node, 0);
    var k := if e >= 0 then e else FirstInactive(t.slots, 0);
    assert u.slots[k].active && u.slots[k].nodeId == node;
  }

  // ------------------------------------------------------- mesh_find_route

  /** A slot the lookup may pick for `dst`: a live, active route to it
      whose hop count is below the 255 the search starts from. */
  predicate Candidate(t: Table, dst: Byte, i: int)
    requires |t.slots| == MaxNodes && t.count <= MaxNodes
  {
    0 <= i < t.count && t.slots[i].active && t.slots[i].nodeId == dst && t.slots[i].hopCount < 255
  }

  /** The slot mesh_find_route settles on after scanning the first `n`
      slots, or -1: a later candidate replaces the current one only with a
      strictly smaller hop count. */
  function BestSlot(t: Table, dst: Byte, n: nat): (b: int)
    requires |t.slots| == MaxNodes && t.count <= MaxNodes && n <= t.count
    ensures b == -1 || (0 <= b < n && Candidate(t, dst, b))
  {
    if n == 0 then -1
    else
      var b := BestSlot(t, dst, n - 1);
      var minHops := if b < 0 then 255 else t.slots[b].hopCount;
      if Candidate(t, dst, n - 1) && t.slots[n - 1].hopCount < minHops then n - 1 else b
  }

  /** One step of the lookup loop, in the terms the loop tests. */
  lemma {:induction false} BestSlotNext(t: Table, dst: Byte, n: nat, minHops: Byte)
    requires |t.slots| == MaxNodes && t.count <= MaxNodes && n < t.count
    requires minHops == (if BestSlot(t, dst, n) < 0 then 255 else t.slots[BestSlot(t, dst, n)].hopCount)
    ensures BestSlot(t, dst, n + 1) ==
              if t.slots[n].active && t.slots[n].nodeId == dst && t.slots[n].hopCount < minHops
              then n else BestSlot(t, dst, n)
  {
  }

  /** mesh_find_route's result: the next hop of the chosen slot, or -1. */
  function NextHop(t: Table, dst: Byte): (r: int)
    requires |t.slots| == MaxNodes && t.count <= MaxNodes
    ensures -1 <= r < 256
  {
    var b := BestSlot(t, dst, t.count);
    if b < 0 then -1 else t.slots[b].nextHop as int
  }

  /** A route's hop count as a number. */
  function Hops(r: Route): (h: int)
    ensures 0 <= h < 256
  {
    r.hopCount as int
  }

  /** `b` is the first candidate with the least hop count among the first
      `n` slots, or -1 when there is no candidate there. */
  predicate FirstMinimum(t: Table, dst: Byte, n: nat, b: int)
    requires |t.slots| == MaxNodes && t.count <= MaxNodes && n <= t.count
  {
    -1 <= b < n &&
    (b == -1 <==> forall i :: 0 <= i < n ==> !Candidate(t, dst, i)) &&
    (b >= 0 ==> Candidate(t, dst, b)) &&
    (b >= 0 ==> forall i :: 0 <= i < n && Candidate(t, dst, i) ==> Hops(t.slots[b]) <= Hops(t.slots[i])) &&
    (b >= 0 ==> forall i :: 0 <= i < b && Candidate(t, dst, i) ==> Hops(t.slots[b]) < Hops(t.slots[i]))
  }

  /** The lookup picks the first candidate with the least hop count among
      the first `n` slots, and finds nothing exactly when there is no
      candidate; so a route of 255 hops is never used. */
  lemma {:induction false} BestSlotIsFirstMinimum(t: Table, dst: Byte, n: nat)
    requires |t.slots| == MaxNodes && t.count <= MaxNodes && n <= t.count
    ensures FirstMinimum(t, dst, n, BestSlot(t, dst, n))
  {
    if n > 0 {
      BestSlotIsFirstMinimum(t, dst, n - 1);
      BestSlotStep(t, dst, n, BestSlot(t, dst, n - 1));
    }
  }

  lemma {:induction false} BestSlotStep(t: Table, dst: Byte, n: nat, b: int)
    requires |t.slots| == MaxNodes && t.count <= MaxNodes && 0 < n <= t.count
    requires b == BestSlot(t, dst, n - 1) && FirstMinimum(t, dst, n - 1, b)
    ensures FirstMinimum(t, dst, n, BestSlot(t, dst, n))
  {
    var minHops := if b < 0 then 255 else t.slots[b].hopCount;
    HopsOrder(t.slots[n - 1].hopCount, minHops);
    if Candidate(t, dst, n - 1) && t.slots[n - 1].hopCount < minHops {
      assert BestSlot(t, dst, n) == n - 1;
      TakesNewSlot(t, dst, n, b);
    } else {
      assert BestSlot(t, dst, n) == b;
      KeepsOldSlot(t, dst, n, b);
    }
  }

  lemma {:induction false} HopsOrder(a: Byte, b: Byte)
    ensures a < b <==> (a as int) < (b as int)
  {
  }

  lemma {:induction false} TakesNewSlot(t: Table, dst: Byte, n: nat, b: int)
    requires |t.slots| == MaxNodes && t.count <= MaxNodes && 0 < n <= t.count && FirstMinimum(t, dst, n - 1, b)
    requires Candidate(t, dst, n - 1) && Hops(t.slots[n - 1]) < (if b < 0 then 255 else Hops(t.slots[b]))
    ensures FirstMinimum(t, dst, n, n - 1)
  {
  }

  lemma {:induction false} KeepsOldSlot(t: Table, dst: Byte, n: nat, b: int)
    requires |t.slots| == MaxNodes && t.count <= MaxNodes && 0 < n <= t.count && FirstMinimum(t, dst, n - 1, b)
    requires !(Candidate(t, dst, n - 1) && Hops(t.slots[n - 1]) < (if b < 0 then 255 else Hops(t.slots[b])))
    ensures FirstMinimum(t, dst, n, b)
  {
  }

  /** With at most one active route per node, the lookup returns the next
      hop of that route whenever it is live and shorter than 255 hops. */
  lemma {:induction false} NextHopOfOnlyRoute(t: Table, dst: Byte, i: int)
    requires TableOk(t) && Candidate(t, dst, i)
    ensures NextHop(t, dst) == t.slots[i].nextHop as int
  {
    BestSlotIsFirstMinimum(t, dst, t.count);
  }

  /** Without an active route to `dst` the lookup fails. */
  lemma {:induction false} NoRouteNoHop(t: Table, dst: Byte)
    requires TableOk(t) && ExistingSlot(t.slots, dst, 0) < 0
    ensures NextHop(t, dst) == -1
  {
    BestSlotIsFirstMinimum(t, dst, t.count);
  }

  // -------------------------------------------------------------- the sweep

  /** Whether a route has gone unheard for longer than the timeout; the
      subtraction wraps like the source's uint32_t. */
  predicate Expired(r: Route, now: U32) {
    now - r.lastSeen > RouteTimeoutMs
  }

  /** The timeout sweep of winc_mesh_process over the first `n` slots. */
  function Sweep(s: seq<Route>, n: nat, now: U32): (r: seq<Route>)
    requires n <= |s|
    ensures |r| == |s|
  {
    seq(|s|, i requires 0 <= i < |s| =>
      if i < n && s[i].active && Expired(s[i], now) then s[i].(active := false) else s[i])
  }

  /** One step of the sweep loop. */
  lemma {:induction false} SweepStep(s: seq<Route>, n: nat, now: U32)
    requires n < |s|
    ensures Sweep(s, n, now)[n] == s[n]
    ensures Sweep(s, n + 1, now) ==
              Sweep(s, n, now)[n := if s[n].active && Expired(s[n], now) then s[n].(active := false) else s[n]]
  {
  }

  /** The sweep deactivates exactly the expired active routes below
      route_count, changes nothing else, reactivates nothing, and keeps the
      table invariant. */
  lemma {:induction false} SweepDeactivatesExpired(t: Table, now: U32)
    requires TableOk(t)
    ensures var u := Table(Sweep(t.slots, t.count, now), t.count);
            TableOk(u) &&
            (forall i :: 0 <= i < MaxNodes ==>
               (u.slots[i].active <==> t.slots[i].active && !Expired(t.slots[i], now)) &&
               u.slots[i].(active := t.slots[i].active) == t.slots[i])
  {
  }

  // ----------------------------------------------------------- the beacon

  /** The node ids of the active one-hop routes among the first `n`
      slots, in table order. */
  function DirectNeighbors(s: seq<Route>, n: nat): (r: seq<Byte>)
    requires n <= |s|
    ensures |r| <= n
  {
    if n == 0 then []
    else DirectNeighbors(s, n - 1) + (if s[n - 1].active && s[n - 1].hopCount == 1 then [s[n - 1].nodeId] else [])
  }

  /** A node is advertised exactly when it has an active one-hop route. */
  lemma {:induction false} DirectNeighborsMembers(s: seq<Route>, n: nat, node: Byte)
    requires n <= |s|
    ensures node in DirectNeighbors(s, n) <==>
            exists i :: 0 <= i < n && s[i].active && s[i].hopCount == 1 && s[i].nodeId == node
  {
    if n > 0 {
      DirectNeighborsMembers(s, n - 1, node);
      assert s[n - 1].active && s[n - 1].hopCount == 1 && s[n - 1].nodeId == node ==>
             exists i :: 0 <= i < n && s[i].active && s[i].hopCount == 1 && s[i].nodeId == node;
    }
  }

  /** Under the table invariant no node is advertised twice. */
  lemma {:induction false} DirectNeighborsDistinct(t: Table, n: nat)
    requires TableOk(t) && n <= MaxNodes
    ensures forall a, b :: 0 <= a < b < |DirectNeighbors(t.slots, n)| ==>
              DirectNeighbors(t.slots, n)[a] != DirectNeighbors(t.slots, n)[b]
  {
    if n > 0 {
      DirectNeighborsDistinct(t, n - 1);
      var p := DirectNeighbors(t.slots, n - 1);
      var r := t.slots[n - 1];
      if r.active && r.hopCount == 1 {
        if r.nodeId in p {
          DirectNeighborsMembers(t.slots, n - 1, r.nodeId);
        }
        assert DirectNeighbors(t.slots, n) == p + [r.nodeId];
      }
    }
  }

  /** The table after a beacon's route updates: a one-hop route to the
      sender, then a two-hop route through the sender to each listed
      neighbour that is not this node. */
  function ApplyBeacon(t: Table, myId: Byte, sender: Byte, neighbors: seq<Byte>, now: U32): Table
    requires |t.slots| == MaxNodes
  {
    ApplyNeighbors(Update(t, sender, sender, 1, now), myId, sender, neighbors, now)
  }

  function ApplyNeighbors(t: Table, myId: Byte, sender: Byte, neighbors: seq<Byte>, now: U32): (u: Table)
    requires |t.slots| == MaxNodes
    ensures |u.slots| == MaxNodes
  {
    if neighbors == [] then t
    else
      var v := ApplyNeighbors(t, myId, sender, neighbors[..|neighbors| - 1], now);
      var n := neighbors[|neighbors| - 1];
      if n == myId then v else Update(v, n, sender, 2, now)
  }

  /** Two-hop updates keep the table invariant. */
  lemma {:induction false} ApplyNeighborsOk(t: Table, myId: Byte, sender: Byte, neighbors: seq<Byte>, now: U32)
    requires TableOk(t)
    ensures TableOk(ApplyNeighbors(t, myId, sender, neighbors, now))
    ensures t.count <= ApplyNeighbors(t, myId, sender, neighbors, now).count
  {
    if neighbors != [] {
      ApplyNeighborsOk(t, myId, sender, neighbors[..|neighbors| - 1], now);
      var v := ApplyNeighbors(t, myId, sender, neighbors[..|neighbors| - 1], now);
      UpdateKeepsTableOk(v, neighbors[|neighbors| - 1], sender, 2, now);
    }
  }

  /** Two-hop updates never disturb a one-hop route. */
  lemma {:induction false} ApplyNeighborsKeepsDirect(t: Table, myId: Byte, sender: Byte, neighbors: seq<Byte>, now: U32, i: int)
    requires TableOk(t) && 0 <= i < MaxNodes && t.slots[i].active && t.slots[i].hopCount == 1
    ensures ApplyNeighbors(t, myId, sender, neighbors, now).slots[i] == t.slots[i]
  {
    if neighbors != [] {
      var rest := neighbors[..|neighbors| - 1];
      ApplyNeighborsKeepsDirect(t, myId, sender, rest, now, i);
      ApplyNeighborsOk(t, myId, sender, rest, now);
      var v := ApplyNeighbors(t, myId, sender, rest, now);
      var n := neighbors[|neighbors| - 1];
      if n != myId && v.slots[i].nodeId != n {
        UpdateKeepsOtherRoutes(v, n, sender, 2, now, i);
      }
    }
  }

  /** A beacon keeps the table invariant, and leaves a one-hop route to its
      sender through the sender, stamped now, unless the table was full of
      routes to other nodes. */
  lemma {:induction false} BeaconRoutesSender(t: Table, myId: Byte, sender: Byte, neighbors: seq<Byte>, now: U32)
    requires TableOk(t)
    ensures TableOk(ApplyBeacon(t, myId, sender, neighbors, now))
    ensures ExistingSlot(t.slots, sender, 0) >= 0 || FirstInactive(t.slots, 0) >= 0 ==>
              exists i :: 0 <= i < MaxNodes &&
                ApplyBeacon(t, myId, sender, neighbors, now).slots[i] == Route(sender, sender, 1, now, true)
  {
    var u := Update(t, sender, sender, 1, now);
    UpdateKeepsTableOk(t, sender, sender, 1, now);
    ApplyNeighborsOk(u, myId, sender, neighbors, now);
    if ExistingSlot(t.slots, sender, 0) >= 0 || FirstInactive(t.slots, 0) >= 0 {
      UpdateOutcome(t, sender, sender, 1, now);
      var e := ExistingSlot(t.slots, sender, 0);
      var k := if e >= 0 then e else FirstInactive(t.slots, 0);
      assert u.slots[k] == Route(sender, sender, 1, now, true);
      ApplyNeighborsKeepsDirect(u, myId, sender, neighbors, now, k);
    }
  }

  // ------------------------------------------------------------ node count

  /** The number of active slots among the first `n`. */
  function ActiveCount(s: seq<Route>, n: nat): (c: nat)
    requires n <= |s|
    ensures c <= n
  {
    if n == 0 then 0 else ActiveCount(s, n - 1) + (if s[n - 1].active then 1 else 0)
  }

  /** Under the table invariant the slots below route_count hold every
      active route, one per node. */
  lemma {:induction false} ActiveCountCountsAll(t: Table)
    requires TableOk(t)
    ensures ActiveCount(t.slots, t.count) == ActiveCount(t.slots, MaxNodes) <= MaxNodes
  {
    ActiveTail(t, MaxNodes);
  }

  lemma {:induction false} ActiveTail(t: Table, n: nat)
    requires TableOk(t) && t.count <= n <= MaxNodes
    ensures ActiveCount(t.slots, n) == ActiveCount(t.slots, t.count)
  {
    if n > t.count {
      ActiveTail(t, n - 1);
    }
  }
}

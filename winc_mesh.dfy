/** The mesh layer of winc_mesh.c on the driver context: the in-place
    routing-table update and lookup, the beacon a node broadcasts and the
    routes a received beacon yields, data packets and their hop-limited
    forwarding, the receive dispatcher and the periodic process step. Each
    method is proved against the table functions of Routes and the packet
    functions below. */
module WincMesh {
  import opened WincHeader
  import opened Routes
  import opened WincLib

  /** The handler winc_mesh_init registers for the mesh socket. */
  const MeshHandler: Handler := HandlerFn(0)

  /** mesh_route_packet drops a packet whose hop count has reached
      MESH_MSG_ROUTE_RESP, which the source uses as its hop limit. */
  const MaxHops: Byte := MsgRouteResp

  /** The stack buffer mesh_packet_handler reads a datagram into. */
  const RxBufSize: nat := 1600

  /** The routing-table invariant of Routes, kept on the context. */
  ghost predicate MeshOk(ctx: Context)
    reads ctx, ctx.routes
  {
    ctx.Valid() && TableOk(ctx.RouteTable())
  }

  /** `n` zero bytes, as memset leaves them. */
  function Zeros(n: nat): (r: seq<Byte>)
    ensures |r| == n && forall i :: 0 <= i < n ==> r[i] == 0
  {
    seq(n, _ => 0)
  }

  // ------------------------------------------------------ mesh_update_route

  /** mesh_update_route: one scan for the active route to `node` and the
      first inactive slot, then the refresh or the insertion. */
  method UpdateRoute(ctx: Context, node: Byte, nextHop: Byte, hops: Byte, now: U32)
    requires ctx.Valid()
    modifies ctx.routes, ctx`routeCount
    ensures ctx.Valid()
    ensures ctx.RouteTable() == Update(old(ctx.RouteTable()), node, nextHop, hops, now)
  {
    var existing, freeSlot := ScanSlots(ctx, node);
    if existing >= 0 {
      if hops <= ctx.routes[existing].hopCount {
        ctx.routes[existing] := ctx.routes[existing].(nextHop := nextHop, hopCount := hops, lastSeen := now);
      }
    } else if freeSlot >= 0 {
      ctx.routes[freeSlot] := Route(node, nextHop, hops, now, true);
      if freeSlot >= ctx.routeCount {
        ctx.routeCount := freeSlot + 1;
      }
    }
  }

  /** The loop of mesh_update_route: it stops at the active route to
      `node`; until then it remembers the first inactive slot. */
  method ScanSlots(ctx: Context, node: Byte) returns (existing: int, freeSlot: int)
    requires ctx.Valid()
    ensures existing == ExistingSlot(ctx.routes[..], node, 0)
    ensures existing < 0 ==> freeSlot == FirstInactive(ctx.routes[..], 0)
  {
    existing, freeSlot := -1, -1;
    var i := 0;
    while i < MaxNodes
      invariant 0 <= i <= MaxNodes && -1 <= freeSlot < i
      invariant forall j :: 0 <= j < i ==> !(ctx.routes[j].active && ctx.routes[j].nodeId == node)
      invariant freeSlot == -1 ==> forall j :: 0 <= j < i ==> ctx.routes[j].active
      invariant freeSlot >= 0 ==> freeSlot == FirstInactive(ctx.routes[..], 0)
    {
      if ctx.routes[i].active && ctx.routes[i].nodeId == node {
        existing := i;
        break;
      }
      if !ctx.routes[i].active && freeSlot < 0 {
        freeSlot := i;
      }
      i := i + 1;
    }
  }

  // -------------------------------------------------------- mesh_find_route

  /** mesh_find_route: the next hop of the first active route to `dst`
      with the least hop count below route_count, or -1 when there is none. */
  method FindRoute(ctx: Context, dst: Byte) returns (r: int)
    requires ctx.Valid()
    ensures r == NextHop(ctx.RouteTable(), dst)
    ensures r == -1 <==> forall i :: 0 <= i < ctx.routeCount ==> !Candidate(ctx.RouteTable(), dst, i)
  {
    var best := ScanBest(ctx, dst);
    r := if best >= 0 then ctx.routes[best].nextHop as int else -1;
    BestSlotIsFirstMinimum(ctx.RouteTable(), dst, ctx.routeCount);
  }

  /** The loop of mesh_find_route: a later route replaces the current best
      only with a strictly smaller hop count, starting from 255. */
  method ScanBest(ctx: Context, dst: Byte) returns (best: int)
    requires ctx.Valid()
    ensures best == BestSlot(ctx.RouteTable(), dst, ctx.routeCount)
  {
    best := -1;
    var minHops: Byte := 255;
    var i := 0;
    while i < ctx.routeCount
      invariant 0 <= i <= ctx.routeCount
      invariant best == BestSlot(ctx.RouteTable(), dst, i)
      invariant minHops == if best < 0 then 255 else ctx.RouteTable().slots[best].hopCount
    {
      best, minHops := ScanBestStep(ctx, dst, i, best, minHops);
      i := i + 1;
    }
  }

  /** One pass of the mesh_find_route loop, at slot `i`. */
  method ScanBestStep(ctx: Context, dst: Byte, i: nat, best: int, minHops: Byte) returns (best': int, minHops': Byte)
    requires ctx.Valid() && i < ctx.routeCount
    requires best == BestSlot(ctx.RouteTable(), dst, i)
    requires minHops == if best < 0 then 255 else ctx.RouteTable().slots[best].hopCount
    ensures best' == BestSlot(ctx.RouteTable(), dst, i + 1)
    ensures minHops' == if best' < 0 then 255 else ctx.RouteTable().slots[best'].hopCount
  {
    ghost var t := ctx.RouteTable();
    BestSlotNext(t, dst, i, minHops);
    best', minHops' := best, minHops;
    if ctx.routes[i].active && ctx.routes[i].nodeId == dst && ctx.routes[i].hopCount < minHops {
      best' := i;
      minHops' := ctx.routes[i].hopCount;
    }
  }

  // -------------------------------------------------------- mesh_send_beacon

  /** The beacon mesh_send_beacon builds on a zeroed struct: a broadcast
      BEACON header with the payload length of the beacon body, the node's
      id and copied name, and the advertised neighbours followed by zeros. */
  function BeaconOf(myId: Byte, seqNum: U16, name: seq<Byte>, neighbors: seq<Byte>): (b: Beacon)
    requires |neighbors| <= MaxNodes
    ensures WellSized(b)
  {
    Beacon(MeshHdr(MsgBeacon, myId, Broadcast, 0, seqNum, (BeaconSize - MeshHdrSize) as U16),
           myId, StrnCopy(name), neighbors + Zeros(MaxNodes - |neighbors|), |neighbors| as Byte)
  }

  /** The checks mesh_send_beacon makes before building a beacon. */
  predicate CanBeacon(ctx: Context)
    reads ctx, ctx.sockets
    requires ctx.Valid()
  {
    ctx.meshEnabled && ctx.udpSocket >= 0 && ctx.sockets[ctx.udpSocket].state == StateBound
  }

  /** A sendto of `data` on the mesh socket. */
  function MeshSendto(ctx: Context, data: seq<Byte>): Event
    reads ctx, ctx.sockets
    requires ctx.Valid() && ctx.udpSocket >= 0
  {
    Sent(SendtoMsg(ctx.udpSocket as Byte, ctx.sockets[ctx.udpSocket], data))
  }

  /** put_sock_sendto on the mesh socket. */
  method SendOnMeshSocket(ctx: Context, data: seq<Byte>) returns (ok: bool)
    requires ctx.Valid() && ctx.udpSocket >= 0
    modifies ctx.link
    ensures ctx.link.out == old(ctx.link.out) + [MeshSendto(ctx, data)]
  {
    ByteOfInt(ctx.udpSocket);
    ok := ctx.PutSockSendto(ctx.udpSocket as Byte, data);
  }

  /** What mesh_send_beacon sends: nothing when a check fails, otherwise
      one beacon listing the active one-hop routes in table order. */
  function BeaconEvents(ctx: Context): seq<Event>
    reads ctx, ctx.sockets, ctx.routes
    requires ctx.Valid()
  {
    if CanBeacon(ctx)
    then [MeshSendto(ctx, EncodeBeacon(BeaconOf(ctx.myNodeId, ctx.seqNum, ctx.myName,
                                                DirectNeighbors(ctx.routes[..], ctx.routeCount))))]
    else []
  }

  /** mesh_send_beacon: checks that the mesh is enabled and its socket
      BOUND, then consumes one sequence number and sends the beacon. */
  method SendBeacon(ctx: Context) returns (ok: bool)
    requires ctx.Valid()
    modifies ctx`seqNum, ctx.link
    ensures ctx.Valid()
    ensures ctx.link.out == old(ctx.link.out) + old(BeaconEvents(ctx))
    ensures ctx.seqNum == if CanBeacon(ctx) then old(ctx.seqNum) + 1 else old(ctx.seqNum)
    ensures ok ==> CanBeacon(ctx)
  {
    if !ctx.meshEnabled {
      return false;
    }
    if ctx.udpSocket < 0 {
      return false;
    }
    if ctx.sockets[ctx.udpSocket].state != StateBound {
      return false;
    }
    var beacon := BuildBeacon(ctx);
    ctx.seqNum := ctx.seqNum + 1;
    ok := SendOnMeshSocket(ctx, beacon);
  }

  /** The beacon of mesh_send_beacon, with the current sequence number. */
  method BuildBeacon(ctx: Context) returns (bytes: seq<Byte>)
    requires ctx.Valid()
    ensures bytes == EncodeBeacon(BeaconOf(ctx.myNodeId, ctx.seqNum, ctx.myName,
                                           DirectNeighbors(ctx.routes[..], ctx.routeCount)))
  {
    var hdr := MeshHdr(MsgBeacon, ctx.myNodeId, Broadcast, 0, ctx.seqNum, (BeaconSize - MeshHdrSize) as U16);
    var neighbors, count := CollectNeighbors(ctx);
    ByteOfInt(count);
    bytes := EncodeBeacon(Beacon(hdr, ctx.myNodeId, StrnCopy(ctx.myName), neighbors, count as Byte));
  }

  /** The neighbour loop of mesh_send_beacon: the node ids of the active
      one-hop routes below route_count go into the zeroed neighbour array;
      the bound of eight entries never cuts the list short. */
  method CollectNeighbors(ctx: Context) returns (neighbors: seq<Byte>, count: nat)
    requires ctx.Valid()
    ensures count == |DirectNeighbors(ctx.routes[..], ctx.routeCount)| <= MaxNodes
    ensures neighbors == DirectNeighbors(ctx.routes[..], ctx.routeCount) + Zeros(MaxNodes - count)
  {
    ghost var s := ctx.routes[..];
    neighbors, count := Zeros(MaxNodes), 0;
    var i := 0;
    while i < ctx.routeCount && count < MaxNodes
      invariant 0 <= i <= ctx.routeCount
      invariant count == |DirectNeighbors(s, i)| <= i
      invariant neighbors == DirectNeighbors(s, i) + Zeros(MaxNodes - count)
    {
      if ctx.routes[i].active && ctx.routes[i].hopCount == 1 {
        PushNeighbor(DirectNeighbors(s, i), ctx.routes[i].nodeId);
        neighbors := neighbors[count := ctx.routes[i].nodeId];
        count := count + 1;
      }
      i := i + 1;
    }
  }

  lemma {:induction false} PushNeighbor(d: seq<Byte>, x: Byte)
    requires |d| < MaxNodes
    ensures (d + Zeros(MaxNodes - |d|))[|d| := x] == d + [x] + Zeros(MaxNodes - |d| - 1)
  {
  }

  // ------------------------------------------------------ mesh_handle_beacon

  /** mesh_handle_beacon: a one-hop route to the sender through itself,
      then a two-hop route through the sender to every listed neighbour
      other than this node, in list order. */
  method HandleBeacon(ctx: Context, sender: Byte, neighbors: seq<Byte>, now: U32)
    requires ctx.Valid()
    modifies ctx.routes, ctx`routeCount
    ensures ctx.Valid()
    ensures ctx.RouteTable() == ApplyBeacon(old(ctx.RouteTable()), ctx.myNodeId, sender, neighbors, now)
    ensures TableOk(old(ctx.RouteTable())) ==> TableOk(ctx.RouteTable())
  {
    UpdateRoute(ctx, sender, sender, 1, now);
    ghost var t1 := ctx.RouteTable();
    var i := 0;
    while i < |neighbors|
      invariant 0 <= i <= |neighbors| && ctx.Valid()
      invariant ctx.RouteTable() == ApplyNeighbors(t1, ctx.myNodeId, sender, neighbors[..i], now)
    {
      var neighbor := neighbors[i];
      assert neighbors[..i + 1][..i] == neighbors[..i];
      if neighbor != ctx.myNodeId {
        UpdateRoute(ctx, neighbor, sender, 2, now);
      }
      i := i + 1;
    }
    assert neighbors[..|neighbors|] == neighbors;
    if TableOk(old(ctx.RouteTable())) {
      BeaconRoutesSender(old(ctx.RouteTable()), ctx.myNodeId, sender, neighbors, now);
    }
  }

  // ------------------------------------------------------------ data packets

  /** The packet winc_mesh_send builds: a DATA header from this node with
      hop count 0, the next sequence number and the payload length, then
      the payload. */
  function DataPacket(src: Byte, dst: Byte, seqNum: U16, data: seq<Byte>, len: U16): (p: seq<Byte>)
    requires |data| == len as int
    ensures |p| == MeshHdrSize + |data| && p[MeshHdrSize..MeshHdrSize + |data|] == data
  {
    EncodeHdr(MeshHdr(MsgData, src, dst, 0, seqNum, len)) + data
  }

  /** winc_mesh_send: refuses when the mesh is disabled, its socket
      invalid or no route to `dst` is known, without consuming a sequence
      number; otherwise sends one DATA packet on the mesh socket. */
  method MeshSend(ctx: Context, dst: Byte, data: seq<Byte>, len: U16) returns (ok: bool)
    requires ctx.Valid() && |data| == len as int
    modifies ctx`seqNum, ctx.link
    ensures ctx.Valid()
    ensures var go := ctx.meshEnabled && ctx.udpSocket >= 0 && NextHop(ctx.RouteTable(), dst) >= 0;
            (!go ==> !ok && ctx.seqNum == old(ctx.seqNum) && ctx.link.out == old(ctx.link.out)) &&
            (go ==> ctx.seqNum == old(ctx.seqNum) + 1 &&
                    ctx.link.out == old(ctx.link.out) + [MeshSendto(ctx, DataPacket(ctx.myNodeId, dst, old(ctx.seqNum), data, len))])
  {
    if !ctx.meshEnabled {
      return false;
    }
    if ctx.udpSocket < 0 {
      return false;
    }
    var nextHop := FindRoute(ctx, dst);
    if nextHop < 0 {
      return false;
    }
    var hdr := MeshHdr(MsgData, ctx.myNodeId, dst, 0, ctx.seqNum, len);
    ctx.seqNum := ctx.seqNum + 1;
    ok := SendOnMeshSocket(ctx, EncodeHdr(hdr) + data);
  }

  // ------------------------------------------------------- mesh_route_packet

  /** What mesh_route_packet decides for a packet. */
  datatype Forwarding = ForMe | HopLimit | Unroutable | Forward(hdr: MeshHdr)

  /** A packet for this node is delivered; one that has made MaxHops hops,
      or whose destination has no route, is dropped; any other goes out
      again with its hop count one higher and every other field kept. The
      next hop found only decides whether the packet goes out: it is sent
      on the mesh socket like every other packet. */
  function RelayOf(t: Table, myId: Byte, h: MeshHdr): Forwarding
    requires |t.slots| == MaxNodes && t.count <= MaxNodes
  {
    if h.dst == myId then ForMe
    else if h.hopCount >= MaxHops then HopLimit
    else if NextHop(t, h.dst) < 0 then Unroutable
    else Forward(h.(hopCount := h.hopCount + 1))
  }

  /** The data callback's upcall, when one is set. */
  function Delivery(hasCallback: bool, src: Byte, payload: seq<Byte>, len: U16): seq<Event> {
    if hasCallback then [MeshDelivery(src, payload, len)] else []
  }

  /** The events mesh_route_packet produces. */
  function RelayEvents(ctx: Context, h: MeshHdr, payload: seq<Byte>): seq<Event>
    reads ctx, ctx.routes, ctx.sockets
    requires ctx.Valid() && ctx.udpSocket >= 0
  {
    match RelayOf(ctx.RouteTable(), ctx.myNodeId, h)
    case ForMe => Delivery(ctx.hasDataCallback, h.src, payload, h.payloadLen)
    case Forward(f) => [MeshSendto(ctx, EncodeHdr(f) + payload)]
    case _ => []
  }

  /** mesh_route_packet on a header and the payload that follows it. */
  method RoutePacket(ctx: Context, h: MeshHdr, payload: seq<Byte>) returns (ok: bool)
    requires ctx.Valid() && ctx.udpSocket >= 0
    modifies ctx.link
    ensures ctx.link.out == old(ctx.link.out) + RelayEvents(ctx, h, payload)
    ensures RelayOf(ctx.RouteTable(), ctx.myNodeId, h) == ForMe ==> ok
    ensures ok ==> RelayOf(ctx.RouteTable(), ctx.myNodeId, h).ForMe? || RelayOf(ctx.RouteTable(), ctx.myNodeId, h).Forward?
  {
    ghost var t := ctx.RouteTable();
    if h.dst == ctx.myNodeId {
      assert RelayEvents(ctx, h, payload) == Delivery(ctx.hasDataCallback, h.src, payload, h.payloadLen);
      if ctx.hasDataCallback {
        ctx.link.out := ctx.link.out + [MeshDelivery(h.src, payload, h.payloadLen)];
      }
      return true;
    }
    if h.hopCount >= MaxHops {
      assert RelayOf(t, ctx.myNodeId, h) == HopLimit;
      return false;
    }
    var nextHop := FindRoute(ctx, h.dst);
    if nextHop < 0 {
      assert RelayOf(t, ctx.myNodeId, h) == Unroutable;
      return false;
    }
    assert RelayEvents(ctx, h, payload) == [MeshSendto(ctx, EncodeHdr(h.(hopCount := h.hopCount + 1)) + payload)];
    ok := SendOnMeshSocket(ctx, EncodeHdr(h.(hopCount := h.hopCount + 1)) + payload);
  }

  // ----------------------------------------------------- mesh_packet_handler

  /** What the receive handler does with a datagram. */
  datatype Dispatch =
    | Drop
    | BeaconFrom(sender: Byte, neighbors: seq<Byte>)
    | Deliver(src: Byte, payload: seq<Byte>, len: U16)
    | Relay(hdr: MeshHdr, payload: seq<Byte>)

  /** mesh_packet_handler as written, on its whole 1600-byte buffer: the
      datagram's bytes followed by whatever the buffer held before. A
      beacon's neighbour list is neighbor_count bytes from offset 25,
      whatever the count; a DATA packet's payload is payload_len bytes from
      offset 8, cut off here at the end of the buffer the source reads
      past. */
  function SourceDispatch(myId: Byte, buf: seq<Byte>): Dispatch
    requires |buf| == RxBufSize
  {
    var h := DecodeHdr(buf);
    if h.msgType == MsgBeacon then
      BeaconFrom(buf[NodeIdOffset], buf[NeighborsOffset..NeighborsOffset + buf[NeighborCountOffset] as int])
    else if h.msgType == MsgData then
      var payload := buf[MeshHdrSize..Min(MeshHdrSize + h.payloadLen as int, RxBufSize)];
      if h.dst == myId || h.dst == Broadcast then Deliver(h.src, payload, h.payloadLen) else Relay(h, payload)
    else Drop
  }

  /** The buffer mesh_packet_handler dispatches on after reading `rx`
      into it. */
  function RxBuffer(rx: seq<Byte>, stale: seq<Byte>): (buf: seq<Byte>)
    requires |rx| <= RxBufSize == |stale|
    ensures |buf| == RxBufSize && buf[..|rx|] == rx
  {
    rx + stale[|rx|..]
  }

  /** The dispatch evidently intended, on the received bytes alone: a datagram shorter than its header, a beacon shorter than a
      beacon and a DATA packet shorter than its payload_len says are
      dropped, and a beacon lists at most MaxNodes neighbours. */
  function Dispatched(myId: Byte, rx: seq<Byte>): (d: Dispatch)
  {
    if |rx| < MeshHdrSize then Drop
    else
      var h := DecodeHdr(rx);
      if h.msgType == MsgBeacon then CheckedBeacon(rx)
      else if h.msgType == MsgData then CheckedData(myId, rx, h, h.payloadLen as int)
      else Drop
  }

  /** The checked BEACON branch: at most MaxNodes neighbours, read from a
      whole beacon. */
  function CheckedBeacon(rx: seq<Byte>): (d: Dispatch)
    ensures d.Drop? || d.BeaconFrom?
    ensures d.BeaconFrom? ==> |d.neighbors| <= MaxNodes && BeaconSize <= |rx| &&
                              d.neighbors == rx[NeighborsOffset..NeighborsOffset + |d.neighbors|]
  {
    if |rx| < BeaconSize then Drop
    else BeaconFrom(rx[NodeIdOffset],
                    rx[NeighborsOffset..NeighborsOffset + Min(rx[NeighborCountOffset] as int, MaxNodes)])
  }

  /** The checked DATA branch: a payload of exactly payload_len bytes, all
      of them received. */
  function CheckedData(myId: Byte, rx: seq<Byte>, h: MeshHdr, n: nat): (d: Dispatch)
    requires n == h.payloadLen as int
    ensures d.Drop? || d.Deliver? || d.Relay?
    ensures d.Deliver? ==> d.len == h.payloadLen && MeshHdrSize + n <= |rx| && d.payload == rx[MeshHdrSize..MeshHdrSize + n]
    ensures d.Relay? ==> d.hdr == h && MeshHdrSize + n <= |rx| && d.payload == rx[MeshHdrSize..MeshHdrSize + n]
  {
    if |rx| < MeshHdrSize + n then Drop
    else
      var payload := rx[MeshHdrSize..MeshHdrSize + n];
      if h.dst == myId || h.dst == Broadcast then Deliver(h.src, payload, h.payloadLen) else Relay(h, payload)
  }

  /** The checked dispatch reads only bytes that were received: the
      neighbours of a beacon, at most MaxNodes of them, lie inside the
      datagram, ... */
  lemma {:induction false} DispatchedBeaconWithin(myId: Byte, rx: seq<Byte>)
    requires Dispatched(myId, rx).BeaconFrom?
    ensures var d := Dispatched(myId, rx);
            |d.neighbors| <= MaxNodes && BeaconSize <= |rx| && d.neighbors == rx[NeighborsOffset..NeighborsOffset + |d.neighbors|]
  {
    assert Dispatched(myId, rx) == CheckedBeacon(rx);
  }

  /** ... and so do the payload_len bytes after the header of a DATA
      packet delivered here ... */
  lemma {:induction false} DispatchedDeliverWithin(myId: Byte, rx: seq<Byte>)
    requires Dispatched(myId, rx).Deliver?
    ensures var d := Dispatched(myId, rx);
            MeshHdrSize + d.len as int <= |rx| && d.payload == rx[MeshHdrSize..MeshHdrSize + d.len as int]
  {
    var h := DecodeHdr(rx);
    var d := CheckedData(myId, rx, h, h.payloadLen as int);
    assert Dispatched(myId, rx) == d;
  }

  /** ... or relayed. */
  lemma {:induction false} DispatchedRelayWithin(myId: Byte, rx: seq<Byte>)
    requires Dispatched(myId, rx).Relay?
    ensures var d := Dispatched(myId, rx);
            MeshHdrSize + d.hdr.payloadLen as int <= |rx| &&
            d.payload == rx[MeshHdrSize..MeshHdrSize + d.hdr.payloadLen as int]
  {
    var h := DecodeHdr(rx);
    var d := CheckedData(myId, rx, h, h.payloadLen as int);
    assert Dispatched(myId, rx) == d;
  }

  /** A datagram whose lengths agree with its contents: a whole header, a
      whole beacon with at most MaxNodes neighbours, a whole DATA payload. */
  predicate WellFormed(rx: seq<Byte>) {
    |rx| >= MeshHdrSize &&
    (rx[0] == MsgBeacon ==> |rx| >= BeaconSize && rx[NeighborCountOffset] as int <= MaxNodes) &&
    (rx[0] == MsgData ==> MeshHdrSize + DecodeHdr(rx).payloadLen as int <= |rx|)
  }

  /** On a well-formed datagram that fits the buffer the source and the
      checked dispatch agree, whatever the buffer held before. */
  lemma {:induction false} DispatchAgreesOnWellFormed(myId: Byte, rx: seq<Byte>, stale: seq<Byte>)
    requires WellFormed(rx) && |rx| <= RxBufSize == |stale|
    ensures SourceDispatch(myId, RxBuffer(rx, stale)) == Dispatched(myId, rx)
  {
    var buf := RxBuffer(rx, stale);
    SameHeader(buf, rx);
    if rx[0] == MsgBeacon {
      BeaconAgrees(myId, rx, buf);
    } else if rx[0] == MsgData {
      DataAgrees(myId, rx, buf);
    }
  }

  lemma {:induction false} SameHeader(buf: seq<Byte>, rx: seq<Byte>)
    requires MeshHdrSize <= |rx| <= |buf| && buf[..|rx|] == rx
    ensures DecodeHdr(buf) == DecodeHdr(rx) && buf[0] == rx[0]
  {
    assert forall i :: 0 <= i < MeshHdrSize ==> buf[i] == buf[..|rx|][i];
  }

  lemma {:induction false} BeaconAgrees(myId: Byte, rx: seq<Byte>, buf: seq<Byte>)
    requires WellFormed(rx) && rx[0] == MsgBeacon && |rx| <= |buf| == RxBufSize && buf[..|rx|] == rx
    requires DecodeHdr(buf) == DecodeHdr(rx)
    ensures SourceDispatch(myId, buf) == Dispatched(myId, rx)
  {
    var n := rx[NeighborCountOffset] as int;
    assert buf[NeighborCountOffset] == rx[NeighborCountOffset] && buf[NodeIdOffset] == rx[NodeIdOffset] by {
      assert buf[NeighborCountOffset] == buf[..|rx|][NeighborCountOffset];
      assert buf[NodeIdOffset] == buf[..|rx|][NodeIdOffset];
    }
    PrefixSlice(buf, rx, NeighborsOffset, NeighborsOffset + n);
    BeaconDispatch(myId, buf, rx[NodeIdOffset], n);
    BeaconDispatched(myId, rx, n);
  }

  /** The source's BEACON branch once the count is known. */
  lemma {:induction false} BeaconDispatch(myId: Byte, buf: seq<Byte>, id: Byte, n: int)
    requires |buf| == RxBufSize && buf[0] == MsgBeacon && buf[NodeIdOffset] == id
    requires n == buf[NeighborCountOffset] as int
    ensures SourceDispatch(myId, buf) == BeaconFrom(id, buf[NeighborsOffset..NeighborsOffset + n])
  {
  }

  /** The checked BEACON branch of a long enough beacon with a count that
      fits. */
  lemma {:induction false} BeaconDispatched(myId: Byte, rx: seq<Byte>, n: int)
    requires |rx| >= BeaconSize && rx[0] == MsgBeacon
    requires n == rx[NeighborCountOffset] as int && n <= MaxNodes
    ensures Dispatched(myId, rx) == BeaconFrom(rx[NodeIdOffset], rx[NeighborsOffset..NeighborsOffset + n])
  {
  }

  lemma {:induction false} DataAgrees(myId: Byte, rx: seq<Byte>, buf: seq<Byte>)
    requires WellFormed(rx) && rx[0] == MsgData && |rx| <= |buf| == RxBufSize && buf[..|rx|] == rx
    requires DecodeHdr(buf) == DecodeHdr(rx)
    ensures SourceDispatch(myId, buf) == Dispatched(myId, rx)
  {
    var h := DecodeHdr(rx);
    var n := h.payloadLen as int;
    PrefixSlice(buf, rx, MeshHdrSize, MeshHdrSize + n);
    DataDispatch(myId, buf, h, n);
    DataDispatched(myId, rx, h, n);
  }

  lemma {:induction false} PrefixSlice(buf: seq<Byte>, rx: seq<Byte>, i: int, j: int)
    requires 0 <= i <= j <= |rx| <= |buf| && buf[..|rx|] == rx
    ensures buf[i..j] == rx[i..j]
  {
    forall k | i <= k < j
      ensures buf[k] == rx[k]
    {
      assert buf[..|rx|][k] == buf[k];
    }
    assert buf[i..j] == rx[i..j];
  }

  /** The source's DATA branch once the header is known. */
  lemma {:induction false} DataDispatch(myId: Byte, buf: seq<Byte>, h: MeshHdr, n: int)
    requires |buf| == RxBufSize && DecodeHdr(buf) == h && h.msgType == MsgData
    requires n == h.payloadLen as int && MeshHdrSize + n <= RxBufSize
    ensures SourceDispatch(myId, buf) ==
            if h.dst == myId || h.dst == Broadcast then Deliver(h.src, buf[MeshHdrSize..MeshHdrSize + n], h.payloadLen)
            else Relay(h, buf[MeshHdrSize..MeshHdrSize + n])
  {
  }

  /** The checked DATA branch once the header is known. */
  lemma {:induction false} DataDispatched(myId: Byte, rx: seq<Byte>, h: MeshHdr, n: int)
    requires |rx| >= MeshHdrSize && DecodeHdr(rx) == h && h.msgType == MsgData
    requires n == h.payloadLen as int && MeshHdrSize + n <= |rx|
    ensures Dispatched(myId, rx) ==
            if h.dst == myId || h.dst == Broadcast then Deliver(h.src, rx[MeshHdrSize..MeshHdrSize + n], h.payloadLen)
            else Relay(h, rx[MeshHdrSize..MeshHdrSize + n])
  {
  }

  /** A beacon whose neighbor_count exceeds the eight entries it has makes
      the source read past the neighbour array: with a count of 9 the
      count byte itself becomes a ninth neighbour, so a two-hop route to
      node 9 is installed that the sender never advertised. The checked
      dispatch lists the eight neighbours that were sent. */
  lemma {:induction false} UnclampedNeighborCount(stale: seq<Byte>)
    requires |stale| == RxBufSize
    ensures var listed: seq<Byte> := [2, 3, 4, 6, 7, 8, 10, 11];
            var rx := EncodeBeacon(Beacon(MeshHdr(MsgBeacon, 5, Broadcast, 0, 0, 26), 5, Zeros(NameSize), listed, 9));
            SourceDispatch(1, RxBuffer(rx, stale)) == BeaconFrom(5, listed + [9]) &&
            Dispatched(1, rx) == BeaconFrom(5, listed) && 9 !in listed
  {
    var listed: seq<Byte> := [2, 3, 4, 6, 7, 8, 10, 11];
    var rx := EncodeBeacon(Beacon(MeshHdr(MsgBeacon, 5, Broadcast, 0, 0, 26), 5, Zeros(NameSize), listed, 9));
    var buf := RxBuffer(rx, stale);
    SameHeader(buf, rx);
    assert buf[NeighborsOffset..NeighborsOffset + 9] == rx[NeighborsOffset..BeaconSize];
    assert rx[NeighborsOffset..BeaconSize] == listed + [9];
  }

  /** payload_len is never checked against the bytes received: a DATA
      header alone announcing four payload bytes hands the callback four
      bytes the buffer held before, and a payload_len of 0xFFFF makes the
      forwarded packet longer than the whole buffer. The checked dispatch
      drops both. */
  lemma {:induction false} UncheckedPayloadLen()
    ensures var rx: seq<Byte> := [MsgData, 3, 1, 0, 0, 0, 4, 0];
            SourceDispatch(1, RxBuffer(rx, seq(RxBufSize, _ => 0xAA))) == Deliver(3, [0xAA, 0xAA, 0xAA, 0xAA], 4) &&
            Dispatched(1, rx) == Drop
    ensures var rx: seq<Byte> := [MsgData, 3, 2, 0, 0, 0, 0xFF, 0xFF];
            var d := SourceDispatch(1, RxBuffer(rx, Zeros(RxBufSize)));
            d.Relay? && MeshHdrSize + d.hdr.payloadLen as int > RxBufSize && Dispatched(1, rx) == Drop
  {
    var rx: seq<Byte> := [MsgData, 3, 1, 0, 0, 0, 4, 0];
    var stale: seq<Byte> := seq(RxBufSize, _ => 0xAA);
    var buf := RxBuffer(rx, stale);
    SameHeader(buf, rx);
    assert forall i :: MeshHdrSize <= i < RxBufSize ==> buf[i] == stale[i];
    assert buf[MeshHdrSize..MeshHdrSize + 4] == [0xAA, 0xAA, 0xAA, 0xAA];
    var rx2: seq<Byte> := [MsgData, 3, 2, 0, 0, 0, 0xFF, 0xFF];
    SameHeader(RxBuffer(rx2, Zeros(RxBufSize)), rx2);
  }

  /** A packet winc_mesh_send builds arrives whole: its destination, or
      every node for a broadcast, delivers exactly the payload from the
      sender; any other node relays it unchanged. */
  lemma {:induction false} DataPacketArrives(src: Byte, dst: Byte, seqNum: U16, data: seq<Byte>, len: U16, receiver: Byte)
    requires |data| == len as int
    ensures Dispatched(receiver, DataPacket(src, dst, seqNum, data, len)) ==
              if dst == receiver || dst == Broadcast then Deliver(src, data, len)
              else Relay(MeshHdr(MsgData, src, dst, 0, seqNum, len), data)
  {
    var p := DataPacket(src, dst, seqNum, data, len);
    DataPacketDecodes(src, dst, seqNum, data, len);
    DecodedDataDispatched(receiver, p, MeshHdr(MsgData, src, dst, 0, seqNum, len), data);
  }

  /** The checked DATA branch on a datagram whose header and payload are known. */
  lemma {:induction false} DecodedDataDispatched(myId: Byte, rx: seq<Byte>, h: MeshHdr, data: seq<Byte>)
    requires |rx| == MeshHdrSize + |data| && DecodeHdr(rx) == h && h.msgType == MsgData
    requires |data| == h.payloadLen as int && rx[MeshHdrSize..MeshHdrSize + |data|] == data
    ensures Dispatched(myId, rx) ==
            if h.dst == myId || h.dst == Broadcast then Deliver(h.src, data, h.payloadLen) else Relay(h, data)
  {
    DataDispatched(myId, rx, h, |data|);
  }

  /** Such a packet is well formed, so the source delivers it alike. */
  lemma {:induction false} DataPacketWellFormed(src: Byte, dst: Byte, seqNum: U16, data: seq<Byte>, len: U16)
    requires |data| == len as int
    ensures WellFormed(DataPacket(src, dst, seqNum, data, len))
  {
    DataPacketDecodes(src, dst, seqNum, data, len);
  }

  lemma {:induction false} DataPacketDecodes(src: Byte, dst: Byte, seqNum: U16, data: seq<Byte>, len: U16)
    requires |data| == len as int
    ensures var p := DataPacket(src, dst, seqNum, data, len);
            DecodeHdr(p) == MeshHdr(MsgData, src, dst, 0, seqNum, len) && p[0] == MsgData
  {
    var h := MeshHdr(MsgData, src, dst, 0, seqNum, len);
    DecodeEncodeHdr(h);
    SameHeader(DataPacket(src, dst, seqNum, data, len), EncodeHdr(h));
  }

  /** A beacon mesh_send_beacon builds arrives whole: the receiver learns
      the sender and exactly the neighbours it advertised. */
  lemma {:induction false} BeaconArrives(myId: Byte, seqNum: U16, name: seq<Byte>, neighbors: seq<Byte>, receiver: Byte)
    requires |neighbors| <= MaxNodes
    ensures WellFormed(EncodeBeacon(BeaconOf(myId, seqNum, name, neighbors)))
    ensures Dispatched(receiver, EncodeBeacon(BeaconOf(myId, seqNum, name, neighbors))) == BeaconFrom(myId, neighbors)
  {
    var b := BeaconOf(myId, seqNum, name, neighbors);
    var r := EncodeBeacon(b);
    DecodeEncodeHdr(b.hdr);
    SameHeader(r, EncodeHdr(b.hdr));
    ByteOfInt(|neighbors|);
    assert r[NeighborsOffset..NeighborsOffset + |neighbors|] == b.neighbors[..|neighbors|];
  }

  /** Relays one after another, node k (table ts[k], id ids[k]) forwarding
      what node k - 1 sent as hs[k + 1]. */
  predicate RelayChain(ts: seq<Table>, ids: seq<Byte>, hs: seq<MeshHdr>) {
    |ts| == |ids| && |hs| == |ts| + 1 &&
    forall k :: 0 <= k < |ts| ==>
      |ts[k].slots| == MaxNodes && ts[k].count <= MaxNodes && RelayOf(ts[k], ids[k], hs[k]) == Forward(hs[k + 1])
  }

  /** Every relay adds one hop and changes nothing else, so a packet that
      leaves its source with hop count 0 is relayed at most MaxHops times. */
  lemma {:induction false} ForwardingIsBounded(ts: seq<Table>, ids: seq<Byte>, hs: seq<MeshHdr>)
    requires RelayChain(ts, ids, hs)
    ensures hs[|ts|] == hs[0].(hopCount := hs[|ts|].hopCount)
    ensures hs[|ts|].hopCount as int == hs[0].hopCount as int + |ts|
    ensures |ts| > 0 ==> hs[0].hopCount as int + |ts| <= MaxHops as int
  {
    var n := |ts|;
    if n > 0 {
      assert RelayChain(ts[..n - 1], ids[..n - 1], hs[..n]) by {
        forall k | 0 <= k < n - 1
          ensures RelayOf(ts[..n - 1][k], ids[..n - 1][k], hs[..n][k]) == Forward(hs[..n][k + 1])
        {
          assert RelayOf(ts[k], ids[k], hs[k]) == Forward(hs[k + 1]);
        }
      }
      ForwardingIsBounded(ts[..n - 1], ids[..n - 1], hs[..n]);
      var h := hs[n - 1];
      assert RelayOf(ts[n - 1], ids[n - 1], h) == Forward(hs[n]);
      assert h.hopCount < MaxHops && hs[n] == h.(hopCount := h.hopCount + 1);
      HopStep(h.hopCount);
    }
  }

  lemma {:induction false} HopStep(h: Byte)
    requires h < MaxHops
    ensures (h + 1) as int == h as int + 1 && (h as int) < MaxHops as int
  {
  }

  /** mesh_packet_handler: nothing happens for an error or empty receive,
      a datagram larger than the buffer, or a failed read. Otherwise the
      datagram is dispatched as the source does, on the 1600-byte stack
      buffer: `stale` stands for what that buffer held before the read.
      A beacon updates the routes; a DATA packet for this node or for
      everyone goes to the data callback, any other is handed to
      mesh_route_packet. */
  method PacketHandler(ctx: Context, rxlen: int, readOk: bool, rx: seq<Byte>, stale: seq<Byte>, now: U32)
    requires MeshOk(ctx) && ctx.udpSocket >= 0 && |stale| == RxBufSize
    requires 0 < rxlen <= RxBufSize ==> |rx| == rxlen
    modifies ctx.routes, ctx`routeCount, ctx.link
    ensures MeshOk(ctx)
    ensures var d := if 0 < rxlen <= RxBufSize && readOk then SourceDispatch(ctx.myNodeId, RxBuffer(rx, stale)) else Drop;
            (d.BeaconFrom? ==> ctx.RouteTable() == ApplyBeacon(old(ctx.RouteTable()), ctx.myNodeId, d.sender, d.neighbors, now) &&
                               ctx.link.out == old(ctx.link.out)) &&
            (!d.BeaconFrom? ==> ctx.RouteTable() == old(ctx.RouteTable())) &&
            (d.Deliver? ==> ctx.link.out == old(ctx.link.out) + Delivery(ctx.hasDataCallback, d.src, d.payload, d.len)) &&
            (d.Relay? ==> ctx.link.out == old(ctx.link.out) + RelayEvents(ctx, d.hdr, d.payload)) &&
            (d.Drop? ==> ctx.link.out == old(ctx.link.out))
  {
    if rxlen <= 0 || rxlen > RxBufSize || !readOk {
      return;
    }
    var d := SourceDispatch(ctx.myNodeId, RxBuffer(rx, stale));
    match d
    case BeaconFrom(sender, neighbors) =>
      HandleBeacon(ctx, sender, neighbors, now);
    case Deliver(src, payload, len) =>
      if ctx.hasDataCallback {
        ctx.link.out := ctx.link.out + [MeshDelivery(src, payload, len)];
      }
    case Relay(hdr, payload) =>
      var _ := RoutePacket(ctx, hdr, payload);
    case Drop =>
  }

  // ------------------------------------------------------- winc_mesh_process

  /** Whether a beacon is due; the subtraction wraps like the source's
      uint32_t, so the clock wrapping around does not stop the beacons. */
  predicate BeaconDue(lastBeacon: U32, now: U32) {
    now - lastBeacon > BeaconIntervalMs
  }

  /** winc_mesh_process: when the mesh is enabled, a beacon if one is due
      (last_beacon then becomes `now` whether or not it went out), then
      the timeout sweep; when disabled, nothing. */
  method Process(ctx: Context, now: U32)
    requires MeshOk(ctx)
    modifies ctx.routes, ctx`lastBeacon, ctx`seqNum, ctx.link
    ensures MeshOk(ctx)
    ensures !ctx.meshEnabled ==>
              ctx.routes[..] == old(ctx.routes[..]) && ctx.lastBeacon == old(ctx.lastBeacon) &&
              ctx.seqNum == old(ctx.seqNum) && ctx.link.out == old(ctx.link.out)
    ensures ctx.meshEnabled ==>
              var due := BeaconDue(old(ctx.lastBeacon), now);
              ctx.routes[..] == Sweep(old(ctx.routes[..]), ctx.routeCount, now) &&
              ctx.lastBeacon == (if due then now else old(ctx.lastBeacon)) &&
              ctx.link.out == old(ctx.link.out) + (if due then old(BeaconEvents(ctx)) else []) &&
              ctx.seqNum == (if due && CanBeacon(ctx) then old(ctx.seqNum) + 1 else old(ctx.seqNum))
  {
    if !ctx.meshEnabled {
      return;
    }
    BeaconTick(ctx, now);
    ExpireRoutes(ctx, now);
  }

  /** The beacon half of winc_mesh_process: a beacon once the interval
      has elapsed since the last one. */
  method BeaconTick(ctx: Context, now: U32)
    requires ctx.Valid()
    modifies ctx`lastBeacon, ctx`seqNum, ctx.link
    ensures ctx.Valid()
    ensures var due := BeaconDue(old(ctx.lastBeacon), now);
              ctx.lastBeacon == (if due then now else old(ctx.lastBeacon)) &&
              ctx.link.out == old(ctx.link.out) + (if due then old(BeaconEvents(ctx)) else []) &&
              ctx.seqNum == (if due && old(CanBeacon(ctx)) then old(ctx.seqNum) + 1 else old(ctx.seqNum))
  {
    if BeaconDue(ctx.lastBeacon, now) {
      var _ := SendBeacon(ctx);
      ctx.lastBeacon := now;
    }
  }

  /** The timeout loop of winc_mesh_process over the slots below
      route_count. */
  method ExpireRoutes(ctx: Context, now: U32)
    requires MeshOk(ctx)
    modifies ctx.routes
    ensures MeshOk(ctx)
    ensures ctx.routes[..] == Sweep(old(ctx.routes[..]), ctx.routeCount, now)
  {
    ghost var s := ctx.routes[..];
    var i := 0;
    while i < ctx.routeCount
      invariant 0 <= i <= ctx.routeCount
      invariant ctx.routes[..] == Sweep(s, i, now)
    {
      SweepStep(s, i, now);
      if ctx.routes[i].active && Expired(ctx.routes[i], now) {
        ctx.routes[i] := ctx.routes[i].(active := false);
      }
      i := i + 1;
    }
    SweepDeactivatesExpired(Table(s, ctx.routeCount), now);
  }

  // ---------------------------------------------------------- winc_mesh_init

  /** The socket step of winc_mesh_init once the network is up: the mesh
      UDP socket is opened on MeshPort with the mesh handler (and bound at
      once, DHCP being done), and the mesh is enabled only if that
      succeeded. Without a connection and DHCP nothing happens. */
  method MeshStart(ctx: Context) returns (ok: bool)
    requires ctx.Valid()
    modifies ctx`udpSocket, ctx`meshEnabled, ctx`session, ctx.sockets, ctx.link
    ensures ctx.Valid()
    ensures !(ctx.conn.connected && ctx.conn.dhcpDone) ==>
              !ok && ctx.udpSocket == old(ctx.udpSocket) && ctx.meshEnabled == old(ctx.meshEnabled) &&
              ctx.session == old(ctx.session) && ctx.sockets[..] == old(ctx.sockets[..]) && ctx.link.out == old(ctx.link.out)
    ensures ctx.conn.connected && ctx.conn.dhcpDone ==>
              ctx.udpSocket == FreeSlot(old(ctx.sockets[..]), MinUdpSock, MaxUdpSock) &&
              (ok <==> ctx.udpSocket >= 0) && ctx.meshEnabled == (ok || old(ctx.meshEnabled))
    ensures ok ==>
              var e := OpenedEffect(old(ctx.sockets[..]), ctx.udpSocket as Byte, MeshPort, old(ctx.session), MeshHandler, true);
              ctx.sockets[..] == e.socks && ctx.link.out == old(ctx.link.out) + e.events
  {
    if !ctx.conn.connected || !ctx.conn.dhcpDone {
      return false;
    }
    U16RoundTrip(MeshPort);
    var sock := ctx.OpenSockServer(MeshPort as int, false, MeshHandler);
    ctx.udpSocket := sock;
    if sock < 0 {
      return false;
    }
    ctx.meshEnabled := true;
    ok := true;
  }
}

# WINC1500 mesh driver: routing, socket pool, telemetry integrity

This project models the bookkeeping layer of a WINC1500 Wi-Fi driver for the
Raspberry Pi Pico and proves properties of that model. The driver builds a
small multi-hop mesh over UDP on top of the chip's socket interface. Its
parts:

- **Routing table** (`winc_mesh.c`): eight route slots with a `route_count`
  high-water mark. A route is inserted or refreshed when the new hop count is
  no worse than the stored one. The lookup picks the minimum-hop route.
  Periodic beacons advertise one-hop neighbours; a received beacon installs
  a one-hop route to its sender and two-hop routes through it. DATA packets
  are delivered locally or forwarded with a hop limit, and a sweep expires
  routes not heard from for 30 seconds.
- **Socket pool and response dispatcher** (`winc_lib.c`): ten socket slots,
  TCP in [0, 7) and UDP in [7, 10), with a session counter. Slots move
  through CLOSED, BINDING, BOUND and CONNECTED as the chip answers.
  `check_sock` routes the chip's responses and range-checks every index the
  chip supplies. `interrupt_handler` clamps the response length and tracks
  the connection flags. Commands to the chip (`hif_put`) are appended to an
  outgoing log of framed messages.
- **Byte packing** (`winc_lib.h`): the big- and little-endian macros,
  `GIDOP`, the socket ranges, and the packed mesh header and beacon layouts.
- **Telemetry integrity** (`winc_telemetry.c`): the table-driven CRC-32 of
  IEEE 802.3 (clause 3.2.9, reflected polynomial 0xEDB88320) and
  `verify_packet_integrity`. Also two 32-slot packet rings, redundant sends
  with retry counting, and the vote among redundant copies.
- **TCP test program** (`test/test_tcp.c`): the bitwise CRC-32, the
  test-pattern packets, and the statistics kept by the TCP handler.

Modules:

- `WincHeader` (winc_header.dfy): constants, packing, layouts.
- `Routes` (routes.dfy): the routing table as a value, with its invariant
  `TableOk`.
- `WincLib` (winc_lib.dfy): the driver context as a class holding
  `sockets` and `routes` arrays, plus the socket-pool specification
  functions.
- `WincMesh` (winc_mesh.dfy): the mesh operations as methods on that
  context.
- `Crc32` (crc32.dfy): both CRC implementations and their equivalence.
- `Telemetry` (telemetry.dfy): the packet image, rings, sends and vote.
- `TcpTest` (tcp_test.dfy): the test program.

Each method that changes state is proved against a specification function of
its old state. The table invariant, FIFO order, round trips and the vote's
meaning are proved about those functions.

Integer widths follow the source: `Byte` is `bv8`, `U16` is `bv16` and `U32`
is `bv32`, so `uint32_t` clocks, counters and sequence numbers wrap as in C.
The clock (`to_ms_since_boot`) is a `now` parameter. Each chip command that
goes out and each handler call is an `Event` appended to `Context.link.out`.

## Model

| member | source | states |
|---|---|---|
| WincHeader.GidOp | winc_lib.h:263 | the group id is the high byte of the code and the operation the low byte |
| WincHeader.GopCodes | winc_lib.h:264-275 | each response code is GIDOP of its group (WIFI 1, IP 2) and operation number |
| WincHeader.SocketRangesPartition | winc_lib.h:286-291 | the TCP range [0,7) and the UDP range [7,10) are disjoint and together are exactly [0, MAX_SOCKETS) |
| WincHeader.U16Bytes | winc_lib.h:303 | U16_DATA writes two bytes |
| WincHeader.U24Bytes | winc_lib.h:304 | U24_DATA writes three bytes |
| WincHeader.U32Bytes | winc_lib.h:305 | U32_DATA writes four bytes |
| WincHeader.DataU32OfU32Bytes | winc_lib.h:305-306 | DATA_U32 reads back the word U32_DATA wrote (big-endian round trip) |
| WincHeader.U32BytesOfDataU32 | winc_lib.h:305-306 | writing back what DATA_U32 read gives the same four bytes (the other direction) |
| WincHeader.RspU32OfU32Bytes | winc_lib.h:305-307 | RSP_U32 reads little-endian, so on U32_DATA's bytes it gives the byte-reversed word |
| WincHeader.NarrowStoresKeepLowBits | winc_lib.h:303-305 | U24_DATA and U16_DATA store only the low 24 or 16 bits, big-endian: the tail of U32_DATA of the truncated value |
| WincHeader.StoreU32 | winc_lib.h:305 | the in-place store puts U32Bytes(v) at d[n..n+4] and changes no other byte |
| WincHeader.StoreU24 | winc_lib.h:304 | the in-place store puts U24Bytes(v) at d[n..n+3] and changes no other byte |
| WincHeader.StoreU16 | winc_lib.h:303 | the in-place store puts U16Bytes(v) at d[n..n+2] and changes no other byte |
| WincHeader.LeU16OfLeBytes16 | winc_lib.h:203-204 | a packed little-endian 16-bit field reads back the value stored in it |
| WincHeader.LeBytes16OfLeU16 | winc_lib.h:203-204 | storing a 16-bit field read from two bytes gives those bytes back |
| WincHeader.EncodeHdr | winc_lib.h:198-205 | the packed mesh header is 8 bytes |
| WincHeader.DecodeEncodeHdr | winc_lib.h:198-205 | decoding an encoded mesh header gives the header back |
| WincHeader.EncodeDecodeHdr | winc_lib.h:198-205 | re-encoding a decoded header gives the first 8 bytes back |
| WincHeader.EncodeBeacon | winc_lib.h:214-220 | a beacon is 34 bytes: header at 0, node_id at 8, name at 9-24, neighbours at 25-32, neighbor_count at 33 |
| WincHeader.DecodeEncodeBeacon | winc_lib.h:214-220 | decoding an encoded beacon gives the beacon back |
| WincHeader.EncodeDecodeBeacon | winc_lib.h:214-220 | re-encoding a decoded beacon gives the first 34 bytes back |
| WincHeader.StrnCopy | winc_mesh.c:206-209 | the stored name is 16 bytes and its last byte is NUL |
| WincHeader.StrnCopyKeepsShortName | winc_mesh.c:206-209 | a name shorter than 16 bytes is copied whole and padded with NULs |
| WincHeader.StrnCopyIdempotent | winc_mesh.c:338-339 | copying the stored name again, as the beacon does, changes nothing |
| Routes.EmptyTableOk | winc_mesh.c:211-213 | the zeroed table satisfies the invariant and has no active route |
| Routes.ExistingSlot | winc_mesh.c:491-495 | the first active slot for the node, or -1 exactly when there is none |
| Routes.FirstInactive | winc_mesh.c:496-498 | the first inactive slot, or -1 exactly when every slot is active |
| Routes.UpdateKeepsTableOk | winc_mesh.c:485-524 | an update keeps one active route per node and never shrinks route_count, which stays at most 8 |
| Routes.UpdateRefreshes | winc_mesh.c:502-508 | refreshing an existing route keeps the invariant and route_count |
| Routes.UpdateInserts | winc_mesh.c:509-519 | inserting into the first inactive slot keeps the invariant and does not shrink route_count |
| Routes.UpdateKeeps | winc_mesh.c:502-524 | a strictly worse hop count, or a full table without the node, leaves the table and route_count unchanged |
| Routes.UpdateOutcome | winc_mesh.c:502-519 | all four cases: overwrite on an equal or better count (the next hop changes even on a tie), no change on a worse one, insert with route_count raised to free_slot + 1, no change when full |
| Routes.UpdateTouchesOneSlot | winc_mesh.c:502-519 | an update changes at most the node's own slot or, when it has none, the first inactive slot |
| Routes.UpdateKeepsOtherRoutes | winc_mesh.c:502-519 | active routes to other nodes are left as they were |
| Routes.UpdateMakesRoute | winc_mesh.c:502-519 | after an update the node has an active route unless the table was full of other nodes |
| Routes.BestSlot | winc_mesh.c:531-538 | the chosen slot is -1 or a live candidate for the destination |
| Routes.BestSlotIsFirstMinimum | winc_mesh.c:527-541 | the lookup picks the first candidate with the least hop count below route_count; routes of 255 hops are never picked |
| Routes.NextHopOfOnlyRoute | winc_mesh.c:527-541 | under the invariant the lookup returns the next hop of the node's one live route |
| Routes.NoRouteNoHop | winc_mesh.c:540 | without an active route to the destination the lookup returns -1 |
| Routes.SweepDeactivatesExpired | winc_mesh.c:621-629 | the sweep deactivates exactly the active routes older than 30 s (wrapping subtraction), reactivates nothing, changes no other field and keeps the invariant |
| Routes.DirectNeighbors | winc_mesh.c:342-346 | at most as many neighbours as slots scanned |
| Routes.DirectNeighborsMembers | winc_mesh.c:342-346 | a node is advertised exactly when it has an active one-hop route below route_count |
| Routes.DirectNeighborsDistinct | winc_mesh.c:342-346 | under the invariant no node is advertised twice |
| Routes.ApplyNeighborsOk | winc_mesh.c:374-383 | two-hop updates keep the invariant and never shrink route_count |
| Routes.ApplyNeighborsKeepsDirect | winc_mesh.c:374-383 | two-hop updates never replace a one-hop route |
| Routes.BeaconRoutesSender | winc_mesh.c:370-383 | after a beacon the table is still valid and, if there was room, holds the one-hop route to the sender through itself |
| Routes.ActiveCount | winc_lib.c:1049-1056 | the count of active slots is at most the number scanned |
| Routes.ActiveCountCountsAll | winc_lib.c:1049-1056 | under the invariant the slots below route_count hold every active route |
| WincLib.Swap16 | winc_lib.c:276-278 | swap16 exchanges the two bytes |
| WincLib.Swap16Involution | winc_lib.c:276-278 | swapping twice gives the port back |
| WincLib.SockErrStr | winc_lib.c:532-535 | the text is non-empty exactly for an absolute error below 15, and it is the message for that absolute value |
| WincLib.SockErrStrSymmetric | winc_lib.c:532-535 | an error code and its negation give the same text, and 0 reads "OK" |
| WincLib.HifLen | winc_lib.c:471 | the announced length is 8 + dlen1 without a data block, and 8 + oset + dlen2 with one |
| WincLib.HifHeaderFields | winc_lib.c:472-473 | the header carries gid, the op with REQ_DATA masked off, and the length modulo 2^16 low byte first |
| WincLib.Frame | winc_lib.c:470-483 | the framed message carries the code, both blocks, the offset and the header for the computed length |
| WincLib.SendtoDest | winc_lib.c:616-625 | ip 0 becomes broadcast 0xFFFFFFFF and port 0 becomes the slot's local port; other values are kept |
| WincLib.SendtoPort | winc_lib.c:635-637 | the command carries the destination port swapped, so a port stored by put_sock_bind goes out in host order to 255.255.255.255 |
| WincLib.RecvDlen | winc_lib.c:79-85 | dlen is a signed 16-bit field |
| WincLib.BodyLen | winc_lib.c:778 | hlen is at most sizeof(RESP_MSG) = 20; it is len - 8 when that is 0..19; a len below 8 wraps in size_t and also gives 20 |
| WincLib.FreeSlot | winc_lib.c:546-547 | the lowest CLOSED slot of the range, or -1 exactly when none is CLOSED |
| WincLib.PendingMembers | winc_lib.c:696-698 | a slot is bound on "network ready" exactly when it is BINDING |
| WincLib.PendingIncreasing | winc_lib.c:696-703 | the BINDING slots are bound in increasing index order, each once |
| WincLib.RespAfter | winc_lib.c:776-781 | after a read, the first hlen response bytes come from the chip when the header read succeeded; the rest keep the previous response |
| WincLib.CheckSockIgnoresBadIndex | winc_lib.c:710-748 | a BIND, RECVFROM, RECV or ACCEPT response naming a slot at or beyond MAX_SOCKETS changes nothing and sends nothing |
| WincLib.BindResponseBinds | winc_lib.c:710-721 | a BINDING slot becomes BOUND exactly on a BIND response naming it |
| WincLib.CheckSockTransitions | winc_lib.c:686-755 | check_sock changes a slot's state only from BINDING to BOUND or to CONNECTED on ACCEPT; it never frees a slot |
| WincLib.ReadyBindsPending | winc_lib.c:690-709 | on DHCP_CONF, AP_ENABLE or DHCP_CONF_AP every BINDING slot gets its bind address and one BIND command, in slot order; states stay as they were |
| WincLib.AcceptConnects | winc_lib.c:739-747 | ACCEPT on a BOUND listener makes conn_sock CONNECTED with the listener's handler and arms one RECV |
| WincLib.RecvRearms | winc_lib.c:748-754 | RECV acts only on a CONNECTED slot and re-arms the receive exactly when dlen > 0; no slot changes |
| WincLib.RecvfromOnlyBound | winc_lib.c:732-738 | RECVFROM acts only on a BOUND slot, which then takes the sender's address and re-arms RECVFROM last |
| WincLib.ApModeSticks | winc_lib.c:784-825 | no response clears ap_mode |
| WincLib.DhcpDoneAfter | winc_lib.c:784-825 | dhcp_done and connected after a response, both directions: set by the ready events (connected also by STATE_CHANGE 1), cleared only by STATE_CHANGE 0; an unread response changes nothing |
| WincLib.DataAddrInRange | winc_lib.c:836-846 | hif_data_addr changes only for the in-range slot named by a RECVFROM or RECV response, and no other field changes |
| WincLib.Context.constructor | winc_mesh.c:206-215 | the zeroed context after winc_mesh_init's setup: every slot CLOSED, empty valid table, counters zero, the name stored with strncpy |
| WincLib.Context.HifPut | winc_lib.c:470-491 | appends exactly the framed message to the outgoing log |
| WincLib.Context.SockState | winc_lib.c:565-568 | sets the state of an in-range slot; an out-of-range index leaves the table unchanged |
| WincLib.Context.PutSockBind | winc_lib.c:570-587 | stores the bind address (any IP, port swapped) in the slot and sends BIND with the slot's session |
| WincLib.Context.PutSockListen | winc_lib.c:589-592 | sends LISTEN with the slot's session |
| WincLib.Context.PutSockRecv | winc_lib.c:594-597 | sends RECV with timeout -1 and the slot's session |
| WincLib.Context.PutSockRecvfrom | winc_lib.c:599-602 | sends RECVFROM with timeout -1 and the slot's session |
| WincLib.Context.PutSockSend | winc_lib.c:604-610 | sends the data at offset 80 to the slot's stored address |
| WincLib.Context.PutSockSendto | winc_lib.c:612-646 | sends the data at offset 68 to the defaulted destination and leaves the slot unchanged |
| WincLib.Context.PutSockClose | winc_lib.c:648-653 | sends CLOSE with the old session, then zeroes the whole slot whatever the command's outcome |
| WincLib.Context.OpenSockServer | winc_lib.c:542-563 | returns FreeSlot of the TCP or UDP range; -1 leaves the pool, session and log unchanged; otherwise the slot gets the port (mod 2^16), the session (then incremented), the handler and state BINDING, and is bound at once only when dhcp_done |
| WincLib.Context.CheckSock | winc_lib.c:686-755 | the new slots and the sent commands are those of CheckSockEffect, the branches in source order |
| WincLib.Context.BindPending | winc_lib.c:690-709 | binds every BINDING slot in order and leaves states as they were |
| WincLib.Context.BindDone | winc_lib.c:710-721 | a BINDING slot becomes BOUND, then LISTEN for a TCP slot or RECVFROM for a UDP one |
| WincLib.Context.RecvfromDone | winc_lib.c:732-738 | the slot takes the sender's address, the handler is called with dlen, then RECVFROM is re-armed |
| WincLib.Context.Accepted | winc_lib.c:739-747 | conn_sock takes the peer address and the listener's handler, becomes CONNECTED and gets a RECV |
| WincLib.Context.RecvDone | winc_lib.c:748-754 | the handler is called with dlen, and RECV is re-armed when dlen > 0 |
| WincLib.Context.InterruptHandler | winc_lib.c:758-858 | the response is read with the clamped length; the flags follow ConnAfter, data addresses are recorded, then check_sock acts, even on a failed read |
| WincLib.Context.TrackConnection | winc_lib.c:784-825 | the connection flags become ConnAfter of the response |
| WincLib.Context.RecordDataAddr | winc_lib.c:826-846 | the slots become DataAddrAfter of the response |
| WincLib.Context.GetNodeCount | winc_lib.c:1049-1056 | counts the active routes below route_count; under the invariant that is every active route |
| WincMesh.Zeros | winc_mesh.c:328 | memset leaves n zero bytes |
| WincMesh.UpdateRoute | winc_mesh.c:485-524 | the table after the call is Update of the old table, and the invariant is kept |
| WincMesh.ScanSlots | winc_mesh.c:491-499 | the loop finds the node's active slot and, when there is none, the first inactive slot |
| WincMesh.FindRoute | winc_mesh.c:527-541 | returns NextHop of the table, and -1 exactly when no slot below route_count is a candidate |
| WincMesh.ScanBest | winc_mesh.c:528-538 | the loop ends on BestSlot over route_count slots |
| WincMesh.BeaconOf | winc_mesh.c:328-347 | the beacon built has the packed sizes |
| WincMesh.SendOnMeshSocket | winc_lib.c:612-646 | sends the bytes with put_sock_sendto on the mesh socket |
| WincMesh.SendBeacon | winc_mesh.c:307-357 | when enabled with a BOUND socket, sends one beacon and consumes one sequence number; otherwise sends nothing and consumes none |
| WincMesh.BuildBeacon | winc_mesh.c:328-347 | the bytes are the encoded beacon: type BEACON, dst 0xFF, payload_len 26, the id, the copied name and the one-hop neighbours in table order |
| WincMesh.CollectNeighbors | winc_mesh.c:341-347 | the neighbour array is exactly the active one-hop routes below route_count, zero-padded, with their count |
| WincMesh.HandleBeacon | winc_mesh.c:360-384 | the table becomes ApplyBeacon: a one-hop route to the sender, then a two-hop route through it for each listed neighbour other than this node; the invariant is kept |
| WincMesh.DataPacket | winc_mesh.c:420-429 | the packet is the 8-byte header followed by exactly the payload |
| WincMesh.DataPacketDecodes | winc_mesh.c:420-426 | the header reads back as DATA from this node with hop count 0, the sequence number and len |
| WincMesh.MeshSend | winc_mesh.c:387-443 | without the mesh, the socket or a route nothing is sent and no sequence number is used; otherwise one DATA packet is sent with the next sequence number |
| WincMesh.RoutePacket | winc_mesh.c:446-482 | the events are RelayEvents: delivery when addressed here; a drop at hop count 4 or more or without a route; otherwise the packet forwarded with hop count + 1 |
| WincMesh.ForwardingIsBounded | winc_mesh.c:458-474 | every relay adds one hop and changes nothing else, so a packet is relayed at most 4 times |
| WincMesh.RxBuffer | winc_mesh.c:547-562 | the buffer starts with the received bytes |
| WincMesh.CheckedBeacon | winc_mesh.c:571-575 | a beacon is read only when whole, with at most 8 neighbours, all of them from the datagram |
| WincMesh.CheckedData | winc_mesh.c:577-589 | a DATA payload is exactly payload_len received bytes: delivered for this node or broadcast, relayed otherwise |
| WincMesh.DispatchedBeaconWithin | winc_mesh.c:571-575 | the checked dispatch reads a beacon's neighbours only from the datagram, at most 8 |
| WincMesh.DispatchedDeliverWithin | winc_mesh.c:578-584 | a delivered payload is exactly payload_len received bytes |
| WincMesh.DispatchedRelayWithin | winc_mesh.c:585-588 | a relayed payload is exactly payload_len received bytes |
| WincMesh.DispatchAgreesOnWellFormed | winc_mesh.c:546-596 | on a well-formed datagram the checked dispatch and the source's agree, whatever the buffer held before |
| WincMesh.UnclampedNeighborCount | winc_mesh.c:374-375 | a beacon with neighbor_count 9 makes the source install a route the sender never advertised |
| WincMesh.UncheckedPayloadLen | winc_mesh.c:577-588 | an unchecked payload_len delivers stale buffer bytes or forwards more than the buffer |
| WincMesh.DataPacketArrives | winc_mesh.c:420-429 | a packet winc_mesh_send builds is delivered whole at its destination (or everywhere for 0xFF) and relayed unchanged elsewhere |
| WincMesh.DataPacketWellFormed | winc_mesh.c:420-429 | such a packet is well formed, so the source dispatches it the same way |
| WincMesh.BeaconArrives | winc_mesh.c:328-347 | a built beacon is well formed and its receiver learns the sender and exactly the advertised neighbours |
| WincMesh.PacketHandler | winc_mesh.c:546-596 | the datagram is dispatched as the source does (SourceDispatch), over the 1600-byte buffer whose earlier contents are a parameter: a beacon updates the table by ApplyBeacon with neighbor_count neighbours; DATA is delivered to the callback or relayed with payload_len bytes; anything else, rxlen of 0 or less, or a failed read changes nothing; the invariant is kept. On a well-formed datagram this is the checked dispatch (DispatchAgreesOnWellFormed) |
| WincMesh.Process | winc_mesh.c:601-630 | disabled: nothing changes; enabled: a beacon when now - last_beacon > 5000 (uint32_t), then last_beacon = now, then the expiry sweep; the invariant is kept |
| WincMesh.BeaconTick | winc_mesh.c:613-619 | a beacon once the interval has elapsed; last_beacon becomes now whether or not it was sent |
| WincMesh.ExpireRoutes | winc_mesh.c:621-629 | the slots become Sweep of the old slots and the invariant is kept |
| WincMesh.MeshStart | winc_mesh.c:260-293 | without a connection and DHCP, fails and changes nothing; otherwise opens the lowest free UDP slot and enables the mesh exactly when one was free |
| Crc32.StepBranches | test/test_tcp.c:49-55 | one register step is the branch of the inner loop: shift and xor 0xEDB88320 when bit 0 is set, plain shift otherwise |
| Crc32.RowsSized | winc_telemetry.c:19-115 | the table has 256 entries |
| Crc32.TableEntry | winc_telemetry.c:19-115 | every table entry is its index pushed through eight register steps |
| Crc32.TableEntry80 | winc_telemetry.c:69 | entry 0x80 is the polynomial 0xEDB88320 |
| Crc32.UpdatesAgree | winc_telemetry.c:121-123 | the table lookup and eight bitwise steps update the register alike for every register and byte |
| Crc32.FoldsAgree | winc_telemetry.c:117-127 | the table fold and the bitwise fold agree on every input |
| Crc32.CrcImplementationsAgree | test/test_tcp.c:44-59 | calc_crc32_simple and calculate_crc32 give the same CRC on every byte sequence |
| Crc32.CheckValues | winc_telemetry.c:117-127 | both give 0 on empty input and 0xCBF43926 on ASCII "123456789" |
| Crc32.CalculateCrc32 | winc_telemetry.c:117-127 | the loop computes Crc(data) |
| TcpTest.CalcCrc32Simple | test/test_tcp.c:44-59 | the nested loops compute the bitwise CRC, equal to Crc(data) |
| TcpTest.SimpleCheckValues | test/test_tcp.c:44-59 | the bitwise CRC gives 0 on empty input and 0xCBF43926 on "123456789" |
| TcpTest.ParseImage | test/test_tcp.c:36-41 | reading the fields of a packet's 268-byte image gives the packet back |
| TcpTest.ImageParse | test/test_tcp.c:36-41 | every 268-byte image is the image of the packet read from it |
| TcpTest.TailUnchecked | test/test_tcp.c:80-83 | changing any of the last 4 data bytes never changes the as-written verdict |
| TcpTest.CorruptedTailAccepted | test/test_tcp.c:80-83 | a packet accepted as written stays accepted with its last data byte corrupted |
| TcpTest.CrcFieldChecked | test/test_tcp.c:80-83 | the as-written region contains the crc field: storing another value changes it |
| TcpTest.Covered | test/test_tcp.c:80-83 | the corrected region is 264 bytes |
| TcpTest.CrcFieldNotCovered | test/test_tcp.c:80-83 | the corrected region does not depend on the crc field |
| TcpTest.StampedPasses | test/test_tcp.c:103-104 | a stamped packet passes the corrected check, and stamping changes only the crc field |
| TcpTest.CoveredDetermines | test/test_tcp.c:36-41 | the corrected region covers every byte but the crc field |
| TcpTest.PatternsComplement | test/test_tcp.c:278-302 | the UDP pattern byte is the complement of the TCP pattern byte at the same index |
| TcpTest.TcpPatternIndex | test/test_tcp.c:278-280 | xor with the sequence number's low byte recovers the index from a TCP pattern byte |
| TcpTest.FillPattern | test/test_tcp.c:278-280 | the fill loop writes exactly the pattern for the sequence number |
| TcpTest.BuildPacket | test/test_tcp.c:271-283 | the packet built is Outgoing of the sequence number and the time |
| TcpTest.OutgoingPasses | test/test_tcp.c:274-283 | the outgoing packet carries the sequence number, the send time and the pattern, and passes the corrected check (`Passes`, not the handler's check as written) |
| TcpTest.Add32 | test/test_tcp.c:77 | uint32_t addition wraps at 2^32 |
| TcpTest.Elapsed | test/test_tcp.c:90 | now - timestamp in uint32_t is the time forward from the timestamp to now, across one clock wrap |
| TcpTest.RecordLatency | test/test_tcp.c:92-96 | max widened to the sample, min narrowed or set when 0, average the uint32_t sum halved; nothing else changes |
| TcpTest.AverageBetween | test/test_tcp.c:96 | without wrap the new average lies between the old average and the sample |
| TcpTest.AverageWraps | test/test_tcp.c:96 | the sum can wrap: average 0xFFFFFFFF with sample 2 gives 0 |
| TcpTest.Echo | test/test_tcp.c:101-104 | the reply keeps the sequence and data, carries the receive time, and its crc is the CRC of the first 264 bytes of the reply as it stood with the received crc still in it |
| TcpTest.EchoCoversReceivedCrc | test/test_tcp.c:101-104 | the received crc is among the bytes the reply's CRC covers: packets differing only in their crc are stamped over different bytes |
| TcpTest.Classify | test/test_tcp.c:62-112 | closed exactly when rxlen is 0 or less, unread exactly when the read fails, a CRC error exactly when the check as written (the first 264 bytes, crc field included) fails; otherwise accepted with the latency and the reply `Echo(p, now)`, re-stamped over the first 264 bytes |
| TcpTest.TcpSendCount | test/test_tcp.c:285-291 | a TCP send counts a packet and 268 bytes, a failure one error |
| TcpTest.UdpSendCount | test/test_tcp.c:307-310 | a UDP send counts a packet; a failure is not counted |
| TcpTest.HandlerStats | test/test_tcp.c:62-117 | rxlen of 0 or less counts one TCP error; a read packet counts a packet and rxlen bytes; a CRC error counts one; an echo counts as sent or as an error; on acceptance max and min latency are updated as the source does and the average is the uint32_t sum halved, otherwise they are kept; tcp_connections and the UDP counters never change |
| TcpTest.SendStats | test/test_tcp.c:265-312 | only the send counters of the branches taken change |
| TcpTest.TestProgram.TcpTestHandler | test/test_tcp.c:62-117 | rxlen of 0 or less: the slot becomes CLOSED, nothing is sent and no receive is re-armed; otherwise the check and the echo over the first 264 bytes as Classify states, then RECV re-armed; statistics follow HandlerStats |
| TcpTest.TestProgram.SendTestPackets | test/test_tcp.c:265-312 | a TCP packet when the client is CONNECTED, then a UDP one when the socket is BOUND, each consuming one sequence number |
| Telemetry.SetCrcReadsBack | winc_telemetry.h:32-37 | the crc32 field reads back what was stored and no other byte changes |
| Telemetry.CrcFieldInsideRegion | winc_telemetry.c:143-146 | the CRC region [4, 1048) contains the crc32 field at 16: storing another value changes the region |
| Telemetry.Copies | winc_telemetry.c:160 | three copies exactly for CRITICAL, otherwise one |
| Telemetry.ChannelFor | winc_telemetry.c:168-175 | TCP exactly for CRITICAL and HIGH priority, otherwise UDP with the priority |
| Telemetry.StampFacts | winc_telemetry.c:163-165 | a stamped copy carries redundancy_id i and the CRC of its region; retry_count and everything outside the integrity block are kept |
| Telemetry.SentCopyFacts | winc_telemetry.c:162-175 | copy k goes out with redundancy_id k, a fresh CRC and the caller's header and payload |
| Telemetry.RoundsKeepRest | winc_telemetry.c:162-182 | the rounds change only the crc32, redundancy_id and retry_count fields |
| Telemetry.RetryCountGrowth | winc_telemetry.c:177-181 | retry_count grows by the counted retransmissions only: none from 3 on; otherwise it ends at min(3, start + failed sends) |
| Telemetry.RetryInc | winc_telemetry.c:177-178 | an increment below MAX_RETRIES does not wrap |
| Telemetry.AddU32Add | winc_telemetry.h:74-78 | uint32_t counter increments compose |
| Telemetry.RingPush | winc_telemetry.c:551-559 | writing at head and advancing it appends to the queue, as long as it holds fewer than 31 |
| Telemetry.RingFull | winc_telemetry.c:551-553 | next_head == tail exactly when the ring holds 31 packets |
| Telemetry.RingPop | winc_telemetry.c:576-577 | advancing tail drops the oldest packet |
| Telemetry.RingEmpty | winc_telemetry.c:572 | head == tail exactly when the ring is empty |
| Telemetry.VoteIsIntact | winc_telemetry.c:187-218 | the vote returns only a copy that passes the integrity check |
| Telemetry.VoteNoneIff | winc_telemetry.c:187-218 | the vote returns NULL exactly when no copy passes |
| Telemetry.VotePrefersAgreement | winc_telemetry.c:197-212 | with two or more copies, the first intact copy that a later intact copy confirms (same first length payload bytes) wins |
| Telemetry.AllCorruptCountsEach | winc_telemetry.c:187-218 | when every copy fails, each adds exactly one to crc_errors |
| Telemetry.AllIntactCountsNone | winc_telemetry.c:187-218 | when every copy passes, crc_errors does not move |
| Telemetry.CorruptAfterIntactCountsTwice | winc_telemetry.c:197-204 | an intact copy followed by a corrupt one counts the corrupt one twice (outer and inner loop) |
| Telemetry.TelemetryContext.constructor | winc_telemetry.c:584 | the zeroed context: empty rings, zero counters |
| Telemetry.TelemetryContext.VerifyPacketIntegrity | winc_telemetry.c:141-154 | true exactly when the stored crc32 equals the CRC of bytes [4, 1048); on a mismatch crc_errors grows by one |
| Telemetry.TelemetryContext.EnqueuePacket | winc_telemetry.c:544-563 | succeeds exactly when the ring holds fewer than 31 packets; the packet is then appended; the other ring is untouched; a full ring changes nothing |
| Telemetry.TelemetryContext.DequeuePacket | winc_telemetry.c:565-580 | returns the oldest packet and removes it, or nothing when the ring is empty; the other ring is untouched |
| Telemetry.TelemetryContext.SendWithRedundancy | winc_telemetry.c:156-185 | sends Copies(priority) stamped copies on ChannelFor(priority); the packet ends as Rounds; retransmissions grow by the counted retries; the result is the last send's |
| Telemetry.TelemetryContext.RecoverFromRedundancy | winc_telemetry.c:187-218 | returns the Vote and adds FailedChecks, the failed integrity checks of both loops, to crc_errors |
| Telemetry.TelemetryContext.VoteScan | winc_telemetry.c:194-217 | the nested loops compute the vote for two or more copies and count their failed checks |

## Left out

- The SPI transport (`spi_xfer`, register and data reads and writes, `disable_crc`), `hif_start`, `hif_rx_done`, `chip_init`, `chip_get_info` and `chip_interrupt_enable`. These are hardware I/O. `hif_put` is modelled as appending its framed message to a log, and its success is left open; its register writes, among them the `addr << 2 | 2` written to RCV_CTRL_REG3, belong to that transport.
- `get_sock_data` and `hif_get` read chip memory. Their success and the bytes read are parameters of the handlers that use them (`readOk`/`got` and `rx`/`p`).
- `winc_init`, `winc_start_ap`, `winc_connect_sta`, `join_net`, the P2P and WPS helpers, and the timed wait loops of `winc_mesh_init` (winc_mesh.c:220-258 and 278-291). These depend on the hardware and the wall clock. `WincMesh.MeshStart` models what follows the wait.
- The clock: `to_ms_since_boot` is the parameter `now`; TcpTest.TestProgram.SendTestPackets takes one reading per branch (`tcpNow`, `udpNow`), as test/test_tcp.c:275 and 297 read it twice. WincMesh.HandleBeacon takes one `now` for every route update of a beacon, while `mesh_update_route` reads the clock itself on each call (winc_mesh.c:486), so in the source a later update of the same beacon can record a later `last_seen`. `sleep_ms`, the backoff in `send_with_redundancy`, and all `printf`/`dump_hex` logging and the print functions have no effect on state.
- GOP_AP_ENABLE, GOP_DHCP_CONF_AP and GOP_AP_ASSOC_INFO are used in winc_lib.c but defined in none of its files. They are the parameter `ApGops`, assumed distinct from the defined codes where a lemma needs it.
- The interrupt handler's register reads (winc_lib.c:770-773) are the parameters `hdrOk` and `addr`; the response body is read only when the header read succeeded.
- `winc_mesh.c` re-declares the driver context with another field order. The model follows the one context of winc_lib.c.
- The mesh data callback is an `Event` (a `MeshDelivery`) and the socket handlers are `SockCall` events. What the application does with them is not modelled.
- `malloc`/`free` in `winc_mesh_send`: the packet is a byte sequence, and allocation never fails here.
- WincMesh.MeshSend requires `|data| == len`: the source copies `len` bytes from the caller's buffer, and a shorter buffer is undefined behaviour.
- WincLib.SockErrStr requires `err > INT_MIN`: negating INT_MIN is undefined behaviour in C.
- `tcp_echo_handler` and `udp_echo_handler` (winc_lib.c:663-683) are example handlers outside the driver's logic, and are not modelled.
- winc_telemetry.c: `core1_network_handler`, the mutexes and second core, the watchdog, `telemetry_init` beyond zeroing the context, `telemetry_shutdown`, `tcp_client_connect`, `process_ap_mode`/`process_p2p_mode`, `calculate_crc32_hw` (an ARM intrinsic and a DMA register), `tcp_send_critical`, `udp_send_telemetry` and the float `packet_loss_rate`. These are concurrency, hardware or transport; a send's outcome is the parameter `results`.
- winc_telemetry.h does not compile as written (`typdef`, `REDUNDUNCY_FACTOR`, `dst node`, queues declared as arrays of packet addresses). The model follows its evident intent: two rings of 32 packet slots, REDUNDANCY_FACTOR 3, MAX_RETRIES 3. The misspelled `dst node` field is read as a 16-bit field at offset 10, so with flags and two bytes of alignment padding the integrity block starts at offset 16 and the image is 1048 bytes.
- Telemetry.TelemetryContext.VerifyPacketIntegrity follows the code as written: the CRC region [4, 1048) contains the crc32 field at offset 16 (`Telemetry.CrcFieldInsideRegion`), although the comment says the field is excluded. A packet stamped by `send_with_redundancy` therefore passes only if its CRC happens to be a fixed point, so no stamp-then-verify round trip is claimed for telemetry packets.
- The CRC table is stored as sixteen rows of sixteen entries. Each entry is proved equal to eight register steps of its index.
- WincMesh.PacketHandler: `get_sock_data` copies `rxlen` bytes into a 1600-byte stack buffer, so an `rxlen` above 1600 overflows it in the source. The model drops such a datagram. A DATA payload_len that runs past the end of that buffer is cut at the buffer's end: the bytes the source reads beyond it are not modelled.
- TcpTest.TestProgram.TcpTestHandler: `get_sock_data` copies `rxlen` bytes into a 268-byte stack packet, so an `rxlen` above 268 overflows the stack in the source. The model reads the packet as a 268-byte value whatever `rxlen` is.
- Telemetry.VotePrefersAgreement: the payload match `SamePayload` compares min(length, 1024) payload bytes. `memcmp(packets[i].payload, packets[j].payload, packets[i].length)` (winc_telemetry.c:205-206) compares `length` bytes, and `length` is a uint16_t that `telemetry_send` stores unclamped (winc_telemetry.c:428-434). Above 1024 the source reads on into the next copies of the array, or past its end, which is undefined behaviour. The model does not capture those bytes.
- Telemetry.TelemetryContext.RecoverFromRedundancy: its vote uses the same capped match as VotePrefersAgreement, so for a copy whose length exceeds 1024 it can find a match that the source's memcmp, reading past the payload, would not.
- Telemetry.TelemetryContext.VoteScan: the inner loop's comparison is the capped `SamePayload` described above.
- Telemetry.TelemetryContext.DequeuePacket returns a copy of the oldest packet. `dequeue_packet` returns the address of its ring slot (winc_telemetry.c:576-579), so in the source a later enqueue that refills the ring can overwrite what the caller holds. That aliasing is not modelled.
- TcpTest.BuildPacket: `send_test_packets` uses one stack `packet` for both branches (test/test_tcp.c:268), and its CRC is computed over a region that contains the crc field. In the TCP branch, and in the UDP branch when the TCP branch was skipped, that field is uninitialised; after a TCP send the UDP CRC (test/test_tcp.c:304) covers the TCP packet's CRC stored at test/test_tcp.c:282. The model stamps both packets with the corrected region, over which that field has no influence.
- The test drivers `tcp_accept_handler`, `udp_test_handler`, `test_tcp_server`, `test_tcp_client`, `test_udp`, `print_statistics` and `main` of test/test_tcp.c, as well as example_mesh_node.c and WINC1500_PICO2.c, do I/O and sleep. They are not modelled.

## Findings

| source | as written | input that shows it | evidently intended | confidence | as-written member | corrected member |
|---|---|---|---|---|---|---|
| winc_mesh.c:374-383 | the beacon loop runs to neighbor_count, taken from the packet, with no bound of 8 and no check that the datagram holds a whole beacon | a 34-byte beacon from node 5 listing 8 neighbours with neighbor_count 9: the count byte is read as a ninth neighbour, and a two-hop route to node 9 is installed | read at most 8 neighbours, and only from a received beacon | not executed | WincMesh.UnclampedNeighborCount | WincMesh.DispatchedBeaconWithin |
| winc_mesh.c:577-588 | payload_len is never compared with rxlen or with the 1600-byte buffer | the 8-byte DATA header [2, 3, 1, 0, 0, 0, 4, 0] hands the callback 4 stale buffer bytes; payload_len 0xFFFF to another node forwards more than the buffer | deliver or relay only payload_len bytes that were received | not executed | WincMesh.UncheckedPayloadLen | WincMesh.DispatchedDeliverWithin |
| test/test_tcp.c:80-83 | the CRC is computed over the first sizeof(packet) - 4 bytes, which contain the crc field (offset 8) and leave out the last 4 data bytes | a packet that passes still passes with its last data byte inverted; a packet stamped by the receiver's own code fails unless its CRC is a fixed point | compute the CRC over every byte but the crc field | not executed | TcpTest.CorruptedTailAccepted | TcpTest.StampedPasses |

The handlers run the code as written: `WincMesh.PacketHandler` dispatches with `SourceDispatch`, and `TcpTest.TestProgram.TcpTestHandler` checks and re-stamps over the first 264 bytes. The corrected definitions are what the lemmas about well-formed datagrams and built packets use (`DispatchAgreesOnWellFormed`, `DataPacketArrives`, `BeaconArrives`, `OutgoingPasses`).

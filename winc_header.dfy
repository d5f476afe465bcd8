/** Constants, byte-packing helpers and packed wire layouts shared by the
    WINC1500 driver and its mesh layer (winc_lib.h).

    C's fixed-width unsigned types are modelled as bit-vectors, so that
    truncation and wrap-around are the bit-vector's own. */
module WincHeader {

  type Byte = bv8
  type U16 = bv16
  type U32 = bv32

  /** The smaller of two lengths, as the sources' MIN. */
  function Min(a: int, b: int): int {
    if a < b then a else b
  }

  // ---------------------------------------------------------------- mesh

  const MeshPort: U16 := 1025
  const BeaconIntervalMs: U32 := 5000
  const RouteTimeoutMs: U32 := 30000
  /** Number of routing-table slots (WINC_MESH_MAX_NODES). */
  const MaxNodes: nat := 8

  const MsgBeacon: Byte := 0x01
  const MsgData: Byte := 0x02
  const MsgRouteReq: Byte := 0x03
  const MsgRouteResp: Byte := 0x04

  /** Node id used as the broadcast destination. */
  const Broadcast: Byte := 0xFF

  /** One routing-table slot (winc_route_t). */
  datatype Route = Route(nodeId: Byte, nextHop: Byte, hopCount: Byte, lastSeen: U32, active: bool)

  /** The all-zero slot that memset leaves behind. */
  const EmptyRoute: Route := Route(0, 0, 0, 0, false)

  // ------------------------------------------------------- host interface

  const GidWifi: Byte := 1
  const GidIp: Byte := 2

  /** GIDOP(gid, op): group id in the high byte, operation in the low byte. */
  function GidOp(gid: Byte, op: Byte): (gop: U16)
    ensures (gop >> 8) as Byte == gid && (gop & 0xFF) as Byte == op
  {
    ((gid as U16) << 8) | (op as U16)
  }

  /** The gid/op codes the driver uses, written out. */
  const GopStateChange: U16 := 0x012C
  const GopDhcpConf: U16 := 0x0132
  const GopBind: U16 := 0x0241
  const GopListen: U16 := 0x0242
  const GopAccept: U16 := 0x0243
  const GopSend: U16 := 0x0245
  const GopRecv: U16 := 0x0246
  const GopSendto: U16 := 0x0247
  const GopRecvfrom: U16 := 0x0248
  const GopClose: U16 := 0x0249

  /** Each code is GIDOP of its group and operation number. */
  lemma {:induction false} GopCodes()
    ensures GopStateChange == GidOp(GidWifi, 44) && GopDhcpConf == GidOp(GidWifi, 50)
    ensures GopBind == GidOp(GidIp, 65) && GopListen == GidOp(GidIp, 66)
    ensures GopAccept == GidOp(GidIp, 67) && GopSend == GidOp(GidIp, 69)
    ensures GopRecv == GidOp(GidIp, 70) && GopSendto == GidOp(GidIp, 71)
    ensures GopRecvfrom == GidOp(GidIp, 72) && GopClose == GidOp(GidIp, 73)
  {
  }

  const HifHdrSize: nat := 8
  /** Flag or-ed into a gid/op code when the message carries a data block. */
  const ReqData: U16 := 0x80

  // -------------------------------------------------------------- sockets

  const MinTcpSock: nat := 0
  const MaxTcpSock: nat := 7
  const MinUdpSock: nat := 7
  const MaxUdpSock: nat := 10
  const MaxSockets: nat := 10
  const IpFamily: U16 := 2

  const StateClosed: int := 0
  const StateBinding: int := 1
  const StateBound: int := 2
  const StateAccepted: int := 3
  const StateConnected: int := 4

  const UdpDataOset: nat := 68
  const TcpDataOset: nat := 80

  predicate IsTcpSock(i: int) { MinTcpSock <= i < MaxTcpSock }
  predicate IsUdpSock(i: int) { MinUdpSock <= i < MaxUdpSock }

  /** The TCP and UDP ranges split the socket table: every index of the
      table is in exactly one of them, and nothing outside it is in either. */
  lemma {:induction false} SocketRangesPartition(i: int)
    ensures IsTcpSock(i) || IsUdpSock(i) <==> 0 <= i < MaxSockets
    ensures !(IsTcpSock(i) && IsUdpSock(i))
  {
  }

  // ---------------------------------------------------------- byte packing

  /** The byte of value `x`, counted up from 0. */
  function ByteFor(x: int): (b: Byte)
    requires 0 <= x < 0x100
    ensures b as int == x
  {
    if x == 0 then 0 else ByteFor(x - 1) + 1
  }

  /** A byte converted from a small integer keeps its value. */
  lemma {:induction false} ByteOfInt(x: int)
    requires 0 <= x < 0x100
    ensures (x as Byte) as int == x
  {
    var b := ByteFor(x);
    assert x as Byte == b;
  }

  /** A 16-bit value taken to an int and truncated back to 16 bits is
      itself. */
  lemma {:induction false} U16RoundTrip(v: U16)
    ensures ((v as int) % 0x1_0000) as U16 == v
  {
    U16Range(v);
    SmallMod(v as int, 0x1_0000);
    assert (v as int) as U16 == v;
  }

  lemma {:induction false} U16Range(v: U16)
    ensures 0 <= v as int < 0x1_0000
  {
  }

  lemma {:induction false} SmallMod(x: int, m: int)
    requires 0 <= x < m
    ensures x % m == x
  {
  }

  /** Two bytes of the same value are the same byte. */
  lemma {:induction false} ByteValueInjective(a: Byte, b: Byte)
    requires a as int == b as int
    ensures a == b
  {
    assert (a as int) as Byte == a;
    assert (b as int) as Byte == b;
  }

  /** Low byte of a 32-bit value, as a cast to uint8_t keeps it. */
  function Low8(v: U32): Byte { (v & 0xFF) as Byte }

  /** U16_DATA: the low 16 bits of `v`, most significant byte first. */
  function U16Bytes(v: U32): (r: seq<Byte>)
    ensures |r| == 2
  {
    [Low8(v >> 8), Low8(v)]
  }

  /** U24_DATA: the low 24 bits of `v`, most significant byte first. */
  function U24Bytes(v: U32): (r: seq<Byte>)
    ensures |r| == 3
  {
    [Low8(v >> 16), Low8(v >> 8), Low8(v)]
  }

  /** U32_DATA: all of `v`, most significant byte first. */
  function U32Bytes(v: U32): (r: seq<Byte>)
    ensures |r| == 4
  {
    [Low8(v >> 24), Low8(v >> 16), Low8(v >> 8), Low8(v)]
  }

  /** DATA_U32: reads four bytes as a big-endian word. */
  function DataU32(d: seq<Byte>): U32
    requires |d| >= 4
  {
    ((d[0] as U32) << 24) | ((d[1] as U32) << 16) | ((d[2] as U32) << 8) | (d[3] as U32)
  }

  /** RSP_U32: reads the four bytes at `n` as a little-endian word. */
  function RspU32(d: seq<Byte>, n: nat): U32
    requires n + 4 <= |d|
  {
    (d[n] as U32) | ((d[n + 1] as U32) << 8) | ((d[n + 2] as U32) << 16) | ((d[n + 3] as U32) << 24)
  }

  /** The word with its four bytes in the opposite order. */
  function ByteSwap32(v: U32): U32 {
    ((v & 0xFF) << 24) | (((v >> 8) & 0xFF) << 16) | (((v >> 16) & 0xFF) << 8) | (v >> 24)
  }

  lemma {:induction false} U32BytesLow8(v: U32)
    ensures U32Bytes(v) == [(v >> 24) as Byte, ((v >> 16) & 0xFF) as Byte, ((v >> 8) & 0xFF) as Byte, (v & 0xFF) as Byte]
  {
  }

  /** Big-endian round trip: DATA_U32 reads back what U32_DATA wrote. */
  lemma {:induction false} DataU32OfU32Bytes(v: U32)
    ensures DataU32(U32Bytes(v)) == v
  {
    var d := U32Bytes(v);
    assert d[0] as U32 == v >> 24;
    assert d[1] as U32 == (v >> 16) & 0xFF;
    assert d[2] as U32 == (v >> 8) & 0xFF;
    assert d[3] as U32 == v & 0xFF;
  }

  /** The other direction: writing back what DATA_U32 read gives the bytes. */
  lemma {:induction false} U32BytesOfDataU32(d: seq<Byte>)
    requires |d| >= 4
    ensures U32Bytes(DataU32(d)) == d[..4]
  {
    var v := DataU32(d);
    WordList(d[0], d[1], d[2], d[3], v);
    FourBytes(d, U32Bytes(v));
  }

  lemma {:induction false} WordList(a: Byte, b: Byte, c: Byte, e: Byte, v: U32)
    requires v == ((a as U32) << 24) | ((b as U32) << 16) | ((c as U32) << 8) | (e as U32)
    ensures U32Bytes(v) == [a, b, c, e]
  {
    WordBytes(a, b, c, e, v);
  }

  lemma {:induction false} FourBytes(d: seq<Byte>, r: seq<Byte>)
    requires |d| >= 4 && r == [d[0], d[1], d[2], d[3]]
    ensures r == d[..4]
  {
  }

  lemma {:induction false} WordBytes(a: Byte, b: Byte, c: Byte, e: Byte, v: U32)
    requires v == ((a as U32) << 24) | ((b as U32) << 16) | ((c as U32) << 8) | (e as U32)
    ensures Low8(v >> 24) == a && Low8(v >> 16) == b && Low8(v >> 8) == c && Low8(v) == e
  {
  }

  /** RSP_U32 reads little-endian, so on U32_DATA's output it sees the
      byte-reversed word. */
  lemma {:induction false} RspU32OfU32Bytes(v: U32)
    ensures RspU32(U32Bytes(v), 0) == ByteSwap32(v)
  {
    var d := U32Bytes(v);
    assert d[0] as U32 == v >> 24;
    assert d[1] as U32 == (v >> 16) & 0xFF;
    assert d[2] as U32 == (v >> 8) & 0xFF;
    assert d[3] as U32 == v & 0xFF;
  }

  /** U24_DATA and U16_DATA write the tail of what U32_DATA writes for the
      value cut to 24 or 16 bits: higher bits are dropped. */
  lemma {:induction false} NarrowStoresKeepLowBits(v: U32)
    ensures U24Bytes(v) == U32Bytes(v & 0xFF_FFFF)[1..]
    ensures U16Bytes(v) == U32Bytes(v & 0xFFFF)[2..]
    ensures U32Bytes(v & 0xFF_FFFF)[0] == 0 && U32Bytes(v & 0xFFFF)[..2] == [0, 0]
  {
  }

  /** U32_DATA(d, n, v): stores `v` big-endian at `d[n..n+4]`. */
  method StoreU32(d: array<Byte>, n: nat, v: U32)
    requires n + 4 <= d.Length
    modifies d
    ensures d[..] == old(d[..n]) + U32Bytes(v) + old(d[n + 4..])
  {
    d[n] := Low8(v >> 24);
    d[n + 1] := Low8(v >> 16);
    d[n + 2] := Low8(v >> 8);
    d[n + 3] := Low8(v);
    assert d[..] == old(d[..n]) + U32Bytes(v) + old(d[n + 4..]);
  }

  /** U24_DATA(d, n, v). */
  method StoreU24(d: array<Byte>, n: nat, v: U32)
    requires n + 3 <= d.Length
    modifies d
    ensures d[..] == old(d[..n]) + U24Bytes(v) + old(d[n + 3..])
  {
    d[n] := Low8(v >> 16);
    d[n + 1] := Low8(v >> 8);
    d[n + 2] := Low8(v);
    assert d[..] == old(d[..n]) + U24Bytes(v) + old(d[n + 3..]);
  }

  /** U16_DATA(d, n, v). */
  method StoreU16(d: array<Byte>, n: nat, v: U32)
    requires n + 2 <= d.Length
    modifies d
    ensures d[..] == old(d[..n]) + U16Bytes(v) + old(d[n + 2..])
  {
    d[n] := Low8(v >> 8);
    d[n + 1] := Low8(v);
    assert d[..] == old(d[..n]) + U16Bytes(v) + old(d[n + 2..]);
  }

  // ------------------------------------------------- packed mesh layouts

  /** Little-endian bytes of a 16-bit field of a packed struct. */
  function LeBytes16(v: U16): (r: seq<Byte>)
    ensures |r| == 2
  {
    [(v & 0xFF) as Byte, (v >> 8) as Byte]
  }

  function LeU16(lo: Byte, hi: Byte): U16 {
    (lo as U16) | ((hi as U16) << 8)
  }

  lemma {:induction false} LeU16OfLeBytes16(v: U16)
    ensures LeU16(LeBytes16(v)[0], LeBytes16(v)[1]) == v
  {
  }

  lemma {:induction false} LeBytes16OfLeU16(lo: Byte, hi: Byte)
    ensures LeBytes16(LeU16(lo, hi)) == [lo, hi]
  {
  }

  /** winc_mesh_hdr_t. */
  datatype MeshHdr = MeshHdr(msgType: Byte, src: Byte, dst: Byte, hopCount: Byte, seqNum: U16, payloadLen: U16)

  const MeshHdrSize: nat := 8

  function EncodeHdr(h: MeshHdr): (r: seq<Byte>)
    ensures |r| == MeshHdrSize
  {
    [h.msgType, h.src, h.dst, h.hopCount] + LeBytes16(h.seqNum) + LeBytes16(h.payloadLen)
  }

  /** Reads the header at the front of a received buffer. */
  function DecodeHdr(b: seq<Byte>): MeshHdr
    requires |b| >= MeshHdrSize
  {
    MeshHdr(b[0], b[1], b[2], b[3], LeU16(b[4], b[5]), LeU16(b[6], b[7]))
  }

  lemma {:induction false} DecodeEncodeHdr(h: MeshHdr)
    ensures DecodeHdr(EncodeHdr(h)) == h
  {
    LeU16OfLeBytes16(h.seqNum);
    LeU16OfLeBytes16(h.payloadLen);
  }

  lemma {:induction false} EncodeDecodeHdr(b: seq<Byte>)
    requires |b| >= MeshHdrSize
    ensures EncodeHdr(DecodeHdr(b)) == b[..MeshHdrSize]
  {
    LeBytes16OfLeU16(b[4], b[5]);
    LeBytes16OfLeU16(b[6], b[7]);
  }

  /** winc_mesh_beacon_t: header, node id, 16-byte name, 8 neighbour ids and
      the neighbour count. */
  datatype Beacon = Beacon(hdr: MeshHdr, nodeId: Byte, name: seq<Byte>, neighbors: seq<Byte>, neighborCount: Byte)

  const NameSize: nat := 16
  const BeaconSize: nat := 34
  const NodeIdOffset: nat := 8
  const NameOffset: nat := 9
  const NeighborsOffset: nat := 25
  const NeighborCountOffset: nat := 33

  ghost predicate WellSized(b: Beacon) {
    |b.name| == NameSize && |b.neighbors| == MaxNodes
  }

  function EncodeBeacon(b: Beacon): (r: seq<Byte>)
    requires WellSized(b)
    ensures |r| == BeaconSize
    ensures r[..MeshHdrSize] == EncodeHdr(b.hdr)
    ensures r[NodeIdOffset] == b.nodeId
    ensures r[NameOffset..NeighborsOffset] == b.name
    ensures r[NeighborsOffset..NeighborCountOffset] == b.neighbors
    ensures r[NeighborCountOffset] == b.neighborCount
  {
    EncodeHdr(b.hdr) + [b.nodeId] + b.name + b.neighbors + [b.neighborCount]
  }

  function DecodeBeacon(r: seq<Byte>): (b: Beacon)
    requires |r| >= BeaconSize
    ensures WellSized(b)
  {
    Beacon(DecodeHdr(r), r[NodeIdOffset], r[NameOffset..NeighborsOffset],
           r[NeighborsOffset..NeighborCountOffset], r[NeighborCountOffset])
  }

  lemma {:induction false} DecodeEncodeBeacon(b: Beacon)
    requires WellSized(b)
    ensures DecodeBeacon(EncodeBeacon(b)) == b
  {
    var r := EncodeBeacon(b);
    assert r[..MeshHdrSize] == EncodeHdr(b.hdr);
    DecodeEncodeHdr(b.hdr);
    assert DecodeHdr(r) == DecodeHdr(r[..MeshHdrSize]);
  }

  lemma {:induction false} EncodeDecodeBeacon(r: seq<Byte>)
    requires |r| >= BeaconSize
    ensures EncodeBeacon(DecodeBeacon(r)) == r[..BeaconSize]
  {
    var b := DecodeBeacon(r);
    EncodeDecodeHdr(r);
    assert EncodeBeacon(b) == r[..MeshHdrSize] + [r[8]] + r[9..25] + r[25..33] + [r[33]];
  }

  /** strncpy(dst, src, NameSize - 1) into a zeroed NameSize-byte field, as
      winc_mesh_init and mesh_send_beacon do: the bytes of `src` before its
      first NUL (or its end) are copied, at most NameSize - 1 of them, and
      every other byte of the field, the last one included, is NUL. */
  function StrnCopy(src: seq<Byte>): (r: seq<Byte>)
    ensures |r| == NameSize && r[NameSize - 1] == 0
  {
    seq(NameSize, i requires 0 <= i < NameSize =>
      if i < NameSize - 1 && i < |src| && 0 !in src[..i + 1] then src[i] else 0)
  }

  /** A name of fewer than NameSize bytes without a NUL is copied whole and
      padded with NULs. */
  lemma {:induction false} StrnCopyKeepsShortName(src: seq<Byte>)
    requires |src| < NameSize && 0 !in src
    ensures StrnCopy(src)[..|src|] == src
    ensures forall i :: |src| <= i < NameSize ==> StrnCopy(src)[i] == 0
  {
    forall i | 0 <= i < |src|
      ensures StrnCopy(src)[i] == src[i]
    {
      assert 0 !in src[..i + 1] by {
        assert forall x :: x in src[..i + 1] ==> x in src;
      }
    }
  }

  /** Copying a copied name changes nothing: the beacon carries exactly the
      name winc_mesh_init stored. */
  lemma {:induction false} StrnCopyIdempotent(src: seq<Byte>)
    ensures StrnCopy(StrnCopy(src)) == StrnCopy(src)
  {
    var r := StrnCopy(src);
    forall i | 0 <= i < NameSize - 1
      ensures StrnCopy(r)[i] == r[i]
    {
      StrnCopyPrefix(src, i);
    }
  }

  lemma {:induction false} StrnCopyPrefix(src: seq<Byte>, i: nat)
    requires i < NameSize - 1
    ensures (0 !in StrnCopy(src)[..i + 1]) == (i < |src| && 0 !in src[..i + 1])
  {
    var r := StrnCopy(src);
    assert r[..i + 1] == r[..i] + [r[i]];
    if i < |src| {
      assert src[..i + 1] == src[..i] + [src[i]];
    }
    if i > 0 {
      StrnCopyPrefix(src, i - 1);
    }
  }

  // -------------------------------------------------------------- sequences

  /** Appending to a log regroups freely. */
  lemma AppendAssoc<T>(a: seq<T>, b: seq<T>, c: seq<T>)
    ensures (a + b) + c == a + (b + c)
  {
  }
}

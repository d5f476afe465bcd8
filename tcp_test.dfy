/** The socket test program (test/test_tcp.c): its bitwise CRC-32, the
    test packet it sends and echoes, the test patterns and the statistics
    its handlers keep. */
module TcpTest {
  import opened WincHeader
  import opened Crc32
  import opened WincLib
  import Telemetry

  // ------------------------------------------------------ calc_crc32_simple

  /** `n` single-bit steps of the register. */
  function Steps(c: U32, n: nat): U32
    decreases n
  {
    if n == 0 then c else Step(Steps(c, n - 1))
  }

  lemma {:induction false} StepsNext(c: U32, n: nat, x: U32, y: U32)
    requires x == Steps(c, n) && y == Step(x)
    ensures y == Steps(c, n + 1)
  {
  }

  /** Eight single-bit steps are the per-byte update. */
  lemma {:induction false} StepsEight(c: U32, x: U32)
    requires x == Steps(c, 8)
    ensures x == EightSteps(c)
  {
    var s1 := Step(c);
    var s2 := Step(s1);
    var s3 := Step(s2);
    var s4 := Step(s3);
    var s5 := Step(s4);
    var s6 := Step(s5);
    var s7 := Step(s6);
    assert Steps(c, 1) == s1;
    assert Steps(c, 2) == s2;
    assert Steps(c, 3) == s3;
    assert Steps(c, 4) == s4;
    assert Steps(c, 5) == s5;
    assert Steps(c, 6) == s6;
    assert Steps(c, 7) == s7;
  }

  /** One pass of the outer loop extends the fold by one byte. */
  lemma {:induction false} BitwiseFoldNext(data: seq<Byte>, i: int, before: U32, x: U32, after: U32)
    requires 0 <= i < |data| && before == BitwiseFold(0xFFFF_FFFF, data[..i])
    requires x == before ^ data[i] as U32 && after == Steps(x, 8)
    ensures after == BitwiseFold(0xFFFF_FFFF, data[..i + 1])
  {
    StepsEight(x, after);
    assert data[..i + 1][..i] == data[..i];
  }

  /** `~crc` is the final complement. */
  lemma {:induction false} NotIsFinish(x: U32, y: U32)
    requires y == !x
    ensures y == Finish(x)
  {
  }

  /** calc_crc32_simple: eight conditional shifts per byte; the result is
      the CRC-32 of the input, the same value the table-driven
      calculate_crc32 computes. */
  method CalcCrc32Simple(data: seq<Byte>) returns (crc: U32)
    ensures crc == BitwiseCrc(data) && crc == Crc(data)
  {
    crc := 0xFFFF_FFFF;
    var i := 0;
    while i < |data|
      invariant 0 <= i <= |data|
      invariant crc == BitwiseFold(0xFFFF_FFFF, data[..i])
    {
      ghost var before := crc;
      crc := crc ^ data[i] as U32;
      ghost var x := crc;
      var j := 0;
      while j < 8
        invariant 0 <= j <= 8 && crc == Steps(x, j)
      {
        ghost var c := crc;
        if crc & 1 == 1 {
          crc := (crc >> 1) ^ 0xEDB8_8320;
        } else {
          crc := crc >> 1;
        }
        StepBranches(c);
        StepsNext(x, j, c, crc);
        j := j + 1;
      }
      BitwiseFoldNext(data, i, before, x, crc);
      i := i + 1;
    }
    assert data[..|data|] == data;
    ghost var register := crc;
    crc := !crc;
    NotIsFinish(register, crc);
    CrcImplementationsAgree(data);
  }

  /** The empty input gives 0 and "123456789" the check value 0xCBF43926. */
  lemma {:induction false} SimpleCheckValues()
    ensures BitwiseCrc([]) == 0
    ensures BitwiseCrc([0x31, 0x32, 0x33, 0x34, 0x35, 0x36, 0x37, 0x38, 0x39]) == 0xCBF4_3926
  {
    CheckValues();
  }

  // ------------------------------------------------------- test_packet_t

  const DataSize: nat := 256
  /** sizeof(test_packet_t): three words and the data. */
  const PacketSize: nat := 268
  const CrcOffset: nat := 8
  const DataOffset: nat := 12
  /** sizeof(packet) - sizeof(uint32_t): what calc_crc32_simple is given. */
  const CheckedLength: nat := 264

  datatype TestPacket = TestPacket(sequence: U32, timestamp: U32, crc: U32, data: seq<Byte>)

  predicate Sized(p: TestPacket) {
    |p.data| == DataSize
  }

  /** The packet as it lies in memory on the little-endian target. */
  function Image(p: TestPacket): (r: seq<Byte>)
    requires Sized(p)
    ensures |r| == PacketSize
  {
    Telemetry.LeBytes32(p.sequence) + Telemetry.LeBytes32(p.timestamp) + Telemetry.LeBytes32(p.crc) + p.data
  }

  /** The packet a 268-byte image holds. */
  function Parse(m: seq<Byte>): (p: TestPacket)
    requires |m| == PacketSize
    ensures Sized(p)
  {
    TestPacket(RspU32(m, 0), RspU32(m, 4), RspU32(m, CrcOffset), m[DataOffset..])
  }

  lemma {:induction false} ImageParts(p: TestPacket)
    requires Sized(p)
    ensures Image(p)[..4] == Telemetry.LeBytes32(p.sequence)
    ensures Image(p)[4..8] == Telemetry.LeBytes32(p.timestamp)
    ensures Image(p)[CrcOffset..DataOffset] == Telemetry.LeBytes32(p.crc)
    ensures Image(p)[DataOffset..] == p.data
  {
  }

  /** A word read back from its little-endian bytes. */
  lemma {:induction false} WordBack(m: seq<Byte>, n: nat, v: U32)
    requires n + 4 <= |m| && m[n..n + 4] == Telemetry.LeBytes32(v)
    ensures RspU32(m, n) == v
  {
    assert m[n] == Low8(v) && m[n + 1] == Low8(v >> 8) && m[n + 2] == Low8(v >> 16) && m[n + 3] == Low8(v >> 24);
    Telemetry.LeWord(m[n], m[n + 1], m[n + 2], m[n + 3], v);
  }

  /** Reading the fields of a packet's image gives the packet back. */
  lemma {:induction false} ParseImage(p: TestPacket)
    requires Sized(p)
    ensures Parse(Image(p)) == p
  {
    ImageParts(p);
    WordBack(Image(p), 0, p.sequence);
    WordBack(Image(p), 4, p.timestamp);
    WordBack(Image(p), CrcOffset, p.crc);
  }

  /** Every 268-byte image is the image of the packet read from it. */
  lemma {:induction false} ImageParse(m: seq<Byte>)
    requires |m| == PacketSize
    ensures Image(Parse(m)) == m
  {
    Telemetry.RspU32Bytes(m, 0);
    Telemetry.RspU32Bytes(m, 4);
    Telemetry.RspU32Bytes(m, CrcOffset);
    assert m == m[0..4] + m[4..8] + m[CrcOffset..DataOffset] + m[DataOffset..];
  }

  // ------------------------------------------------- the region checked

  /** The bytes the program's CRC covers: the first sizeof(packet) - 4 of
      the image. They include the crc field and leave out data[252..255]. */
  function CheckedRegion(p: TestPacket): (r: seq<Byte>)
    requires Sized(p)
    ensures |r| == CheckedLength
  {
    Image(p)[..CheckedLength]
  }

  /** The check of tcp_test_handler as the program makes it. */
  predicate PassesAsWritten(p: TestPacket)
    requires Sized(p)
  {
    BitwiseCrc(CheckedRegion(p)) == p.crc
  }

  /** The last four data bytes are not covered: overwriting one of them
      leaves the verdict of the check as it was, although the packet
      differs. */
  lemma {:induction false} TailUnchecked(p: TestPacket, k: nat, v: Byte)
    requires Sized(p) && DataSize - 4 <= k < DataSize
    ensures var q := p.(data := p.data[k := v]);
            Sized(q) && (PassesAsWritten(q) <==> PassesAsWritten(p)) && (v != p.data[k] ==> q != p)
  {
    var q := p.(data := p.data[k := v]);
    assert CheckedRegion(q) == CheckedRegion(p) by {
      ImageParts(p);
      ImageParts(q);
      assert Image(q)[..DataOffset] == Image(p)[..DataOffset];
      assert p.data[..DataSize - 4] == q.data[..DataSize - 4];
      assert Image(p)[..CheckedLength] == Image(p)[..DataOffset] + p.data[..DataSize - 4];
      assert Image(q)[..CheckedLength] == Image(q)[..DataOffset] + q.data[..DataSize - 4];
    }
  }

  /** A packet accepted by the check as written stays accepted with its
      last data byte corrupted. */
  lemma {:induction false} CorruptedTailAccepted(p: TestPacket)
    requires Sized(p) && PassesAsWritten(p)
    ensures var q := p.(data := p.data[DataSize - 1 := !p.data[DataSize - 1]]);
            Sized(q) && PassesAsWritten(q) && q != p
  {
    TailUnchecked(p, DataSize - 1, !p.data[DataSize - 1]);
  }

  /** The crc field lies inside the checked region: storing any other value
      there changes the bytes the CRC is computed over. */
  lemma {:induction false} CrcFieldChecked(p: TestPacket, c: U32)
    requires Sized(p) && c != p.crc
    ensures CheckedRegion(p.(crc := c)) != CheckedRegion(p)
  {
    var q := p.(crc := c);
    ImageParts(p);
    ImageParts(q);
    assert CheckedRegion(q)[CrcOffset..DataOffset] == Image(q)[CrcOffset..DataOffset];
    assert CheckedRegion(p)[CrcOffset..DataOffset] == Image(p)[CrcOffset..DataOffset];
    ParseImage(p);
    ParseImage(q);
    WordBack(Image(p), CrcOffset, p.crc);
    WordBack(Image(q), CrcOffset, c);
  }

  /** The bytes the check evidently means to cover: every byte of the image
      except the crc field. */
  function Covered(p: TestPacket): (r: seq<Byte>)
    requires Sized(p)
    ensures |r| == CheckedLength
  {
    Image(p)[..CrcOffset] + Image(p)[DataOffset..]
  }

  /** The corrected check. */
  predicate Passes(p: TestPacket)
    requires Sized(p)
  {
    BitwiseCrc(Covered(p)) == p.crc
  }

  /** Storing the CRC of the covered bytes into the crc field. */
  function Stamped(p: TestPacket): (r: TestPacket)
    requires Sized(p)
    ensures Sized(r)
  {
    p.(crc := BitwiseCrc(Covered(p)))
  }

  lemma {:induction false} CoveredParts(p: TestPacket)
    requires Sized(p)
    ensures Covered(p) == Telemetry.LeBytes32(p.sequence) + Telemetry.LeBytes32(p.timestamp) + p.data
  {
    ImageParts(p);
    assert Image(p)[..CrcOffset] == Image(p)[..4] + Image(p)[4..8];
  }

  /** The crc field is outside the covered bytes. */
  lemma {:induction false} CrcFieldNotCovered(p: TestPacket, c: U32)
    requires Sized(p)
    ensures Covered(p.(crc := c)) == Covered(p)
  {
    CoveredParts(p);
    CoveredParts(p.(crc := c));
  }

  /** A stamped packet passes the check, and stamping changes nothing but
      the crc field. */
  lemma {:induction false} StampedPasses(p: TestPacket)
    requires Sized(p)
    ensures Passes(Stamped(p))
    ensures Stamped(p).(crc := p.crc) == p
  {
    CrcFieldNotCovered(p, BitwiseCrc(Covered(p)));
  }

  /** Every byte but the crc field is covered: two packets with the same
      crc field and the same covered bytes are the same packet. */
  lemma {:induction false} CoveredDetermines(p: TestPacket, q: TestPacket)
    requires Sized(p) && Sized(q) && p.crc == q.crc && Covered(p) == Covered(q)
    ensures p == q
  {
    CoveredParts(p);
    CoveredParts(q);
    var m := Image(p);
    var n := Image(q);
    ImageParts(p);
    ImageParts(q);
    assert m[..CrcOffset] == Covered(p)[..CrcOffset] == Covered(q)[..CrcOffset] == n[..CrcOffset];
    assert m[CrcOffset..DataOffset] == n[CrcOffset..DataOffset];
    assert m[DataOffset..] == Covered(p)[CrcOffset..] == Covered(q)[CrcOffset..] == n[DataOffset..];
    assert m == m[..CrcOffset] + m[CrcOffset..DataOffset] + m[DataOffset..];
    assert n == n[..CrcOffset] + n[CrcOffset..DataOffset] + n[DataOffset..];
    ParseImage(p);
    ParseImage(q);
  }

  // ------------------------------------------------------ test patterns

  /** data[i] = (uint8_t)(i ^ sequence) in the TCP packet. */
  function TcpPatternByte(i: nat, s: U32): Byte
    requires i < DataSize
  {
    Low8((i as U32) ^ s)
  }

  /** data[i] = (uint8_t)(~i ^ sequence) in the UDP packet. */
  function UdpPatternByte(i: nat, s: U32): Byte
    requires i < DataSize
  {
    Low8(!(i as U32) ^ s)
  }

  /** The UDP byte is the complement of the TCP byte at the same index. */
  lemma {:induction false} PatternsComplement(i: nat, s: U32)
    requires i < DataSize
    ensures UdpPatternByte(i, s) == !TcpPatternByte(i, s)
  {
  }

  /** A receiver that knows the sequence number recovers the index from
      the TCP byte: xor with the low byte of the sequence gives i. */
  lemma {:induction false} TcpPatternIndex(i: nat, s: U32)
    requires i < DataSize
    ensures TcpPatternByte(i, s) ^ Low8(s) == i as Byte
  {
  }

  function Pattern(s: U32, udp: bool): (r: seq<Byte>)
    ensures |r| == DataSize
  {
    seq(DataSize, i requires 0 <= i < DataSize => if udp then UdpPatternByte(i, s) else TcpPatternByte(i, s))
  }

  /** The fill loop of send_test_packets. */
  method FillPattern(data: array<Byte>, s: U32, udp: bool)
    requires data.Length == DataSize
    modifies data
    ensures data[..] == Pattern(s, udp)
  {
    var i := 0;
    while i < DataSize
      invariant 0 <= i <= DataSize
      invariant forall k :: 0 <= k < i ==> data[k] == Pattern(s, udp)[k]
    {
      data[i] := if udp then UdpPatternByte(i, s) else TcpPatternByte(i, s);
      i := i + 1;
    }
  }

  /** Filling a packet and stamping it, as both branches of
      send_test_packets do. */
  method BuildPacket(s: U32, now: U32, udp: bool) returns (packet: TestPacket)
    ensures packet == Outgoing(s, now, udp)
  {
    var data := new Byte[DataSize];
    FillPattern(data, s, udp);
    packet := TestPacket(s, now, 0, data[..]);
    var c := CalcCrc32Simple(Covered(packet));
    packet := packet.(crc := c);
  }

  /** The packet send_test_packets builds: the pattern, the sequence number
      and the send time, stamped. */
  function Outgoing(s: U32, now: U32, udp: bool): (r: TestPacket)
    ensures Sized(r)
  {
    Stamped(TestPacket(s, now, 0, Pattern(s, udp)))
  }

  /** The packet carries the sequence number, the send time and the
      pattern, and it passes the check. */
  lemma {:induction false} OutgoingPasses(s: U32, now: U32, udp: bool)
    ensures var r := Outgoing(s, now, udp);
            r.sequence == s && r.timestamp == now && r.data == Pattern(s, udp) && Passes(r)
  {
    StampedPasses(TestPacket(s, now, 0, Pattern(s, udp)));
  }

  // --------------------------------------------------------- statistics

  /** The values of a uint32_t, as integers. */
  type Word = x: int | 0 <= x < 0x1_0000_0000

  /** uint32_t addition: the sum wraps at 2^32. */
  function Add32(x: Word, n: Word): (r: Word)
    ensures x + n < 0x1_0000_0000 ==> r == x + n
    ensures x + n >= 0x1_0000_0000 ==> r == x + n - 0x1_0000_0000
  {
    (x + n) % 0x1_0000_0000
  }

  /** test_stats_t: twelve uint32_t counters. */
  datatype Stats = Stats(
    tcpPacketsSent: Word, tcpPacketsReceived: Word, tcpBytesSent: Word, tcpBytesReceived: Word,
    tcpErrors: Word, tcpConnections: Word, udpPacketsSent: Word, udpPacketsReceived: Word,
    crcErrors: Word, maxLatency: Word, minLatency: Word, avgLatency: Word)

  const ZeroStats: Stats := Stats(0, 0, 0, 0, 0, 0, 0, 0, 0, 0, 0, 0)

  /** `now - since` in uint32_t arithmetic: the time from `since` to `now`
      across one wrap of the millisecond clock. */
  function Elapsed(now: Word, since: Word): (r: Word)
    ensures Add32(since, r) == now
    ensures since <= now ==> r == now - since
    ensures since > now ==> r == now - since + 0x1_0000_0000
  {
    (now - since) % 0x1_0000_0000
  }

  /** The latency of a packet stamped at `timestamp` and received at `now`. */
  function Latency(now: U32, timestamp: U32): Word {
    Elapsed(now as int, timestamp as int)
  }

  /** The latency bookkeeping of an accepted packet: max and min are
      widened to the sample (min also replaces a 0, which stands for "no
      sample yet"), and the average becomes the uint32_t sum halved. */
  function RecordLatency(st: Stats, latency: Word): (r: Stats)
    ensures r.maxLatency >= latency && r.maxLatency >= st.maxLatency
    ensures r.maxLatency == latency || r.maxLatency == st.maxLatency
    ensures r.minLatency <= latency
    ensures st.minLatency == 0 ==> r.minLatency == latency
    ensures st.minLatency != 0 ==> r.minLatency <= st.minLatency && (r.minLatency == latency || r.minLatency == st.minLatency)
    ensures 2 * r.avgLatency <= Add32(st.avgLatency, latency) <= 2 * r.avgLatency + 1
    ensures r == st.(maxLatency := r.maxLatency, minLatency := r.minLatency, avgLatency := r.avgLatency)
  {
    var mx := if latency > st.maxLatency then latency else st.maxLatency;
    var mn := if latency < st.minLatency || st.minLatency == 0 then latency else st.minLatency;
    st.(maxLatency := mx, minLatency := mn, avgLatency := Add32(st.avgLatency, latency) / 2)
  }

  /** Without wrap-around the new average lies between the old average and
      the sample. */
  lemma {:induction false} AverageBetween(st: Stats, latency: Word)
    requires st.avgLatency + latency < 0x1_0000_0000
    ensures var a := RecordLatency(st, latency).avgLatency;
            (a >= st.avgLatency || a >= latency) && (a <= st.avgLatency || a <= latency)
  {
  }

  /** The sum can wrap: an average of 0xFFFFFFFF and a sample of 2 gives 0. */
  lemma {:induction false} AverageWraps(st: Stats)
    requires st.avgLatency == 0xFFFF_FFFF
    ensures RecordLatency(st, 2).avgLatency == 0
  {
  }

  /** The reply to an accepted packet: the timestamp replaced by the
      receive time, and the crc field overwritten with the CRC of the
      checked region of that packet, which still holds the received crc. */
  function Echo(p: TestPacket, now: U32): (r: TestPacket)
    requires Sized(p)
    ensures Sized(r)
    ensures r.sequence == p.sequence && r.timestamp == now && r.data == p.data
    ensures r.crc == BitwiseCrc(CheckedRegion(r.(crc := p.crc)))
  {
    var q := p.(timestamp := now);
    q.(crc := BitwiseCrc(CheckedRegion(q)))
  }

  /** The received crc is one of the bytes the reply's CRC is computed
      over: two packets that differ only in their crc field are stamped
      over different bytes. */
  lemma {:induction false} EchoCoversReceivedCrc(p: TestPacket, c: U32, now: U32)
    requires Sized(p) && c != p.crc
    ensures CheckedRegion(p.(timestamp := now)) != CheckedRegion(p.(crc := c).(timestamp := now))
  {
    var q := p.(timestamp := now);
    assert p.(crc := c).(timestamp := now) == q.(crc := c);
    CrcFieldChecked(q, c);
  }

  /** What tcp_test_handler does with a delivery. */
  datatype Outcome = Closed | Unread | CrcError | Accepted(latency: Word, reply: TestPacket)

  /** `rxlen` bytes were announced, `got` tells whether reading them
      succeeded, `p` is what the packet buffer then holds. */
  function Classify(rxlen: int, got: bool, p: TestPacket, now: U32): (o: Outcome)
    requires Sized(p)
    ensures o.Closed? <==> rxlen <= 0
    ensures o.Unread? <==> rxlen > 0 && !got
    ensures o.CrcError? <==> rxlen > 0 && got && !PassesAsWritten(p)
    ensures o.Accepted? ==> PassesAsWritten(p) && Sized(o.reply) && o.latency == Latency(now, p.timestamp)
    ensures o.Accepted? ==> o.reply.sequence == p.sequence && o.reply.data == p.data && o.reply.timestamp == now
    ensures o.Accepted? ==> o.reply == Echo(p, now)
  {
    if rxlen <= 0 then Closed
    else if !got then Unread
    else if !PassesAsWritten(p) then CrcError
    else Accepted(Latency(now, p.timestamp), Echo(p, now))
  }

  /** The counters after a TCP send: a packet and its 268 bytes, or an
      error. */
  function TcpSendCount(st: Stats, ok: bool): (r: Stats)
    ensures ok ==> r == st.(tcpPacketsSent := Add32(st.tcpPacketsSent, 1), tcpBytesSent := Add32(st.tcpBytesSent, PacketSize))
    ensures !ok ==> r == st.(tcpErrors := Add32(st.tcpErrors, 1))
  {
    if ok then st.(tcpPacketsSent := Add32(st.tcpPacketsSent, 1), tcpBytesSent := Add32(st.tcpBytesSent, PacketSize))
    else st.(tcpErrors := Add32(st.tcpErrors, 1))
  }

  /** The counters after a UDP send: a packet when it went out; a failed
      UDP send is not counted. */
  function UdpSendCount(st: Stats, ok: bool): (r: Stats)
    ensures ok ==> r == st.(udpPacketsSent := Add32(st.udpPacketsSent, 1))
    ensures !ok ==> r == st
  {
    if ok then st.(udpPacketsSent := Add32(st.udpPacketsSent, 1)) else st
  }

  /** The counters after a delivery; `sendOk` is the result of the echo's
      put_sock_send. */
  function HandlerStats(st: Stats, rxlen: int, o: Outcome, sendOk: bool): (r: Stats)
    requires rxlen < 0x8000_0000 && (o.Closed? <==> rxlen <= 0)
    ensures o.Closed? ==> r == st.(tcpErrors := Add32(st.tcpErrors, 1))
    ensures o.Unread? ==> r == st
    ensures o.CrcError? || o.Accepted? ==> r.tcpPacketsReceived == Add32(st.tcpPacketsReceived, 1)
    ensures o.CrcError? || o.Accepted? ==> r.tcpBytesReceived == Add32(st.tcpBytesReceived, rxlen)
    ensures r.crcErrors == if o.CrcError? then Add32(st.crcErrors, 1) else st.crcErrors
    ensures r.tcpPacketsSent == if o.Accepted? && sendOk then Add32(st.tcpPacketsSent, 1) else st.tcpPacketsSent
    ensures r.tcpBytesSent == if o.Accepted? && sendOk then Add32(st.tcpBytesSent, PacketSize) else st.tcpBytesSent
    ensures r.tcpErrors == if o.Closed? || (o.Accepted? && !sendOk) then Add32(st.tcpErrors, 1) else st.tcpErrors
    ensures o.Accepted? ==> r.maxLatency >= o.latency && r.minLatency <= o.latency
    ensures !o.Accepted? ==> r.maxLatency == st.maxLatency && r.minLatency == st.minLatency && r.avgLatency == st.avgLatency
    ensures o.Accepted? ==> r.maxLatency == (if o.latency > st.maxLatency then o.latency else st.maxLatency)
    ensures o.Accepted? ==> r.minLatency == (if o.latency < st.minLatency || st.minLatency == 0 then o.latency else st.minLatency)
    ensures o.Accepted? ==> 2 * r.avgLatency <= Add32(st.avgLatency, o.latency) <= 2 * r.avgLatency + 1
    ensures r.(tcpPacketsReceived := st.tcpPacketsReceived, tcpBytesReceived := st.tcpBytesReceived,
               tcpPacketsSent := st.tcpPacketsSent, tcpBytesSent := st.tcpBytesSent, tcpErrors := st.tcpErrors,
               crcErrors := st.crcErrors, maxLatency := st.maxLatency, minLatency := st.minLatency,
               avgLatency := st.avgLatency) == st
  {
    if rxlen <= 0 then st.(tcpErrors := Add32(st.tcpErrors, 1))
    else if o.Unread? then st
    else
      var rec := Received(st, rxlen);
      if o.Accepted? then TcpSendCount(RecordLatency(rec, o.latency), sendOk)
      else rec.(crcErrors := Add32(rec.crcErrors, 1))
  }

  /** A packet read: counted with its length. */
  function Received(st: Stats, rxlen: int): (r: Stats)
    requires 0 < rxlen < 0x8000_0000
    ensures r == st.(tcpPacketsReceived := Add32(st.tcpPacketsReceived, 1),
                     tcpBytesReceived := Add32(st.tcpBytesReceived, rxlen))
  {
    st.(tcpPacketsReceived := Add32(st.tcpPacketsReceived, 1),
        tcpBytesReceived := Add32(st.tcpBytesReceived, rxlen))
  }

  /** The counters after send_test_packets: the TCP send counted as above,
      then a successful UDP send counts a packet. */
  function SendStats(st: Stats, tcp: bool, tcpOk: bool, udp: bool, udpOk: bool): (r: Stats)
    ensures r.tcpPacketsSent == if tcp && tcpOk then Add32(st.tcpPacketsSent, 1) else st.tcpPacketsSent
    ensures r.tcpBytesSent == if tcp && tcpOk then Add32(st.tcpBytesSent, PacketSize) else st.tcpBytesSent
    ensures r.tcpErrors == if tcp && !tcpOk then Add32(st.tcpErrors, 1) else st.tcpErrors
    ensures r.udpPacketsSent == if udp && udpOk then Add32(st.udpPacketsSent, 1) else st.udpPacketsSent
    ensures r.(tcpPacketsSent := st.tcpPacketsSent, tcpBytesSent := st.tcpBytesSent,
               tcpErrors := st.tcpErrors, udpPacketsSent := st.udpPacketsSent) == st
  {
    var t := if tcp then TcpSendCount(st, tcpOk) else st;
    if udp then UdpSendCount(t, udpOk) else t
  }

  // ------------------------------------------------- the program's state

  /** The program's statics: the statistics, the sequence counters of
      send_test_packets and the sockets set up by its main program. */
  class TestProgram {
    var stats: Stats
    var tcpSeq: U32
    var udpSeq: U32
    var tcpClientSock: SockRef
    var udpSock: SockRef
    const ctx: Context

    ghost predicate Valid()
      reads this, ctx
    {
      ctx.Valid() && InRange(tcpClientSock) && InRange(udpSock)
    }

    constructor (c: Context, tcpClient: SockRef, udp: SockRef)
      requires c.Valid() && InRange(tcpClient) && InRange(udp)
      ensures Valid() && ctx == c && stats == ZeroStats && tcpSeq == 0 && udpSeq == 0
      ensures tcpClientSock == tcpClient && udpSock == udp
    {
      ctx := c;
      stats := ZeroStats;
      tcpSeq := 0;
      udpSeq := 0;
      tcpClientSock := tcpClient;
      udpSock := udp;
    }

    /** tcp_test_handler: `got` and `p` stand for get_sock_data's result
        and the packet buffer it filled, `now` for the clock. A closed
        connection marks the socket CLOSED and returns without re-arming
        the receive; otherwise an accepted packet is echoed and the receive
        is re-armed. */
    method TcpTestHandler(sock: Byte, rxlen: int, got: bool, p: TestPacket, now: U32) returns (sendOk: bool)
      requires Valid() && (sock as int) < MaxSockets && Sized(p) && rxlen < 0x8000_0000
      modifies this`stats, ctx.sockets, ctx.link
      ensures Valid()
      ensures stats == HandlerStats(old(stats), rxlen, Classify(rxlen, got, p, now), sendOk)
      ensures rxlen <= 0 ==> ctx.sockets[..] == old(ctx.sockets[..])[sock := old(ctx.sockets[sock]).(state := StateClosed)]
      ensures rxlen <= 0 ==> ctx.link.out == old(ctx.link.out)
      ensures rxlen > 0 ==> ctx.sockets[..] == old(ctx.sockets[..])
      ensures rxlen > 0 ==>
                ctx.link.out == old(ctx.link.out) + EchoEvents(sock, old(ctx.sockets[sock]), Classify(rxlen, got, p, now)) +
                                [Sent(RecvMsg(sock, old(ctx.sockets[sock]).session))]
    {
      sendOk := false;
      if rxlen <= 0 {
        stats := stats.(tcpErrors := Add32(stats.tcpErrors, 1));
        ctx.SockState(sock, StateClosed);
        return;
      }
      sendOk := Deliver(sock, rxlen, got, p, now);
    }

    /** A delivery of `rxlen` > 0 bytes: the packet is read, checked and
        echoed, and the receive is re-armed in any case. */
    method Deliver(sock: Byte, rxlen: int, got: bool, p: TestPacket, now: U32) returns (sendOk: bool)
      requires Valid() && (sock as int) < MaxSockets && Sized(p) && 0 < rxlen < 0x8000_0000
      modifies this`stats, ctx.link
      ensures stats == HandlerStats(old(stats), rxlen, Classify(rxlen, got, p, now), sendOk)
      ensures ctx.link.out == old(ctx.link.out) + EchoEvents(sock, old(ctx.sockets[sock]), Classify(rxlen, got, p, now)) +
                              [Sent(RecvMsg(sock, old(ctx.sockets[sock]).session))]
    {
      sendOk := false;
      if got {
        sendOk := CheckAndEcho(sock, rxlen, p, now);
      }
      var _ := ctx.PutSockRecv(sock);
    }

    /** The body of tcp_test_handler once the packet is read: count it,
        check its CRC, and echo it when the check passes. */
    method CheckAndEcho(sock: Byte, rxlen: int, p: TestPacket, now: U32) returns (sendOk: bool)
      requires Valid() && (sock as int) < MaxSockets && Sized(p) && 0 < rxlen < 0x8000_0000
      modifies this`stats, ctx.link
      ensures stats == HandlerStats(old(stats), rxlen, Classify(rxlen, true, p, now), sendOk)
      ensures ctx.link.out == old(ctx.link.out) + EchoEvents(sock, old(ctx.sockets[sock]), Classify(rxlen, true, p, now))
    {
      sendOk := false;
      stats := stats.(tcpPacketsReceived := Add32(stats.tcpPacketsReceived, 1),
                      tcpBytesReceived := Add32(stats.tcpBytesReceived, rxlen));
      var computed := CalcCrc32Simple(CheckedRegion(p));
      if computed != p.crc {
        stats := stats.(crcErrors := Add32(stats.crcErrors, 1));
      } else {
        var latency := Latency(now, p.timestamp);
        stats := RecordLatency(stats, latency);
        var reply := p.(timestamp := now);
        var c := CalcCrc32Simple(CheckedRegion(reply));
        reply := reply.(crc := c);
        sendOk := ctx.PutSockSend(sock, Image(reply));
        stats := TcpSendCount(stats, sendOk);
      }
    }

    /** send_test_packets: a TCP packet when the client socket is connected,
        then a UDP packet when the UDP socket is bound; each uses and bumps
        its own sequence counter. `tcpNow` and `udpNow` are the clock as
        each branch reads it; `tcpOk` and `udpOk` are the results of the
        sends (false when a branch is not taken). */
    method SendTestPackets(tcpNow: U32, udpNow: U32, ghost socks: seq<Socket>) returns (tcpOk: bool, udpOk: bool)
      requires Valid() && socks == ctx.sockets[..]
      modifies this`stats, this`tcpSeq, this`udpSeq, ctx.link
      ensures Valid()
      ensures tcpSeq == (if TcpReady(tcpClientSock, socks) then NextSeq(old(tcpSeq)) else old(tcpSeq))
      ensures udpSeq == (if UdpReady(udpSock, socks) then NextSeq(old(udpSeq)) else old(udpSeq))
      ensures ctx.link.out == old(ctx.link.out) + TcpEvents(tcpClientSock, socks, old(tcpSeq), tcpNow) +
                                                  UdpEvents(udpSock, socks, old(udpSeq), udpNow)
      ensures stats == SendStats(old(stats), TcpReady(tcpClientSock, socks), tcpOk,
                                             UdpReady(udpSock, socks), udpOk)
    {
      tcpOk := SendTcpPacket(tcpNow, socks);
      udpOk := SendUdpPacket(udpNow, socks);
    }

    /** The TCP branch of send_test_packets; `socks` is the socket table
        as it stands. */
    method SendTcpPacket(now: U32, ghost socks: seq<Socket>) returns (ok: bool)
      requires Valid() && socks == ctx.sockets[..]
      modifies this`stats, this`tcpSeq, ctx.link
      ensures socks == ctx.sockets[..]
      ensures tcpSeq == if TcpReady(tcpClientSock, socks) then NextSeq(old(tcpSeq)) else old(tcpSeq)
      ensures ctx.link.out == old(ctx.link.out) + TcpEvents(tcpClientSock, socks, old(tcpSeq), now)
      ensures stats == if TcpReady(tcpClientSock, socks) then TcpSendCount(old(stats), ok) else old(stats)
      ensures ok ==> TcpReady(tcpClientSock, socks)
    {
      ok := false;
      if tcpClientSock.Sock? && ctx.sockets[tcpClientSock.id].state == StateConnected {
        var s := tcpSeq;
        tcpSeq := NextSeq(tcpSeq);
        var packet := BuildPacket(s, now, false);
        ok := ctx.PutSockSend(tcpClientSock.id, Image(packet));
        stats := TcpSendCount(stats, ok);
      }
    }

    /** The UDP branch of send_test_packets. */
    method SendUdpPacket(now: U32, ghost socks: seq<Socket>) returns (ok: bool)
      requires Valid() && socks == ctx.sockets[..]
      modifies this`stats, this`udpSeq, ctx.link
      ensures udpSeq == if UdpReady(udpSock, socks) then NextSeq(old(udpSeq)) else old(udpSeq)
      ensures ctx.link.out == old(ctx.link.out) + UdpEvents(udpSock, socks, old(udpSeq), now)
      ensures stats == if UdpReady(udpSock, socks) then UdpSendCount(old(stats), ok) else old(stats)
    {
      ok := false;
      if udpSock.Sock? && ctx.sockets[udpSock.id].state == StateBound {
        var s := udpSeq;
        udpSeq := NextSeq(udpSeq);
        var packet := BuildPacket(s, now, true);
        ok := ctx.PutSockSendto(udpSock.id, Image(packet));
        stats := UdpSendCount(stats, ok);
      }
    }
  }

  /** A socket variable of the program: -1 for none, else a slot. */
  datatype SockRef = NoSock | Sock(id: Byte)

  predicate InRange(r: SockRef) {
    r.Sock? ==> (r.id as int) < MaxSockets
  }

  /** The client socket exists and is connected. */
  predicate TcpReady(r: SockRef, socks: seq<Socket>)
    requires r.Sock? ==> (r.id as int) < |socks|
  {
    r.Sock? && socks[r.id].state == StateConnected
  }

  /** The UDP socket exists and is bound. */
  predicate UdpReady(r: SockRef, socks: seq<Socket>)
    requires r.Sock? ==> (r.id as int) < |socks|
  {
    r.Sock? && socks[r.id].state == StateBound
  }

  /** `seq++` on a uint32_t sequence counter (wraps to 0). */
  function NextSeq(s: U32): U32 { s + 1 }

  /** What the TCP branch of send_test_packets hands to the chip. */
  function TcpEvents(r: SockRef, socks: seq<Socket>, s: U32, now: U32): seq<Event>
    requires r.Sock? ==> (r.id as int) < |socks|
  {
    if TcpReady(r, socks) then [Sent(SendMsg(r.id, socks[r.id], Image(Outgoing(s, now, false))))] else []
  }

  /** What the UDP branch of send_test_packets hands to the chip. */
  function UdpEvents(r: SockRef, socks: seq<Socket>, s: U32, now: U32): seq<Event>
    requires r.Sock? ==> (r.id as int) < |socks|
  {
    if UdpReady(r, socks) then [Sent(SendtoMsg(r.id, socks[r.id], Image(Outgoing(s, now, true))))] else []
  }

  /** The echo a delivery causes: one send of the reply when accepted. */
  function EchoEvents(sock: Byte, sp: Socket, o: Outcome): seq<Event>
    requires o.Accepted? ==> Sized(o.reply)
  {
    if o.Accepted? then [Sent(SendMsg(sock, sp, Image(o.reply)))] else []
  }
}

/** The telemetry layer of winc_telemetry.c: the packet image and its CRC
    check, the redundant send of critical packets, the vote over redundant
    copies, and the two 32-slot packet rings.

    A telemetry_packet_t is modelled as its 1048-byte memory image on the
    little-endian target: a 16-byte header (type, priority, length,
    timestamp, source, destination, a 16-bit field, flags and two bytes of
    alignment padding), the integrity block at offset 16 (crc32,
    sequence, redundancy_id, retry_count) and a 1024-byte payload. The CRC
    is taken over bytes 4 .. 1048, a region that holds the crc32 field
    itself. */
module Telemetry {
  import opened WincHeader
  import opened Crc32

  type Packet = seq<Byte>

  datatype Option<T> = None | Some(value: T)

  const PacketSize: nat := 1048
  /** First byte covered by the CRC: the address `(uint8_t*)packet + 4`. */
  const CrcRegionStart: nat := 4
  const PriorityOffset: nat := 1
  const LengthOffset: nat := 2
  const DstNodeOffset: nat := 9
  const CrcOffset: nat := 16
  const RedundancyIdOffset: nat := 22
  const RetryCountOffset: nat := 23
  const PayloadOffset: nat := 24
  const PayloadSize: nat := 1024

  /** telem_priority_t */
  const Critical: Byte := 0
  const High: Byte := 1

  const MaxRetries: Byte := 3
  const RedundancyFactor: nat := 3
  const QueueSize: nat := 32

  predicate PacketSized(p: Packet) {
    |p| == PacketSize
  }

  /** The crc32 field of the integrity block. */
  function StoredCrc(p: Packet): U32
    requires PacketSized(p)
  {
    RspU32(p, CrcOffset)
  }

  /** The bytes calculate_crc32 is run over. */
  function CrcRegion(p: Packet): seq<Byte>
    requires PacketSized(p)
  {
    p[CrcRegionStart..]
  }

  /** What verify_packet_integrity accepts: the CRC of the region equals
      the stored crc32. */
  predicate Intact(p: Packet)
    requires PacketSized(p)
  {
    Crc(CrcRegion(p)) == StoredCrc(p)
  }

  /** The `length` field, little-endian. */
  function Length(p: Packet): nat
    requires PacketSized(p)
  {
    p[LengthOffset] as nat + 256 * p[LengthOffset + 1] as nat
  }

  function Payload(p: Packet): seq<Byte>
    requires PacketSized(p)
  {
    p[PayloadOffset..]
  }

  // ------------------------------------------------------- the crc32 field

  /** A word as it sits in memory on the little-endian target. */
  function LeBytes32(v: U32): (r: seq<Byte>)
    ensures |r| == 4
  {
    [Low8(v), Low8(v >> 8), Low8(v >> 16), Low8(v >> 24)]
  }

  lemma {:induction false} LeWord(a: Byte, b: Byte, c: Byte, d: Byte, v: U32)
    requires a == Low8(v) && b == Low8(v >> 8) && c == Low8(v >> 16) && d == Low8(v >> 24)
    ensures (a as U32) | ((b as U32) << 8) | ((c as U32) << 16) | ((d as U32) << 24) == v
  {
  }

  lemma {:induction false} LeBytesOfWord(a: Byte, b: Byte, c: Byte, d: Byte, v: U32)
    requires v == (a as U32) | ((b as U32) << 8) | ((c as U32) << 16) | ((d as U32) << 24)
    ensures a == Low8(v) && b == Low8(v >> 8) && c == Low8(v >> 16) && d == Low8(v >> 24)
  {
  }

  /** Storing `c` into the crc32 field. */
  function SetCrc(p: Packet, c: U32): (r: Packet)
    requires PacketSized(p)
    ensures PacketSized(r)
  {
    p[..CrcOffset] + LeBytes32(c) + p[CrcOffset + 4..]
  }

  /** The field reads back what was stored, and no other byte changes. */
  lemma {:induction false} SetCrcReadsBack(p: Packet, c: U32)
    requires PacketSized(p)
    ensures StoredCrc(SetCrc(p, c)) == c
    ensures forall k | 0 <= k < PacketSize && !(CrcOffset <= k < CrcOffset + 4) :: SetCrc(p, c)[k] == p[k]
  {
    var r := SetCrc(p, c);
    assert r[16] == Low8(c) && r[17] == Low8(c >> 8) && r[18] == Low8(c >> 16) && r[19] == Low8(c >> 24);
    LeWord(r[16], r[17], r[18], r[19], c);
  }

  /** The field's bytes are the stored word, little-endian. */
  lemma {:induction false} StoredCrcBytes(p: Packet)
    requires PacketSized(p)
    ensures LeBytes32(StoredCrc(p)) == p[CrcOffset..CrcOffset + 4]
  {
    RspU32Bytes(p, CrcOffset);
  }

  /** RSP_U32 and the little-endian layout are inverse. */
  lemma {:induction false} RspU32Bytes(d: seq<Byte>, n: nat)
    requires n + 4 <= |d|
    ensures LeBytes32(RspU32(d, n)) == d[n..n + 4]
  {
    LeRoundTrip(d[n], d[n + 1], d[n + 2], d[n + 3], RspU32(d, n));
    SliceOfFour(d, n);
  }

  lemma {:induction false} LeRoundTrip(a: Byte, b: Byte, c: Byte, d: Byte, v: U32)
    requires v == (a as U32) | ((b as U32) << 8) | ((c as U32) << 16) | ((d as U32) << 24)
    ensures LeBytes32(v) == [a, b, c, d]
  {
    LeBytesOfWord(a, b, c, d, v);
  }

  lemma {:induction false} SliceOfFour(d: seq<Byte>, n: nat)
    requires n + 4 <= |d|
    ensures d[n..n + 4] == [d[n], d[n + 1], d[n + 2], d[n + 3]]
  {
  }

  /** Storing the value the field already holds changes nothing. */
  lemma {:induction false} SetStoredCrc(p: Packet)
    requires PacketSized(p)
    ensures SetCrc(p, StoredCrc(p)) == p
  {
    StoredCrcBytes(p);
    assert p == p[..CrcOffset] + p[CrcOffset..CrcOffset + 4] + p[CrcOffset + 4..];
  }

  /** The crc32 field seen through the region: bytes 12 .. 16 of it. */
  lemma {:induction false} StoredCrcInRegion(p: Packet)
    requires PacketSized(p)
    ensures StoredCrc(p) == RspU32(CrcRegion(p), CrcOffset - CrcRegionStart)
  {
    var q := CrcRegion(p);
    assert q[12] == p[16] && q[13] == p[17] && q[14] == p[18] && q[15] == p[19];
  }

  /** The crc32 field lies inside the region the CRC is computed over:
      storing any other value into it changes that region. */
  lemma {:induction false} CrcFieldInsideRegion(p: Packet, c: U32)
    requires PacketSized(p) && c != StoredCrc(p)
    ensures CrcRegion(SetCrc(p, c)) != CrcRegion(p)
  {
    SetCrcReadsBack(p, c);
    StoredCrcInRegion(p);
    StoredCrcInRegion(SetCrc(p, c));
  }

  // --------------------------------------------------- wrapping counters

  /** A uint32_t statistics counter after `n` increments, wrapping. */
  function AddU32(x: U32, n: nat): U32
    decreases n
  {
    if n == 0 then x else AddU32(x, n - 1) + 1
  }

  /** Increments compose. */
  lemma {:induction false} AddU32Add(x: U32, a: nat, b: nat)
    ensures AddU32(AddU32(x, a), b) == AddU32(x, a + b)
    decreases b
  {
    if b > 0 {
      AddU32Add(x, a, b - 1);
    }
  }

  /** A retry_count below MAX_RETRIES is incremented without wrapping. */
  lemma {:induction false} RetryInc(b: Byte)
    requires b < MaxRetries
    ensures (b + 1) as int == b as int + 1 && b as int < MaxRetries as int
  {
  }

  // --------------------------------------------------- send_with_redundancy

  /** How many copies are sent: REDUNDANCY_FACTOR for critical packets. */
  function Copies(priority: Byte): (n: nat)
    ensures 1 <= n <= RedundancyFactor
    ensures n == RedundancyFactor <==> priority == Critical
  {
    if priority == Critical then RedundancyFactor else 1
  }

  datatype Channel = Tcp | Udp(priority: Byte)

  /** TCP for critical and high priority, UDP with the priority otherwise. */
  function ChannelFor(priority: Byte): (c: Channel)
    ensures c.Tcp? <==> priority <= High
  {
    if priority <= High then Tcp else Udp(priority)
  }

  /** One call of tcp_send_critical or udp_send_telemetry. */
  datatype Transmission = Transmission(channel: Channel, dst: Byte, image: Packet)

  /** Copy number `i`: its redundancy_id set, then the CRC of its region
      (which still holds the previous crc32) stored into the crc32 field. */
  function Stamp(q: Packet, i: Byte): (r: Packet)
    requires PacketSized(q)
    ensures PacketSized(r)
  {
    var s := q[RedundancyIdOffset := i];
    SetCrc(s, Crc(CrcRegion(s)))
  }

  /** After a send: a failed send bumps retry_count while it is below
      MAX_RETRIES. */
  function AfterSend(q: Packet, ok: bool): (r: Packet)
    requires PacketSized(q)
    ensures PacketSized(r)
  {
    if !ok && q[RetryCountOffset] < MaxRetries then q[RetryCountOffset := q[RetryCountOffset] + 1] else q
  }

  /** The caller's packet after `k` rounds, given the send outcomes. */
  function Rounds(q: Packet, results: seq<bool>, k: nat): (r: Packet)
    requires PacketSized(q) && k <= |results| && k <= RedundancyFactor
    ensures PacketSized(r)
    decreases k
  {
    if k == 0 then q else AfterSend(Stamp(Rounds(q, results, k - 1), (k - 1) as Byte), results[k - 1])
  }

  /** The image handed to the transport in round `k`. */
  function SentCopy(q: Packet, results: seq<bool>, k: nat): (r: Packet)
    requires PacketSized(q) && k < |results| && k < RedundancyFactor
    ensures PacketSized(r)
  {
    Stamp(Rounds(q, results, k), k as Byte)
  }

  /** Whether round `k` counted a retransmission. */
  predicate Retried(q: Packet, results: seq<bool>, k: nat)
    requires PacketSized(q) && k < |results| && k < RedundancyFactor
  {
    !results[k] && SentCopy(q, results, k)[RetryCountOffset] < MaxRetries
  }

  function RetryTotal(q: Packet, results: seq<bool>, k: nat): nat
    requires PacketSized(q) && k <= |results| && k <= RedundancyFactor
    decreases k
  {
    if k == 0 then 0 else RetryTotal(q, results, k - 1) + (if Retried(q, results, k - 1) then 1 else 0)
  }

  /** The number of failed sends among the first `k`. */
  function Failures(results: seq<bool>, k: nat): nat
    requires k <= |results|
    decreases k
  {
    if k == 0 then 0 else Failures(results, k - 1) + (if results[k - 1] then 0 else 1)
  }

  /** A round touches only the crc32 field, redundancy_id and retry_count. */
  predicate SameOutsideIntegrity(a: Packet, b: Packet)
    requires PacketSized(a) && PacketSized(b)
  {
    forall m | 0 <= m < PacketSize && !(CrcOffset <= m < CrcOffset + 4) && m != RedundancyIdOffset && m != RetryCountOffset ::
      a[m] == b[m]
  }

  lemma {:induction false} StampFacts(q: Packet, i: Byte)
    requires PacketSized(q)
    ensures Stamp(q, i)[RedundancyIdOffset] == i
    ensures Stamp(q, i)[RetryCountOffset] == q[RetryCountOffset]
    ensures StoredCrc(Stamp(q, i)) == Crc(CrcRegion(q[RedundancyIdOffset := i]))
    ensures SameOutsideIntegrity(Stamp(q, i), q)
  {
    var s := q[RedundancyIdOffset := i];
    SetCrcReadsBack(s, Crc(CrcRegion(s)));
  }

  /** Every copy carries its own redundancy_id, the CRC of its region as
      it stood before the crc32 field was written, and the caller's
      header and payload. */
  lemma {:induction false} SentCopyFacts(q: Packet, results: seq<bool>, k: nat)
    requires PacketSized(q) && k < |results| && k < RedundancyFactor
    ensures SentCopy(q, results, k)[RedundancyIdOffset] == k as Byte
    ensures StoredCrc(SentCopy(q, results, k)) == Crc(CrcRegion(Rounds(q, results, k)[RedundancyIdOffset := k as Byte]))
    ensures SameOutsideIntegrity(SentCopy(q, results, k), q)
  {
    StampFacts(Rounds(q, results, k), k as Byte);
    RoundsKeepRest(q, results, k);
  }

  lemma {:induction false} RoundsKeepRest(q: Packet, results: seq<bool>, k: nat)
    requires PacketSized(q) && k <= |results| && k <= RedundancyFactor
    ensures SameOutsideIntegrity(Rounds(q, results, k), q)
    decreases k
  {
    if k > 0 {
      var p := Rounds(q, results, k - 1);
      RoundsKeepRest(q, results, k - 1);
      StampFacts(p, (k - 1) as Byte);
    }
  }

  /** retry_count as a number. */
  function RetryOf(p: Packet): int
    requires PacketSized(p)
  {
    p[RetryCountOffset] as int
  }

  /** retry_count grows by exactly the retransmissions counted, and never
      past MAX_RETRIES unless it started there: it ends at
      min(MAX_RETRIES, start + failures) when it starts below. */
  lemma {:induction false} RetryCountGrowth(q: Packet, results: seq<bool>, k: nat)
    requires PacketSized(q) && k <= |results| && k <= RedundancyFactor
    ensures RetryOf(Rounds(q, results, k)) == RetryOf(q) + RetryTotal(q, results, k)
    ensures RetryOf(q) >= 3 ==> RetryTotal(q, results, k) == 0
    ensures RetryOf(q) < 3 ==> RetryOf(q) + RetryTotal(q, results, k) == Min(3, RetryOf(q) + Failures(results, k))
    decreases k
  {
    if k > 0 {
      var p := Rounds(q, results, k - 1);
      RetryCountGrowth(q, results, k - 1);
      RoundRetry(p, (k - 1) as Byte, results[k - 1]);
      GrowthStep(RetryOf(q), RetryOf(p), RetryTotal(q, results, k - 1), Failures(results, k - 1), !results[k - 1],
                 RetryOf(Rounds(q, results, k)), RetryTotal(q, results, k), Failures(results, k));
    }
  }

  /** One round in terms of retry_count: it grows by one exactly when the
      round is counted as a retransmission. */
  lemma {:induction false} RoundRetry(p: Packet, i: Byte, ok: bool)
    requires PacketSized(p)
    ensures (!ok && Stamp(p, i)[RetryCountOffset] < MaxRetries) == (!ok && RetryOf(p) < 3)
    ensures RetryOf(AfterSend(Stamp(p, i), ok)) == RetryOf(p) + (if !ok && RetryOf(p) < 3 then 1 else 0)
  {
    StampFacts(p, i);
    if !ok && p[RetryCountOffset] < MaxRetries {
      RetryInc(p[RetryCountOffset]);
    }
  }

  /** The arithmetic of one round, on plain integers. */
  lemma {:induction false} GrowthStep(start: int, now: int, total: int, fails: int, failed: bool,
                                      now': int, total': int, fails': int)
    requires now == start + total && total >= 0
    requires start >= 3 ==> total == 0
    requires start < 3 ==> start + total == Min(3, start + fails)
    requires now' == now + (if failed && now < 3 then 1 else 0)
    requires total' == total + (if failed && now < 3 then 1 else 0)
    requires fails' == fails + (if failed then 1 else 0)
    ensures now' == start + total'
    ensures start >= 3 ==> total' == 0
    ensures start < 3 ==> start + total' == Min(3, start + fails')
  {
  }

  // ----------------------------------------------------------- the rings

  /** How many packets a ring holds: (head - tail) & 31. */
  function RingCount(head: int, tail: int): nat
    requires 0 <= head < QueueSize && 0 <= tail < QueueSize
  {
    (head - tail) % QueueSize
  }

  /** The queued packets, oldest first: slots tail, tail + 1, ... up to
      but not including head, modulo 32. */
  function RingContents(slots: seq<Packet>, head: int, tail: int): (r: seq<Packet>)
    requires |slots| == QueueSize && 0 <= head < QueueSize && 0 <= tail < QueueSize
    ensures |r| == RingCount(head, tail) < QueueSize
  {
    seq(RingCount(head, tail), i requires 0 <= i < RingCount(head, tail) => slots[(tail + i) % QueueSize])
  }

  /** Writing at head and advancing it appends, as long as the ring is not
      full (31 packets). */
  lemma {:induction false} RingPush(slots: seq<Packet>, head: int, tail: int, x: Packet)
    requires |slots| == QueueSize && 0 <= head < QueueSize && 0 <= tail < QueueSize
    requires (head + 1) % QueueSize != tail
    ensures RingContents(slots[head := x], (head + 1) % QueueSize, tail) == RingContents(slots, head, tail) + [x]
  {
    var n := RingCount(head, tail);
    RingCountPush(head, tail);
    var before, after := RingContents(slots, head, tail), RingContents(slots[head := x], (head + 1) % QueueSize, tail);
    forall i | 0 <= i < n
      ensures after[i] == before[i]
    {
      RingBeforeHead(head, tail, i);
    }
    assert after[n] == x;
    assert after == before + [x];
  }

  lemma {:induction false} RingCountPush(head: int, tail: int)
    requires 0 <= head < QueueSize && 0 <= tail < QueueSize && (head + 1) % QueueSize != tail
    ensures RingCount((head + 1) % QueueSize, tail) == RingCount(head, tail) + 1
    ensures (tail + RingCount(head, tail)) % QueueSize == head
  {
    RingCountCases(head, tail);
    RingCountCases((head + 1) % QueueSize, tail);
  }

  /** The slots in use lie strictly before head. */
  lemma {:induction false} RingBeforeHead(head: int, tail: int, i: int)
    requires 0 <= head < QueueSize && 0 <= tail < QueueSize && 0 <= i < RingCount(head, tail)
    ensures (tail + i) % QueueSize != head
  {
    RingCountCases(head, tail);
  }

  /** The ring is full exactly when it holds 31 packets. */
  lemma {:induction false} RingFull(head: int, tail: int)
    requires 0 <= head < QueueSize && 0 <= tail < QueueSize
    ensures ((head + 1) % QueueSize == tail) <==> RingCount(head, tail) == QueueSize - 1
  {
  }

  /** Advancing tail drops the oldest packet. */
  lemma {:induction false} RingPop(slots: seq<Packet>, head: int, tail: int)
    requires |slots| == QueueSize && 0 <= head < QueueSize && 0 <= tail < QueueSize
    requires head != tail
    ensures RingContents(slots, head, tail) != []
    ensures RingContents(slots, head, (tail + 1) % QueueSize) == RingContents(slots, head, tail)[1..]
  {
    var n := RingCount(head, tail);
    RingCountPop(head, tail);
    var before, after := RingContents(slots, head, tail), RingContents(slots, head, (tail + 1) % QueueSize);
    forall i | 0 <= i < n - 1
      ensures after[i] == before[i + 1]
    {
      RingShift(tail, i);
    }
    assert after == before[1..];
  }

  lemma {:induction false} RingCountPop(head: int, tail: int)
    requires 0 <= head < QueueSize && 0 <= tail < QueueSize && head != tail
    ensures RingCount(head, tail) >= 1 && RingCount(head, (tail + 1) % QueueSize) == RingCount(head, tail) - 1
  {
    RingCountCases(head, tail);
    RingCountCases(head, (tail + 1) % QueueSize);
  }

  /** (head - tail) & 31 without the modulus. */
  lemma {:induction false} RingCountCases(head: int, tail: int)
    requires 0 <= head < QueueSize && 0 <= tail < QueueSize
    ensures RingCount(head, tail) == if head >= tail then head - tail else head - tail + QueueSize
  {
  }

  lemma {:induction false} RingShift(tail: int, i: int)
    requires 0 <= tail < QueueSize && 0 <= i
    ensures ((tail + 1) % QueueSize + i) % QueueSize == (tail + (i + 1)) % QueueSize
  {
  }

  /** The ring is empty exactly when head and tail meet. */
  lemma {:induction false} RingEmpty(slots: seq<Packet>, head: int, tail: int)
    requires |slots| == QueueSize && 0 <= head < QueueSize && 0 <= tail < QueueSize
    ensures RingContents(slots, head, tail) == [] <==> head == tail
  {
  }

  // ------------------------------------------------ recover_from_redundancy

  /** The first `count` copies are packet images (the caller's array). */
  predicate AllSized(ps: seq<Packet>, count: int) {
    count <= |ps| && forall k | 0 <= k < count :: PacketSized(ps[k])
  }

  /** The outcome of verify_packet_integrity on each of the copies. */
  function Checks(ps: seq<Packet>, count: int): (ok: seq<bool>)
    requires AllSized(ps, count)
    ensures |ok| == Max(count, 0)
    ensures forall k | 0 <= k < count :: ok[k] == Intact(ps[k])
  {
    seq(Max(count, 0), k requires 0 <= k < Max(count, 0) => Intact(ps[k]))
  }

  function Max(a: int, b: int): int {
    if a < b then b else a
  }

  /** `ok` holds the check outcome of each of the first `n` copies. */
  predicate CheckedBy(ps: seq<Packet>, ok: seq<bool>, n: int)
    requires AllSized(ps, n) && n <= |ok|
  {
    forall k {:trigger Intact(ps[k])} | 0 <= k < n :: ok[k] == Intact(ps[k])
  }

  /** The copies and their check outcomes, as the vote sees them. */
  predicate Votable(ps: seq<Packet>, ok: seq<bool>, count: int) {
    AllSized(ps, count) && |ok| == Max(count, 0)
  }

  /** memcmp(a.payload, b.payload, a.length) == 0, within the payload. */
  predicate SamePayload(a: Packet, b: Packet)
    requires PacketSized(a) && PacketSized(b)
  {
    var n := Min(Length(a), PayloadSize);
    Payload(a)[..n] == Payload(b)[..n]
  }

  /** Copy `k` verifies and carries copy `i`'s payload. */
  predicate Matches(ps: seq<Packet>, ok: seq<bool>, count: int, i: int, k: int)
    requires Votable(ps, ok, count) && 0 <= i < count && 0 <= k < count
  {
    ok[k] && SamePayload(ps[i], ps[k])
  }

  /** The first copy from `from` on that matches copy `i`. */
  function FirstMatch(ps: seq<Packet>, ok: seq<bool>, count: int, i: int, from: int): (r: Option<int>)
    requires Votable(ps, ok, count) && 0 <= i < count && i < from
    ensures r.Some? ==> from <= r.value < count && Matches(ps, ok, count, i, r.value)
    ensures r.Some? ==> forall k | from <= k < r.value :: !Matches(ps, ok, count, i, k)
    ensures r.None? ==> forall k | from <= k < count :: !Matches(ps, ok, count, i, k)
    decreases count - from
  {
    if from >= count then None
    else if Matches(ps, ok, count, i, from) then Some(from)
    else FirstMatch(ps, ok, count, i, from + 1)
  }

  /** Copy `i` verifies and a later copy verifies with the same payload. */
  predicate Agrees(ps: seq<Packet>, ok: seq<bool>, count: int, i: int)
    requires Votable(ps, ok, count) && 0 <= i < count
  {
    ok[i] && FirstMatch(ps, ok, count, i, i + 1).Some?
  }

  function FirstAgreeing(ps: seq<Packet>, ok: seq<bool>, count: int, from: int): (r: Option<int>)
    requires Votable(ps, ok, count) && 0 <= from
    ensures r.Some? ==> from <= r.value < count && Agrees(ps, ok, count, r.value)
    ensures r.Some? ==> forall k | from <= k < r.value :: !Agrees(ps, ok, count, k)
    ensures r.None? ==> forall k | from <= k < count :: !Agrees(ps, ok, count, k)
    decreases count - from
  {
    if from >= count then None
    else if Agrees(ps, ok, count, from) then Some(from)
    else FirstAgreeing(ps, ok, count, from + 1)
  }

  function FirstIntact(ok: seq<bool>, count: int, from: int): (r: Option<int>)
    requires count <= |ok| && 0 <= from
    ensures r.Some? ==> from <= r.value < count && ok[r.value]
    ensures r.Some? ==> forall k | from <= k < r.value :: !ok[k]
    ensures r.None? ==> forall k | from <= k < count :: !ok[k]
    decreases count - from
  {
    if from >= count then None
    else if ok[from] then Some(from)
    else FirstIntact(ok, count, from + 1)
  }

  /** The copy recover_from_redundancy returns: a single copy if it
      verifies; otherwise the first copy that a later copy confirms, and
      failing that the first copy that verifies. */
  function VoteOn(ps: seq<Packet>, ok: seq<bool>, count: int): Option<int>
    requires Votable(ps, ok, count)
  {
    if count == 1 then (if ok[0] then Some(0) else None)
    else if FirstAgreeing(ps, ok, count, 0).Some? then FirstAgreeing(ps, ok, count, 0)
    else FirstIntact(ok, count, 0)
  }

  function Vote(ps: seq<Packet>, count: int): Option<int>
    requires AllSized(ps, count)
  {
    VoteOn(ps, Checks(ps, count), count)
  }

  /** The vote only returns a copy that verifies. */
  lemma {:induction false} VoteIsIntact(ps: seq<Packet>, count: int)
    requires AllSized(ps, count)
    ensures Vote(ps, count).Some? ==> 0 <= Vote(ps, count).value < count && Intact(ps[Vote(ps, count).value])
  {
  }

  /** The vote fails exactly when no copy verifies. */
  lemma {:induction false} VoteNoneIff(ps: seq<Packet>, count: int)
    requires AllSized(ps, count)
    ensures Vote(ps, count).None? <==> forall k | 0 <= k < count :: !Intact(ps[k])
  {
    VoteOnNoneIff(ps, Checks(ps, count), count);
  }

  lemma {:induction false} VoteOnNoneIff(ps: seq<Packet>, ok: seq<bool>, count: int)
    requires Votable(ps, ok, count)
    ensures VoteOn(ps, ok, count).None? <==> forall k | 0 <= k < count :: !ok[k]
  {
    if count != 1 {
      var a := FirstAgreeing(ps, ok, count, 0);
      if a.Some? {
        assert ok[a.value];
      }
    }
  }

  /** With two or more copies, a confirmed copy wins over an unconfirmed
      one: the vote is the first copy that a later copy confirms. */
  lemma {:induction false} VotePrefersAgreement(ps: seq<Packet>, count: int, i: int)
    requires AllSized(ps, count) && count != 1 && 0 <= i < count
    requires Agrees(ps, Checks(ps, count), count, i)
    requires forall k | 0 <= k < i :: !Agrees(ps, Checks(ps, count), count, k)
    ensures Vote(ps, count) == Some(i)
  {
  }

  /** The copies from lo to hi that fail the check. */
  function Corrupt(ok: seq<bool>, lo: int, hi: int): nat
    requires hi <= |ok| && 0 <= lo
    decreases hi - lo
  {
    if hi <= lo then 0 else Corrupt(ok, lo, hi - 1) + (if ok[hi - 1] then 0 else 1)
  }

  /** Failed checks in outer rounds 0 .. i when none of them finds a
      match: a corrupted copy fails once as the outer copy, and every
      intact copy re-checks all the copies after it. */
  function OuterFailures(ok: seq<bool>, count: int, i: int): nat
    requires count <= |ok| && 0 <= i <= count
    decreases i
  {
    if i == 0 then 0
    else OuterFailures(ok, count, i - 1) + (if ok[i - 1] then Corrupt(ok, i, count) else 1)
  }

  /** How many of the vote's integrity checks fail, each adding one to
      crc_errors. */
  function FailedChecksOn(ps: seq<Packet>, ok: seq<bool>, count: int): nat
    requires Votable(ps, ok, count)
  {
    if count == 1 then (if ok[0] then 0 else 1)
    else if FirstAgreeing(ps, ok, count, 0).Some? then
      var a := FirstAgreeing(ps, ok, count, 0).value;
      OuterFailures(ok, count, a) + Corrupt(ok, a + 1, FirstMatch(ps, ok, count, a, a + 1).value)
    else if count <= 0 then 0
    else OuterFailures(ok, count, count)
  }

  function FailedChecks(ps: seq<Packet>, count: int): nat
    requires AllSized(ps, count)
  {
    FailedChecksOn(ps, Checks(ps, count), count)
  }

  lemma {:induction false} CorruptAll(ok: seq<bool>, lo: int, hi: int)
    requires 0 <= lo <= hi <= |ok|
    requires forall k | lo <= k < hi :: !ok[k]
    ensures Corrupt(ok, lo, hi) == hi - lo
    decreases hi - lo
  {
    if hi > lo {
      CorruptAll(ok, lo, hi - 1);
    }
  }

  lemma {:induction false} CorruptNone(ok: seq<bool>, lo: int, hi: int)
    requires 0 <= lo && hi <= |ok|
    requires forall k | lo <= k < hi :: ok[k]
    ensures Corrupt(ok, lo, hi) == 0
    decreases hi - lo
  {
    if hi > lo {
      CorruptNone(ok, lo, hi - 1);
    }
  }

  lemma {:induction false} OuterAllCorrupt(ok: seq<bool>, count: int, i: int)
    requires count <= |ok| && 0 <= i <= count
    requires forall k | 0 <= k < count :: !ok[k]
    ensures OuterFailures(ok, count, i) == i
    decreases i
  {
    if i > 0 {
      OuterAllCorrupt(ok, count, i - 1);
    }
  }

  lemma {:induction false} OuterAllIntact(ok: seq<bool>, count: int, i: int)
    requires count <= |ok| && 0 <= i <= count
    requires forall k | 0 <= k < count :: ok[k]
    ensures OuterFailures(ok, count, i) == 0
    decreases i
  {
    if i > 0 {
      OuterAllIntact(ok, count, i - 1);
      CorruptNone(ok, i, count);
    }
  }

  /** When every copy is corrupted, each is counted exactly once. */
  lemma {:induction false} AllCorruptCountsEach(ps: seq<Packet>, count: int)
    requires AllSized(ps, count) && count >= 1
    requires forall k | 0 <= k < count :: !Intact(ps[k])
    ensures FailedChecks(ps, count) == count
  {
    var ok := Checks(ps, count);
    if count != 1 {
      OuterAllCorrupt(ok, count, count);
    }
  }

  /** When every copy verifies, crc_errors does not move. */
  lemma {:induction false} AllIntactCountsNone(ps: seq<Packet>, count: int)
    requires AllSized(ps, count)
    requires forall k | 0 <= k < count :: Intact(ps[k])
    ensures FailedChecks(ps, count) == 0
  {
    var ok := Checks(ps, count);
    var a := FirstAgreeing(ps, ok, count, 0);
    if count != 1 && a.Some? {
      OuterAllIntact(ok, count, a.value);
      CorruptNone(ok, a.value + 1, FirstMatch(ps, ok, count, a.value, a.value + 1).value);
    } else if count > 1 {
      OuterAllIntact(ok, count, count);
    }
  }

  /** Two copies, the first verifying and the second not: the second is
      counted twice, once by the first copy's inner scan and once as an
      outer copy. */
  lemma {:induction false} CorruptAfterIntactCountsTwice(ps: seq<Packet>)
    requires AllSized(ps, 2) && Intact(ps[0]) && !Intact(ps[1])
    ensures FailedChecks(ps, 2) == 2
  {
    var ok := Checks(ps, 2);
    assert !Matches(ps, ok, 2, 0, 1);
    assert FirstMatch(ps, ok, 2, 1, 2).None?;
    assert FirstAgreeing(ps, ok, 2, 0).None?;
  }

  // ------------------------------------------------------------ the state

  /** The ring index after `h`: (h + 1) & 31. */
  lemma {:induction false} NextSlot(h: Byte)
    requires h < 32
    ensures (h + 1) & 31 < 32 && ((h + 1) & 31) as int == (h as int + 1) % QueueSize
  {
  }

  /** The transmission of round `k`: its copy, on the channel its priority picks. */
  function Copy(q: Packet, results: seq<bool>, k: nat): Transmission
    requires PacketSized(q) && k < |results| && k < RedundancyFactor
  {
    Transmission(ChannelFor(q[PriorityOffset]), q[DstNodeOffset], SentCopy(q, results, k))
  }

  /** The copies sent in the first `n` rounds, in order. */
  function Sent(q: Packet, results: seq<bool>, n: nat): (r: seq<Transmission>)
    requires PacketSized(q) && n <= |results| && n <= RedundancyFactor
    ensures |r| == n
  {
    if n == 0 then [] else Sent(q, results, n - 1) + [Copy(q, results, n - 1)]
  }

  /** The part of telemetry_ctx_t the core works on: the two rings and
      the counters and log of transmissions. */
  class TelemetryContext {
    var txQueue: array<Packet>
    var rxQueue: array<Packet>
    var txHead: Byte
    var txTail: Byte
    var rxHead: Byte
    var rxTail: Byte
    var crcErrors: U32
    var retransmissions: U32
    /** Calls of tcp_send_critical and udp_send_telemetry, in order. */
    var transmissions: seq<Transmission>

    ghost predicate Valid()
      reads this
    {
      && txQueue.Length == QueueSize && rxQueue.Length == QueueSize && txQueue != rxQueue
      && txHead < 32 && txTail < 32 && rxHead < 32 && rxTail < 32
    }

    /** The packets queued in the tx or the rx ring, oldest first. */
    function Queue(isTx: bool): seq<Packet>
      reads this, txQueue, rxQueue
      requires Valid()
    {
      if isTx then QueueOf(txQueue[..], txHead, txTail) else QueueOf(rxQueue[..], rxHead, rxTail)
    }

    /** The zeroed context of telemetry_init: empty rings, zero counters. */
    constructor ()
      ensures Valid() && fresh(txQueue) && fresh(rxQueue)
      ensures Queue(true) == [] && Queue(false) == []
      ensures crcErrors == 0 && retransmissions == 0 && transmissions == []
    {
      txQueue := new Packet[QueueSize](_ => []);
      rxQueue := new Packet[QueueSize](_ => []);
      txHead, txTail, rxHead, rxTail := 0, 0, 0, 0;
      crcErrors, retransmissions := 0, 0;
      transmissions := [];
    }

    /** verify_packet_integrity */
    method VerifyPacketIntegrity(p: Packet) returns (ok: bool)
      requires PacketSized(p)
      modifies this`crcErrors
      ensures ok == Intact(p)
      ensures crcErrors == if ok then old(crcErrors) else old(crcErrors) + 1
    {
      var calcCrc := CalculateCrc32(p[CrcRegionStart..]);
      if calcCrc != RspU32(p, CrcOffset) {
        crcErrors := crcErrors + 1;
        return false;
      }
      return true;
    }

    /** enqueue_packet: copy the packet into the chosen ring unless it is
        full. */
    method EnqueuePacket(p: Packet, isTx: bool) returns (ok: bool)
      requires Valid()
      modifies this`txHead, this`rxHead, txQueue, rxQueue
      ensures Valid()
      ensures ok <==> |old(Queue(isTx))| < QueueSize - 1
      ensures Queue(isTx) == if ok then old(Queue(isTx)) + [p] else old(Queue(isTx))
      ensures Queue(!isTx) == old(Queue(!isTx))
      ensures !ok ==> unchanged(txQueue, rxQueue) && txHead == old(txHead) && rxHead == old(rxHead)
    {
      if isTx {
        ok, txHead := RingEnqueue(txQueue, txHead, txTail, p);
      } else {
        ok, rxHead := RingEnqueue(rxQueue, rxHead, rxTail, p);
      }
    }

    /** dequeue_packet: the oldest packet of the chosen ring, if any. */
    method DequeuePacket(isTx: bool) returns (r: Option<Packet>)
      requires Valid()
      modifies this`txTail, this`rxTail
      ensures Valid()
      ensures r == if old(Queue(isTx)) == [] then None else Some(old(Queue(isTx))[0])
      ensures Queue(isTx) == if old(Queue(isTx)) == [] then old(Queue(isTx)) else old(Queue(isTx))[1..]
      ensures Queue(!isTx) == old(Queue(!isTx))
    {
      if isTx {
        r, txTail := RingDequeue(txQueue, txHead, txTail);
      } else {
        r, rxTail := RingDequeue(rxQueue, rxHead, rxTail);
      }
    }

    /** send_with_redundancy: `results[i]` is what the transport call of
        round i reports. The packet is changed in place. */
    method SendWithRedundancy(p: array<Byte>, results: seq<bool>) returns (success: bool)
      requires p.Length == PacketSize && |results| >= Copies(p[PriorityOffset])
      modifies p, this`retransmissions, this`transmissions
      ensures var q := old(p[..]);
        var n := Copies(q[PriorityOffset]);
        && p[..] == Rounds(q, results, n)
        && transmissions == old(transmissions) + Sent(q, results, n)
        && retransmissions == AddU32(old(retransmissions), RetryTotal(q, results, n))
        && success == results[n - 1]
    {
      ghost var q := p[..];
      var copies := if p[PriorityOffset] == Critical then RedundancyFactor else 1;
      success := false;
      var i := 0;
      while i < copies
        invariant 0 <= i <= copies == Copies(q[PriorityOffset])
        invariant p[..] == Rounds(q, results, i)
        invariant transmissions == old(transmissions) + Sent(q, results, i)
        invariant retransmissions == AddU32(old(retransmissions), RetryTotal(q, results, i))
        invariant i > 0 ==> success == results[i - 1]
      {
        success := SendCopy(p, q, results, i, old(transmissions), old(retransmissions));
        i := i + 1;
      }
    }

    /** Round `i` of send_with_redundancy, after rounds 0 .. i - 1 of the
        packet `q` have gone out on top of `log` and `retrans`. */
    method SendCopy(p: array<Byte>, ghost q: Packet, results: seq<bool>, i: int,
                    ghost log: seq<Transmission>, ghost retrans: U32) returns (success: bool)
      requires p.Length == PacketSize && PacketSized(q) && 0 <= i < |results| && i < RedundancyFactor
      requires p[..] == Rounds(q, results, i) && transmissions == log + Sent(q, results, i)
      requires retransmissions == AddU32(retrans, RetryTotal(q, results, i))
      modifies p, this`retransmissions, this`transmissions
      ensures p[..] == Rounds(q, results, i + 1) && transmissions == log + Sent(q, results, i + 1)
      ensures retransmissions == AddU32(retrans, RetryTotal(q, results, i + 1))
      ensures success == results[i]
    {
      ghost var p0, t0, r0 := p[..], transmissions, retransmissions;
      success := SendRound(p, i as Byte, results[i]);
      SendStep(q, results, i, log, retrans, p0, p[..], t0, transmissions, r0, retransmissions);
    }

    /** recover_from_redundancy: the index of the chosen copy, or None for
        NULL. Every failed integrity check adds one to crc_errors. */
    method RecoverFromRedundancy(ps: seq<Packet>, count: int) returns (r: Option<int>)
      requires AllSized(ps, count)
      modifies this`crcErrors
      ensures r == Vote(ps, count)
      ensures crcErrors == AddU32(old(crcErrors), FailedChecks(ps, count))
    {
      ghost var ok := Checks(ps, count);
      if count == 1 {
        var valid := CheckCopy(ps, ok, count, 0);
        r := if valid then Some(0) else None;
        return;
      }
      r := VoteScan(ps, ok, count);
    }

    /** verify_packet_integrity on copy `j`, seen through its outcome. */
    method CheckCopy(ps: seq<Packet>, ghost ok: seq<bool>, count: int, j: int) returns (valid: bool)
      requires Votable(ps, ok, count) && CheckedBy(ps, ok, count) && 0 <= j < count
      modifies this`crcErrors
      ensures valid == ok[j]
      ensures crcErrors == if valid then old(crcErrors) else old(crcErrors) + 1
    {
      valid := VerifyPacketIntegrity(ps[j]);
    }

    /** The nested loops of recover_from_redundancy for two or more
        copies. */
    method VoteScan(ps: seq<Packet>, ghost ok: seq<bool>, count: int) returns (r: Option<int>)
      requires Votable(ps, ok, count) && CheckedBy(ps, ok, count) && count != 1
      modifies this`crcErrors
      ensures r == VoteOn(ps, ok, count)
      ensures crcErrors == AddU32(old(crcErrors), FailedChecksOn(ps, ok, count))
    {
      var best := -1;
      var i := 0;
      while i < count
        invariant 0 <= i <= Max(count, 0)
        invariant forall k | 0 <= k < i :: !Agrees(ps, ok, count, k)
        invariant best == if FirstIntact(ok, i, 0).Some? then FirstIntact(ok, i, 0).value else -1
        invariant crcErrors == AddU32(old(crcErrors), OuterFailures(ok, Max(count, 0), i))
      {
        var valid, found := OuterRound(ps, ok, count, i, old(crcErrors));
        FirstIntactNext(ok, i);
        if valid && best == -1 {
          best := i;
        }
        if found {
          return Some(i);
        }
        i := i + 1;
      }
      OuterDone(ps, ok, count, best, old(crcErrors), crcErrors);
      r := if best >= 0 then Some(best) else None;
    }

    /** One round of the outer loop: checks copy `i` and, when it
        verifies, scans the later copies for a match. */
    method OuterRound(ps: seq<Packet>, ghost ok: seq<bool>, count: int, i: int, ghost x: U32)
      returns (valid: bool, found: bool)
      requires Votable(ps, ok, count) && CheckedBy(ps, ok, count) && 0 <= i < count && count != 1
      requires forall k | 0 <= k < i :: !Agrees(ps, ok, count, k)
      requires crcErrors == AddU32(x, OuterFailures(ok, Max(count, 0), i))
      modifies this`crcErrors
      ensures valid == ok[i] && (found ==> valid)
      ensures found ==> VoteOn(ps, ok, count) == Some(i) && crcErrors == AddU32(x, FailedChecksOn(ps, ok, count))
      ensures !found ==> forall k | 0 <= k < i + 1 :: !Agrees(ps, ok, count, k)
      ensures !found ==> crcErrors == AddU32(x, OuterFailures(ok, Max(count, 0), i + 1))
    {
      ghost var before := crcErrors;
      valid := CheckCopy(ps, ok, count, i);
      if valid {
        ghost var checked := crcErrors;
        found := ScanMatches(ps, ok, count, i);
        OuterIntact(ps, ok, count, i, found, x, checked, crcErrors);
      } else {
        found := false;
        OuterCorrupt(ps, ok, count, i, x, before, crcErrors);
      }
    }

    /** The inner loop for an intact copy `i`: checks the later copies
        until one carries the same payload. */
    method ScanMatches(ps: seq<Packet>, ghost ok: seq<bool>, count: int, i: int) returns (found: bool)
      requires Votable(ps, ok, count) && CheckedBy(ps, ok, count) && 0 <= i < count
      modifies this`crcErrors
      ensures found == FirstMatch(ps, ok, count, i, i + 1).Some?
      ensures crcErrors == AddU32(old(crcErrors), Corrupt(ok, i + 1, MatchEnd(ps, ok, count, i)))
    {
      var j := i + 1;
      while j < count
        invariant i + 1 <= j <= count
        invariant forall k | i + 1 <= k < j :: !Matches(ps, ok, count, i, k)
        invariant crcErrors == AddU32(old(crcErrors), Corrupt(ok, i + 1, j))
      {
        var same := InnerRound(ps, ok, count, i, j, old(crcErrors));
        if same {
          return true;
        }
        j := j + 1;
      }
      ScanDone(ps, ok, count, i, old(crcErrors), crcErrors);
      return false;
    }

    /** One round of the inner loop: checks copy `j` and compares its
        payload with copy `i`'s. */
    method InnerRound(ps: seq<Packet>, ghost ok: seq<bool>, count: int, i: int, j: int, ghost x: U32)
      returns (same: bool)
      requires Votable(ps, ok, count) && CheckedBy(ps, ok, count) && 0 <= i < j < count
      requires forall k | i + 1 <= k < j :: !Matches(ps, ok, count, i, k)
      requires crcErrors == AddU32(x, Corrupt(ok, i + 1, j))
      modifies this`crcErrors
      ensures same ==> FirstMatch(ps, ok, count, i, i + 1).Some? && crcErrors == AddU32(x, Corrupt(ok, i + 1, MatchEnd(ps, ok, count, i)))
      ensures !same ==> forall k | i + 1 <= k < j + 1 :: !Matches(ps, ok, count, i, k)
      ensures !same ==> crcErrors == AddU32(x, Corrupt(ok, i + 1, j + 1))
    {
      ghost var before := crcErrors;
      var valid := CheckCopy(ps, ok, count, j);
      same := valid && SamePayload(ps[i], ps[j]);
      ScanStep(ps, ok, count, i, j, same, x, before, crcErrors);
    }

    /** One round of send_with_redundancy's loop. */
    method SendRound(p: array<Byte>, i: Byte, ok: bool) returns (success: bool)
      requires p.Length == PacketSize
      modifies p, this`retransmissions, this`transmissions
      ensures success == ok
      ensures p[..] == AfterSend(Stamp(old(p[..]), i), ok)
      ensures transmissions == old(transmissions) +
        [Transmission(ChannelFor(old(p[PriorityOffset])), old(p[DstNodeOffset]), Stamp(old(p[..]), i))]
      ensures retransmissions ==
        if !ok && Stamp(old(p[..]), i)[RetryCountOffset] < MaxRetries then old(retransmissions) + 1 else old(retransmissions)
    {
      ghost var q := p[..];
      StampHeader(q, i);
      StampPacket(p, i);
      Transmit(p);
      success := ok;
      if !success && p[RetryCountOffset] < MaxRetries {
        BumpRetry(p);
        retransmissions := retransmissions + 1;
      }
    }

    /** The transport call of a round: the packet goes out on the channel
        its priority picks, to its destination node. */
    method Transmit(p: array<Byte>)
      requires p.Length == PacketSize
      modifies this`transmissions
      ensures transmissions == old(transmissions) +
        [Transmission(ChannelFor(p[PriorityOffset]), p[DstNodeOffset], p[..])]
    {
      var channel := if p[PriorityOffset] <= High then Tcp else Udp(p[PriorityOffset]);
      transmissions := transmissions + [Transmission(channel, p[DstNodeOffset], p[..])];
    }

    /** The failure branch of a round: retry_count goes up by one. */
    static method BumpRetry(p: array<Byte>)
      requires p.Length == PacketSize && p[RetryCountOffset] < MaxRetries
      modifies p
      ensures p[..] == AfterSend(old(p[..]), false)
    {
      ghost var s := p[..];
      var retries := p[RetryCountOffset] + 1;
      p[RetryCountOffset] := retries;
      assert p[..] == s[RetryCountOffset := retries];
    }
  }

  /** Sets redundancy_id and stores the fresh CRC, in place. */
  method StampPacket(p: array<Byte>, i: Byte)
    requires p.Length == PacketSize
    modifies p
    ensures p[..] == Stamp(old(p[..]), i)
  {
    p[RedundancyIdOffset] := i;
    var crc := CalculateCrc32(p[CrcRegionStart..]);
    StoreCrc(p, crc);
  }

  /** Stamping keeps the priority and the destination node. */
  lemma {:induction false} StampHeader(q: Packet, i: Byte)
    requires PacketSized(q)
    ensures Stamp(q, i)[PriorityOffset] == q[PriorityOffset] && Stamp(q, i)[DstNodeOffset] == q[DstNodeOffset]
  {
    StampFacts(q, i);
  }

  /** One loop iteration of send_with_redundancy against the
      specification: round `i` takes the state after `i` rounds to the
      state after `i + 1`. */
  lemma {:induction false} SendStep(q: Packet, results: seq<bool>, i: nat, log: seq<Transmission>, retrans: U32,
                                    p0: Packet, p1: Packet, t0: seq<Transmission>, t1: seq<Transmission>, r0: U32, r1: U32)
    requires PacketSized(q) && i < |results| && i < RedundancyFactor
    requires p0 == Rounds(q, results, i) && t0 == log + Sent(q, results, i) && r0 == AddU32(retrans, RetryTotal(q, results, i))
    requires p1 == AfterSend(Stamp(p0, i as Byte), results[i])
    requires t1 == t0 + [Transmission(ChannelFor(p0[PriorityOffset]), p0[DstNodeOffset], Stamp(p0, i as Byte))]
    requires r1 == if !results[i] && Stamp(p0, i as Byte)[RetryCountOffset] < MaxRetries then r0 + 1 else r0
    ensures p1 == Rounds(q, results, i + 1)
    ensures t1 == log + Sent(q, results, i + 1)
    ensures r1 == AddU32(retrans, RetryTotal(q, results, i + 1))
  {
    RoundNext(q, results, i);
    LogStep(q, results, i, log, t0, t1);
    RetryStep(q, results, i, retrans, r0, r1);
  }

  lemma {:induction false} LogStep(q: Packet, results: seq<bool>, i: nat, log: seq<Transmission>,
                                   t0: seq<Transmission>, t1: seq<Transmission>)
    requires PacketSized(q) && i < |results| && i < RedundancyFactor
    requires t0 == log + Sent(q, results, i)
    requires t1 == t0 + [Transmission(ChannelFor(q[PriorityOffset]), q[DstNodeOffset], SentCopy(q, results, i))]
    ensures t1 == log + Sent(q, results, i + 1)
  {
    assert Sent(q, results, i + 1) == Sent(q, results, i) + [Copy(q, results, i)];
    AppendAssoc(log, Sent(q, results, i), [Copy(q, results, i)]);
  }

  lemma {:induction false} RetryStep(q: Packet, results: seq<bool>, i: nat, retrans: U32, r0: U32, r1: U32)
    requires PacketSized(q) && i < |results| && i < RedundancyFactor
    requires r0 == AddU32(retrans, RetryTotal(q, results, i))
    requires r1 == if Retried(q, results, i) then r0 + 1 else r0
    ensures r1 == AddU32(retrans, RetryTotal(q, results, i + 1))
  {
    var n := RetryTotal(q, results, i);
    var bump := if Retried(q, results, i) then 1 else 0;
    assert RetryTotal(q, results, i + 1) == n + bump;
    CounterStepTo(retrans, n, bump, RetryTotal(q, results, i + 1), r0, r1);
  }

  lemma {:induction false} CounterStepTo(x: U32, n: nat, bump: nat, m: nat, r0: U32, r1: U32)
    requires bump <= 1 && m == n + bump && r0 == AddU32(x, n) && r1 == if bump == 1 then r0 + 1 else r0
    ensures r1 == AddU32(x, m)
  {
    CounterStep(x, n, bump, r0, r1);
  }

  lemma {:induction false} CounterStep(x: U32, n: nat, bump: nat, r0: U32, r1: U32)
    requires bump <= 1 && r0 == AddU32(x, n) && r1 == if bump == 1 then r0 + 1 else r0
    ensures r1 == AddU32(x, n + bump)
  {
  }

  /** Round `i` of the specification, unfolded. */
  lemma {:induction false} RoundNext(q: Packet, results: seq<bool>, i: nat)
    requires PacketSized(q) && i < |results| && i < RedundancyFactor
    ensures SentCopy(q, results, i) == Stamp(Rounds(q, results, i), i as Byte)
    ensures Rounds(q, results, i + 1) == AfterSend(SentCopy(q, results, i), results[i])
    ensures RetryTotal(q, results, i + 1) == RetryTotal(q, results, i) + if Retried(q, results, i) then 1 else 0
    ensures Rounds(q, results, i)[PriorityOffset] == q[PriorityOffset]
    ensures Rounds(q, results, i)[DstNodeOffset] == q[DstNodeOffset]
  {
    RoundsKeepRest(q, results, i);
  }

  /** A ring's contents for its uint8_t head and tail. */
  function QueueOf(slots: seq<Packet>, head: Byte, tail: Byte): (r: seq<Packet>)
    requires |slots| == QueueSize && head < 32 && tail < 32
    ensures |r| < QueueSize
  {
    RingContents(slots, head as int, tail as int)
  }

  /** RingFull on uint8_t indices. */
  lemma {:induction false} QueueFull(slots: seq<Packet>, head: Byte, tail: Byte)
    requires |slots| == QueueSize && head < 32 && tail < 32
    ensures ((head + 1) & 31 == tail) <==> |QueueOf(slots, head, tail)| == QueueSize - 1
  {
    var next := (head + 1) & 31;
    NextSlot(head);
    RingFull(head as int, tail as int);
    if next as int == tail as int {
      ByteValueInjective(next, tail);
    }
  }

  /** RingPush on uint8_t indices. */
  lemma {:induction false} QueuePush(slots: seq<Packet>, head: Byte, tail: Byte, x: Packet)
    requires |slots| == QueueSize && head < 32 && tail < 32 && (head + 1) & 31 != tail
    ensures (head + 1) & 31 < 32
    ensures QueueOf(slots[head as int := x], (head + 1) & 31, tail) == QueueOf(slots, head, tail) + [x]
  {
    NextSlot(head);
    RingPush(slots, head as int, tail as int, x);
  }

  /** RingEmpty on uint8_t indices. */
  lemma {:induction false} QueueEmpty(slots: seq<Packet>, head: Byte, tail: Byte)
    requires |slots| == QueueSize && head < 32 && tail < 32
    ensures QueueOf(slots, head, tail) == [] <==> head == tail
  {
    RingEmpty(slots, head as int, tail as int);
    if head as int == tail as int {
      ByteValueInjective(head, tail);
    }
  }

  /** RingPop on uint8_t indices. */
  lemma {:induction false} QueuePop(slots: seq<Packet>, head: Byte, tail: Byte)
    requires |slots| == QueueSize && head < 32 && tail < 32 && head != tail
    ensures (tail + 1) & 31 < 32
    ensures QueueOf(slots, head, tail) != []
    ensures QueueOf(slots, head, tail)[0] == slots[tail as int]
    ensures QueueOf(slots, head, (tail + 1) & 31) == QueueOf(slots, head, tail)[1..]
  {
    NextSlot(tail);
    QueueEmpty(slots, head, tail);
    RingPop(slots, head as int, tail as int);
  }

  /** Where the inner scan of copy `i` stops: at its first match, or at
      the end. */
  function MatchEnd(ps: seq<Packet>, ok: seq<bool>, count: int, i: int): int
    requires Votable(ps, ok, count) && 0 <= i < count
  {
    var m := FirstMatch(ps, ok, count, i, i + 1);
    if m.Some? then m.value else count
  }

  /** An outer round of the vote at an intact copy `i`, after its inner
      scan: either `i` is confirmed and wins, or the vote moves on. */
  lemma {:induction false} OuterIntact(ps: seq<Packet>, ok: seq<bool>, count: int, i: int, found: bool,
                                       x: U32, before: U32, after: U32)
    requires Votable(ps, ok, count) && 0 <= i < count && count != 1 && ok[i]
    requires forall k | 0 <= k < i :: !Agrees(ps, ok, count, k)
    requires found == FirstMatch(ps, ok, count, i, i + 1).Some?
    requires before == AddU32(x, OuterFailures(ok, Max(count, 0), i))
    requires after == AddU32(before, Corrupt(ok, i + 1, MatchEnd(ps, ok, count, i)))
    ensures found ==> VoteOn(ps, ok, count) == Some(i) && after == AddU32(x, FailedChecksOn(ps, ok, count))
    ensures !found ==> forall k | 0 <= k < i + 1 :: !Agrees(ps, ok, count, k)
    ensures !found ==> after == AddU32(x, OuterFailures(ok, Max(count, 0), i + 1))
  {
    AddU32Add(x, OuterFailures(ok, Max(count, 0), i), Corrupt(ok, i + 1, MatchEnd(ps, ok, count, i)));
    if found {
      FirstAgreeingIs(ps, ok, count, i);
    }
  }

  /** An outer round of the vote at a corrupted copy `i`. */
  lemma {:induction false} OuterCorrupt(ps: seq<Packet>, ok: seq<bool>, count: int, i: int,
                                        x: U32, before: U32, after: U32)
    requires Votable(ps, ok, count) && 0 <= i < count && !ok[i]
    requires forall k | 0 <= k < i :: !Agrees(ps, ok, count, k)
    requires before == AddU32(x, OuterFailures(ok, Max(count, 0), i))
    requires after == before + 1
    ensures forall k | 0 <= k < i + 1 :: !Agrees(ps, ok, count, k)
    ensures after == AddU32(x, OuterFailures(ok, Max(count, 0), i + 1))
  {
    CounterStep(x, OuterFailures(ok, Max(count, 0), i), 1, before, after);
  }

  /** The vote with no confirmed copy falls back to the first intact one. */
  lemma {:induction false} OuterDone(ps: seq<Packet>, ok: seq<bool>, count: int, best: int, x: U32, after: U32)
    requires Votable(ps, ok, count) && count != 1
    requires forall k | 0 <= k < count :: !Agrees(ps, ok, count, k)
    requires best == if FirstIntact(ok, Max(count, 0), 0).Some? then FirstIntact(ok, Max(count, 0), 0).value else -1
    requires after == AddU32(x, OuterFailures(ok, Max(count, 0), Max(count, 0)))
    ensures VoteOn(ps, ok, count) == if best >= 0 then Some(best) else None
    ensures after == AddU32(x, FailedChecksOn(ps, ok, count))
  {
    NoneAgree(ps, ok, count);
  }

  /** One step of the inner scan of copy `i`, at copy `j`. */
  lemma {:induction false} ScanStep(ps: seq<Packet>, ok: seq<bool>, count: int, i: int, j: int, same: bool,
                                    x: U32, before: U32, after: U32)
    requires Votable(ps, ok, count) && 0 <= i < j < count
    requires forall k | i + 1 <= k < j :: !Matches(ps, ok, count, i, k)
    requires same == Matches(ps, ok, count, i, j)
    requires before == AddU32(x, Corrupt(ok, i + 1, j))
    requires after == if ok[j] then before else before + 1
    ensures same ==> FirstMatch(ps, ok, count, i, i + 1).Some? && after == AddU32(x, Corrupt(ok, i + 1, MatchEnd(ps, ok, count, i)))
    ensures !same ==> forall k | i + 1 <= k < j + 1 :: !Matches(ps, ok, count, i, k)
    ensures !same ==> after == AddU32(x, Corrupt(ok, i + 1, j + 1))
  {
    CounterStep(x, Corrupt(ok, i + 1, j), if ok[j] then 0 else 1, before, after);
    if same {
      FirstMatchIs(ps, ok, count, i, j);
    }
  }

  /** The inner scan of copy `i` that runs to the end finds nothing. */
  lemma {:induction false} ScanDone(ps: seq<Packet>, ok: seq<bool>, count: int, i: int, x: U32, after: U32)
    requires Votable(ps, ok, count) && 0 <= i < count
    requires forall k | i + 1 <= k < count :: !Matches(ps, ok, count, i, k)
    requires after == AddU32(x, Corrupt(ok, i + 1, count))
    ensures FirstMatch(ps, ok, count, i, i + 1).None?
    ensures after == AddU32(x, Corrupt(ok, i + 1, MatchEnd(ps, ok, count, i)))
  {
    FirstMatchNone(ps, ok, count, i);
  }

  lemma {:induction false} FirstMatchIs(ps: seq<Packet>, ok: seq<bool>, count: int, i: int, j: int)
    requires Votable(ps, ok, count) && 0 <= i < j < count
    requires Matches(ps, ok, count, i, j) && forall k | i + 1 <= k < j :: !Matches(ps, ok, count, i, k)
    ensures FirstMatch(ps, ok, count, i, i + 1) == Some(j)
  {
  }

  lemma {:induction false} FirstMatchNone(ps: seq<Packet>, ok: seq<bool>, count: int, i: int)
    requires Votable(ps, ok, count) && 0 <= i < count
    requires forall k | i + 1 <= k < count :: !Matches(ps, ok, count, i, k)
    ensures FirstMatch(ps, ok, count, i, i + 1).None?
  {
  }

  lemma {:induction false} FirstAgreeingIs(ps: seq<Packet>, ok: seq<bool>, count: int, i: int)
    requires Votable(ps, ok, count) && 0 <= i < count
    requires Agrees(ps, ok, count, i) && forall k | 0 <= k < i :: !Agrees(ps, ok, count, k)
    ensures FirstAgreeing(ps, ok, count, 0) == Some(i)
  {
  }

  lemma {:induction false} NoneAgree(ps: seq<Packet>, ok: seq<bool>, count: int)
    requires Votable(ps, ok, count)
    requires forall k | 0 <= k < count :: !Agrees(ps, ok, count, k)
    ensures FirstAgreeing(ps, ok, count, 0).None?
  {
  }

  /** The first intact copy among i + 1 copies. */
  lemma {:induction false} FirstIntactNext(ok: seq<bool>, i: int)
    requires 0 <= i < |ok|
    ensures FirstIntact(ok, i + 1, 0) ==
      if FirstIntact(ok, i, 0).Some? then FirstIntact(ok, i, 0) else if ok[i] then Some(i) else None
  {
  }

  /** Writes the crc32 field, little-endian. */
  method StoreCrc(p: array<Byte>, crc: U32)
    requires p.Length == PacketSize
    modifies p
    ensures p[..] == SetCrc(old(p[..]), crc)
  {
    p[CrcOffset] := Low8(crc);
    p[CrcOffset + 1] := Low8(crc >> 8);
    p[CrcOffset + 2] := Low8(crc >> 16);
    p[CrcOffset + 3] := Low8(crc >> 24);
  }

  /** The body of enqueue_packet on one ring: the new head is returned. */
  method RingEnqueue(slots: array<Packet>, head: Byte, tail: Byte, p: Packet) returns (ok: bool, next: Byte)
    requires slots.Length == QueueSize && head < 32 && tail < 32
    modifies slots
    ensures next < 32
    ensures ok <==> |QueueOf(old(slots[..]), head, tail)| < QueueSize - 1
    ensures ok ==> QueueOf(slots[..], next, tail) == QueueOf(old(slots[..]), head, tail) + [p]
    ensures !ok ==> unchanged(slots) && next == head
  {
    QueueFull(slots[..], head, tail);
    next := (head + 1) & 31;
    if next == tail {
      return false, head;
    }
    QueuePush(slots[..], head, tail, p);
    slots[head] := p;
    ok := true;
  }

  /** The body of dequeue_packet on one ring: the new tail is returned. */
  method RingDequeue(slots: array<Packet>, head: Byte, tail: Byte) returns (r: Option<Packet>, next: Byte)
    requires slots.Length == QueueSize && head < 32 && tail < 32
    ensures next < 32
    ensures var q := QueueOf(slots[..], head, tail);
      && r == (if q == [] then None else Some(q[0]))
      && QueueOf(slots[..], head, next) == (if q == [] then q else q[1..])
  {
    QueueEmpty(slots[..], head, tail);
    if tail == head {
      return None, tail;
    }
    QueuePop(slots[..], head, tail);
    r := Some(slots[tail]);
    next := (tail + 1) & 31;
  }
}

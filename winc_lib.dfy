/** The socket pool, the response dispatcher and the host-interface (HIF)
    framing of the WINC1500 driver (winc_lib.c).

    The SPI transport is not modelled: `hif_put` appends the message it
    would frame to an outgoing log and reports success or failure
    nondeterministically; what the chip answers reaches the model as the
    parameters of `InterruptHandler`. Socket handlers and the mesh data
    callback are code this model cannot see: invoking one appends an event
    to the same log. */
module WincLib {
  import opened WincHeader
  import opened Routes

  // ------------------------------------------------------------- values

  /** SOCK_ADDR, in the byte order the chip uses. */
  datatype SockAddr = SockAddr(family: U16, port: U16, ip: U32)

  /** A socket handler (SOCK_HANDLER): absent, or the identity of a
      handler the application installed. */
  datatype Handler = NoHandler | HandlerFn(id: nat)

  /** One slot of the socket table (SOCKET). */
  datatype Socket = Socket(addr: SockAddr, localport: U16, session: U16, state: int,
                           connSock: int, hifDataAddr: U32, handler: Handler)

  /** The slot that memset(0) leaves: CLOSED and without a handler. */
  const ClosedSocket: Socket := Socket(SockAddr(0, 0, 0), 0, 0, StateClosed, 0, 0, NoHandler)

  /** The control blocks of the socket commands. RECV and RECVFROM share
      one layout. */
  datatype Command =
    | BindCmd(saddr: SockAddr, sock: Byte, session: U16)
    | ListenCmd(sock: Byte, backlog: Byte, session: U16)
    | RecvCmd(timeout: U32, sock: Byte, session: U16)
    | SendtoCmd(sock: Byte, len: U16, saddr: SockAddr, session: U16)
    | CloseCmd(sock: Byte, session: U16)

  /** sizeof of each control block. */
  function CommandSize(c: Command): nat {
    match c
    case BindCmd(_, _, _) => 12
    case ListenCmd(_, _, _) => 4
    case RecvCmd(_, _, _) => 8
    case SendtoCmd(_, _, _, _) => 16
    case CloseCmd(_, _) => 4
  }

  /** A message handed to the chip: its gid/op code, the 8-byte HIF header
      written in front of it, the control block, and the data block written
      `oset` bytes after the start of the control block. */
  datatype HifMsg = HifMsg(gop: U16, hdr: seq<Byte>, cmd: Command, data: seq<Byte>, oset: nat)

  /** What leaves the driver: a message to the chip, a call of a socket
      handler, or a delivery to the mesh data callback. */
  datatype Event =
    | Sent(msg: HifMsg)
    | SockCall(handler: nat, sock: Byte, rxlen: int)
    | MeshDelivery(src: Byte, payload: seq<Byte>, len: U16)

  /** Connection state tracking (connection_state). */
  datatype Conn = Conn(connected: bool, dhcpDone: bool, apMode: bool, myIp: U32)

  /** GOP_AP_ENABLE, GOP_DHCP_CONF_AP and GOP_AP_ASSOC_INFO are used by the
      driver but defined in none of its files, so they are parameters. */
  datatype ApGops = ApGops(apEnable: U16, dhcpConfAp: U16, apAssocInfo: U16)

  /** The AP codes differ from every code the driver defines and from each
      other. */
  predicate Distinct(ap: ApGops) {
    var defined := {GopStateChange, GopDhcpConf, GopBind, GopListen, GopAccept,
                    GopSend, GopRecv, GopSendto, GopRecvfrom, GopClose};
    ap.apEnable !in defined && ap.dhcpConfAp !in defined && ap.apAssocInfo !in defined &&
    ap.apEnable != ap.dhcpConfAp && ap.apEnable != ap.apAssocInfo && ap.dhcpConfAp != ap.apAssocInfo
  }

  /** The header of an incoming HIF message (HIF_HDR). */
  datatype HifHdr = HifHdr(gid: Byte, op: Byte, len: U16)

  /** sizeof(RESP_MSG): the union's largest member is the 20-byte DHCP
      response (five words); its data[] view is only 16 bytes. */
  const RespSize: nat := 20

  // ------------------------------------------------------- pure helpers

  /** swap16: exchanges the two bytes of a port number. */
  function Swap16(v: U16): (r: U16)
    ensures (r & 0xFF) == v >> 8 && r >> 8 == (v & 0xFF)
  {
    (v >> 8) | ((v & 0xFF) << 8)
  }

  /** Swapping twice gives the port back. */
  lemma {:induction false} Swap16Involution(v: U16)
    ensures Swap16(Swap16(v)) == v
  {
  }

  /** sock_errs: the chip's socket error texts, by error number. */
  const SockErrs: seq<string> := ["OK", "Invalid addr", "Addr already in use",
    "Too many TCP socks", "Too many UDP socks", "?", "Invalid arg",
    "Too many listening socks", "?", "Invalid operation", "?",
    "Addr required", "Client closed", "Sock timeout", "Sock buffer full"]

  /** sock_err_str: the text for an error number of either sign; the empty
      string beyond the table. `-err` overflows for INT_MIN, so the source
      needs err > INT_MIN. */
  function SockErrStr(err: int): (r: string)
    requires -0x7FFF_FFFF <= err <= 0x7FFF_FFFF
    ensures r != "" <==> -|SockErrs| < err < |SockErrs|
    ensures -|SockErrs| < err < |SockErrs| ==> r == SockErrs[if err < 0 then -err else err]
  {
    var e := if err < 0 then -err else err;
    if e < |SockErrs| then SockErrs[e] else ""
  }

  /** An error code and its negation have the same text; 0 reads "OK". */
  lemma {:induction false} SockErrStrSymmetric(err: int)
    requires -0x7FFF_FFFF <= err <= 0x7FFF_FFFF
    ensures SockErrStr(-err) == SockErrStr(err)
    ensures SockErrStr(0) == "OK"
  {
  }

  /** The total length hif_put announces: header plus control block, or,
      when there is a data block, header plus its offset plus its length. */
  function HifLen(dlen1: nat, dlen2: nat, oset: nat): (n: nat)
    ensures n >= HifHdrSize
    ensures dlen2 == 0 ==> n == HifHdrSize + dlen1
    ensures dlen2 != 0 ==> n - HifHdrSize - oset == dlen2
  {
    HifHdrSize + (if dlen2 != 0 then oset + dlen2 else dlen1)
  }

  /** The 8-byte header hif_put writes in front of a message: gid, op
      without REQ_DATA, and the low two bytes of the length, low byte
      first. */
  function HifHeader(gop: U16, len: nat): (hdr: seq<Byte>)
    ensures |hdr| == HifHdrSize
  {
    var low16 := len % 0x1_0000;
    [(gop >> 8) as Byte, ((gop & 0xFF) as Byte) & 0x7F, (low16 % 0x100) as Byte, (low16 / 0x100) as Byte, 0, 0, 0, 0]
  }

  /** The header names the group and the operation the code was built from,
      with the REQ_DATA flag masked off, and carries the length modulo
      2^16, low byte first. */
  lemma {:induction false} HifHeaderFields(gid: Byte, op: Byte, data: bool, len: nat)
    requires op < 0x80
    ensures var gop := if data then GidOp(gid, op) | ReqData else GidOp(gid, op);
            var hdr := HifHeader(gop, len);
            hdr[0] == gid && hdr[1] == op && hdr[2] as int + 0x100 * hdr[3] as int == len % 0x1_0000
  {
    var gop := if data then GidOp(gid, op) | ReqData else GidOp(gid, op);
    GidOpFields(gid, op, data, gop);
    HifHeaderLength(gop, len);
  }

  lemma {:induction false} HifHeaderLength(gop: U16, len: nat)
    ensures HifHeader(gop, len)[2] as int + 0x100 * HifHeader(gop, len)[3] as int == len % 0x1_0000
  {
    var low16 := len % 0x1_0000;
    ByteOfInt(low16 % 0x100);
    ByteOfInt(low16 / 0x100);
  }

  lemma {:induction false} GidOpFields(gid: Byte, op: Byte, data: bool, gop: U16)
    requires op < 0x80
    requires gop == if data then GidOp(gid, op) | ReqData else GidOp(gid, op)
    ensures (gop >> 8) as Byte == gid && ((gop & 0xFF) as Byte) & 0x7F == op
  {
  }

  /** The message hif_put frames for a control block and a data block. */
  function Frame(gop: U16, cmd: Command, data: seq<Byte>, oset: nat): (m: HifMsg)
    ensures m.gop == gop && m.cmd == cmd && m.data == data && m.oset == oset
    ensures m.hdr == HifHeader(gop, HifLen(CommandSize(cmd), |data|, oset))
  {
    HifMsg(gop, HifHeader(gop, HifLen(CommandSize(cmd), |data|, oset)), cmd, data, oset)
  }

  // ----------------------------------------------------- command messages

  /** The local address put_sock_bind stores: any IP, port byte-swapped. */
  function BindAddr(port: U16): SockAddr {
    SockAddr(IpFamily, Swap16(port), 0)
  }

  function BindMsg(sock: Byte, port: U16, session: U16): HifMsg {
    Frame(GopBind, BindCmd(BindAddr(port), sock, session), [], 0)
  }

  function ListenMsg(sock: Byte, session: U16): HifMsg {
    Frame(GopListen, ListenCmd(sock, 0, session), [], 0)
  }

  /** RECV with timeout -1. */
  function RecvMsg(sock: Byte, session: U16): HifMsg {
    Frame(GopRecv, RecvCmd(0xFFFF_FFFF, sock, session), [], 0)
  }

  function RecvfromMsg(sock: Byte, session: U16): HifMsg {
    Frame(GopRecvfrom, RecvCmd(0xFFFF_FFFF, sock, session), [], 0)
  }

  function CloseMsg(sock: Byte, session: U16): HifMsg {
    Frame(GopClose, CloseCmd(sock, session), [], 0)
  }

  /** The 16-bit length field of SENDTO_CMD keeps the length modulo 2^16. */
  function Len16(n: nat): U16 {
    (n % 0x1_0000) as U16
  }

  /** put_sock_send: a TCP send to the socket's stored address. */
  function SendMsg(sock: Byte, sp: Socket, data: seq<Byte>): HifMsg {
    Frame(GopSend | ReqData, SendtoCmd(sock, Len16(|data|), sp.addr, sp.session), data, TcpDataOset)
  }

  /** The destination put_sock_sendto uses: broadcast for an unset IP and
      the socket's own local port for an unset port. */
  function SendtoDest(sp: Socket): (d: SockAddr)
    ensures d.family == sp.addr.family
    ensures d.ip == (if sp.addr.ip == 0 then 0xFFFF_FFFF else sp.addr.ip)
    ensures d.port == (if sp.addr.port == 0 then sp.localport else sp.addr.port)
  {
    SockAddr(sp.addr.family,
             if sp.addr.port == 0 then sp.localport else sp.addr.port,
             if sp.addr.ip == 0 then 0xFFFF_FFFF else sp.addr.ip)
  }

  /** put_sock_sendto: a UDP send; the destination port is byte-swapped
      into the command. */
  function SendtoMsg(sock: Byte, sp: Socket, data: seq<Byte>): HifMsg {
    var d := SendtoDest(sp);
    Frame(GopSendto | ReqData,
          SendtoCmd(sock, Len16(|data|), SockAddr(d.family, Swap16(d.port), d.ip), sp.session),
          data, UdpDataOset)
  }

  /** The port in a sendto command is the destination port, swapped; a
      socket whose port was stored by put_sock_bind (already swapped) is
      therefore sent to the port in host byte order. */
  lemma {:induction false} SendtoPort(sock: Byte, sp: Socket, data: seq<Byte>, port: U16)
    ensures Swap16(SendtoMsg(sock, sp, data).cmd.saddr.port) == SendtoDest(sp).port
    ensures sp.addr == BindAddr(port) && port != 0 ==>
              SendtoMsg(sock, sp, data).cmd.saddr.port == port &&
              SendtoMsg(sock, sp, data).cmd.saddr.ip == 0xFFFF_FFFF
  {
    Swap16Involution(SendtoDest(sp).port);
    Swap16Involution(port);
  }

  // ------------------------------------------------------ response fields

  /** RESP_MSG as read from the chip; ARM is little-endian. */
  function RespVal(r: seq<Byte>): U32 requires |r| == RespSize { RspU32(r, 0) }
  function BindSock(r: seq<Byte>): Byte requires |r| == RespSize { r[0] }
  function RespAddr(r: seq<Byte>): SockAddr
    requires |r| == RespSize
  {
    SockAddr(LeU16(r[0], r[1]), LeU16(r[2], r[3]), RspU32(r, 4))
  }
  function AcceptListen(r: seq<Byte>): Byte requires |r| == RespSize { r[8] }
  function AcceptConn(r: seq<Byte>): Byte requires |r| == RespSize { r[9] }
  function RecvOset(r: seq<Byte>): U16 requires |r| == RespSize { LeU16(r[10], r[11]) }
  function RecvSock(r: seq<Byte>): Byte requires |r| == RespSize { r[12] }

  /** The signed 16-bit dlen field. */
  function RecvDlen(r: seq<Byte>): (d: int)
    requires |r| == RespSize
    ensures -0x8000 <= d < 0x8000
  {
    var v := LeU16(r[8], r[9]) as int;
    if v >= 0x8000 then v - 0x1_0000 else v
  }

  /** hlen = MIN(len - HIF_HDR_SIZE, sizeof(RESP_MSG)): the comparison is
      done on size_t, so a negative difference counts as huge. */
  function BodyLen(len: U16): (h: int)
    ensures 0 <= h <= RespSize
    ensures 8 <= len as int < 8 + RespSize ==> h == len as int - 8
    ensures len as int < 8 || len as int >= 8 + RespSize ==> h == RespSize
  {
    var n := len as int;
    var d := if n >= HifHdrSize then n - HifHdrSize else n - HifHdrSize + 0x1_0000_0000;
    if d < RespSize then d else RespSize
  }

  // ------------------------------------------------------ socket pool spec

  /** The lowest CLOSED slot in [lo, hi), or -1. */
  function FreeSlot(s: seq<Socket>, lo: nat, hi: nat): (r: int)
    requires lo <= hi <= |s|
    decreases hi - lo
    ensures r == -1 || lo <= r < hi
    ensures r >= 0 ==> s[r].state == StateClosed && forall i :: lo <= i < r ==> s[i].state != StateClosed
    ensures r == -1 ==> forall i :: lo <= i < hi ==> s[i].state != StateClosed
  {
    if lo == hi then -1 else if s[lo].state == StateClosed then lo else FreeSlot(s, lo + 1, hi)
  }

  /** The handler call a response triggers, if the socket has a handler. */
  function HandlerCall(h: Handler, sock: Byte, rxlen: int): seq<Event> {
    if h.HandlerFn? then [SockCall(h.id, sock, rxlen)] else []
  }

  /** The sockets after every BINDING slot among the first `k` has had its
      address stored by put_sock_bind. */
  function BindUpTo(s: seq<Socket>, k: nat): (r: seq<Socket>)
    ensures |r| == |s|
  {
    seq(|s|, i requires 0 <= i < |s| =>
      if i < k && s[i].state == StateBinding then s[i].(addr := BindAddr(s[i].localport)) else s[i])
  }

  /** The BINDING slots among the first `k`, in index order. */
  function Pending(s: seq<Socket>, k: nat): (p: seq<nat>)
    requires k <= |s|
    ensures forall j :: 0 <= j < |p| ==> p[j] < k
  {
    if k == 0 then [] else Pending(s, k - 1) + (if s[k - 1].state == StateBinding then [k - 1] else [])
  }

  /** The bind commands for a list of slots, in its order. */
  function BindMsgs(s: seq<Socket>, p: seq<nat>): seq<Event>
    requires |s| <= MaxSockets && forall j :: 0 <= j < |p| ==> p[j] < |s|
  {
    if p == [] then []
    else
      var k := p[|p| - 1];
      BindMsgs(s, p[..|p| - 1]) + [Sent(BindMsg(k as Byte, s[k].localport, s[k].session))]
  }

  /** The bind commands for the BINDING slots among the first `k`. */
  function BindAllEvents(s: seq<Socket>, k: nat): seq<Event>
    requires k <= |s| <= MaxSockets
  {
    BindMsgs(s, Pending(s, k))
  }

  /** A slot is pending exactly when it is BINDING, ... */
  lemma {:induction false} PendingMembers(s: seq<Socket>, k: nat)
    requires k <= |s|
    ensures forall i :: i in Pending(s, k) <==> 0 <= i < k && s[i].state == StateBinding
  {
    if k > 0 {
      PendingMembers(s, k - 1);
      var p := Pending(s, k - 1);
      assert Pending(s, k) == p + (if s[k - 1].state == StateBinding then [k - 1] else []);
    }
  }

  /** ... and the pending slots are listed in strictly increasing order,
      so each is bound once. */
  lemma {:induction false} PendingIncreasing(s: seq<Socket>, k: nat)
    requires k <= |s|
    ensures forall a, b :: 0 <= a < b < |Pending(s, k)| ==> Pending(s, k)[a] < Pending(s, k)[b]
  {
    if k > 0 {
      PendingIncreasing(s, k - 1);
    }
  }

  /** The bind command slot `k` of `s` needs: one when it is BINDING. */
  function BindEvent(s: seq<Socket>, k: nat): seq<Event>
    requires k < |s| <= MaxSockets
  {
    if s[k].state == StateBinding then [Sent(BindMsg(k as Byte, s[k].localport, s[k].session))] else []
  }

  /** The log after the bind commands of the first `k` slots and that of
      slot `k` holds those of the first `k + 1`. */
  lemma {:induction false} BindEventsAppend(log: seq<Event>, s: seq<Socket>, k: nat, out0: seq<Event>, out1: seq<Event>)
    requires k < |s| <= MaxSockets
    requires out0 == log + BindAllEvents(s, k) && out1 == out0 + BindEvent(s, k)
    ensures out1 == log + BindAllEvents(s, k + 1)
  {
    BindAllEventsStep(s, k);
    AppendAssoc(log, BindAllEvents(s, k), BindEvent(s, k));
  }

  /** One more slot extends the pending list and the bind commands by at
      most that slot. */
  lemma {:induction false} BindAllEventsStep(s: seq<Socket>, k: nat)
    requires k < |s| <= MaxSockets
    ensures BindAllEvents(s, k + 1) == BindAllEvents(s, k) + BindEvent(s, k)
  {
    var p := Pending(s, k);
    if s[k].state == StateBinding {
      assert Pending(s, k + 1) == p + [k];
      assert (p + [k])[..|p|] == p;
    } else {
      assert Pending(s, k + 1) == p + [] == p;
    }
  }

  /** BindUpTo grows by one slot at a time. */
  lemma {:induction false} BindUpToStep(s: seq<Socket>, k: nat)
    requires k < |s|
    ensures BindUpTo(s, k + 1) ==
            if s[k].state == StateBinding then BindUpTo(s, k)[k := s[k].(addr := BindAddr(s[k].localport))]
            else BindUpTo(s, k)
  {
  }

  /** The effect of one call of check_sock: the new socket table and the
      events it emits, in order. */
  datatype Effect = Effect(socks: seq<Socket>, events: seq<Event>)

  /** Whether a response code is one of the "network ready" events. */
  predicate ReadyEvent(gop: U16, ap: ApGops) {
    gop == GopDhcpConf || gop == ap.apEnable || gop == ap.dhcpConfAp
  }

  /** Network ready: bind every BINDING slot; states are left as they are. */
  function BindPendingEffect(s: seq<Socket>): Effect
    requires |s| == MaxSockets
  {
    Effect(BindUpTo(s, MaxSockets), BindAllEvents(s, MaxSockets))
  }

  /** BIND confirmed for BINDING slot k: BOUND, then LISTEN for a TCP slot
      or RECVFROM for a UDP one. */
  function BoundEffect(s: seq<Socket>, k: Byte): Effect
    requires |s| == MaxSockets && (k as int) < MaxSockets
  {
    Effect(s[k := s[k].(state := StateBound)],
           [Sent(if (k as int) < MinUdpSock then ListenMsg(k, s[k].session) else RecvfromMsg(k, s[k].session))])
  }

  /** A datagram on BOUND slot k: remember the sender, call the handler,
      re-arm RECVFROM. */
  function RecvfromEffect(s: seq<Socket>, k: Byte, r: seq<Byte>): Effect
    requires |s| == MaxSockets && (k as int) < MaxSockets && |r| == RespSize
  {
    Effect(s[k := s[k].(addr := RespAddr(r))],
           HandlerCall(s[k].handler, k, RecvDlen(r)) + [Sent(RecvfromMsg(k, s[k].session))])
  }

  /** A connection on listener l arrived as slot c: c takes the peer's
      address and l's handler, becomes CONNECTED and gets a RECV. */
  function AcceptEffect(s: seq<Socket>, l: Byte, c: Byte, r: seq<Byte>): Effect
    requires |s| == MaxSockets && (l as int) < MaxSockets && (c as int) < MaxSockets && |r| == RespSize
  {
    Effect(s[c := s[c].(addr := RespAddr(r), handler := s[l].handler, state := StateConnected)],
           [Sent(RecvMsg(c, s[c].session))])
  }

  /** Data on CONNECTED slot k: call the handler, and re-arm RECV only
      when data arrived. */
  function RecvEffect(s: seq<Socket>, k: Byte, r: seq<Byte>): Effect
    requires |s| == MaxSockets && (k as int) < MaxSockets && |r| == RespSize
  {
    Effect(s, HandlerCall(s[k].handler, k, RecvDlen(r)) +
              (if RecvDlen(r) > 0 then [Sent(RecvMsg(k, s[k].session))] else []))
  }

  /** The branch check_sock takes for a response, in its order. */
  function CheckSockEffect(s: seq<Socket>, gop: U16, r: seq<Byte>, ap: ApGops): Effect
    requires |s| == MaxSockets && |r| == RespSize
  {
    if ReadyEvent(gop, ap) then
      BindPendingEffect(s)
    else if gop == GopBind && (BindSock(r) as int) < MaxSockets && s[BindSock(r)].state == StateBinding then
      BoundEffect(s, BindSock(r))
    else if gop == GopBind then
      Effect(s, [])
    else if gop == GopRecvfrom && (RecvSock(r) as int) < MaxSockets && s[RecvSock(r)].state == StateBound then
      RecvfromEffect(s, RecvSock(r), r)
    else if gop == GopAccept && (AcceptListen(r) as int) < MaxSockets && (AcceptConn(r) as int) < MaxSockets &&
            s[AcceptListen(r)].state == StateBound then
      AcceptEffect(s, AcceptListen(r), AcceptConn(r), r)
    else if gop == GopRecv && (RecvSock(r) as int) < MaxSockets && s[RecvSock(r)].state == StateConnected then
      RecvEffect(s, RecvSock(r), r)
    else
      Effect(s, [])
  }

  /** The connection flags after a response, following the branches of
      interrupt_handler in their order. */
  function ConnAfter(c: Conn, gop: U16, ok: bool, r: seq<Byte>, ap: ApGops): Conn
    requires |r| == RespSize
  {
    if gop == GopStateChange && ok then
      (if RespVal(r) == 1 then c.(connected := true)
       else if RespVal(r) == 0 then c.(connected := false, dhcpDone := false)
       else c)
    else if gop == GopDhcpConf && ok then c.(dhcpDone := true, myIp := RespVal(r))
    else if gop == ap.apEnable && ok then c.(connected := true, apMode := true, dhcpDone := true, myIp := 0xC0A8_0101)
    else if gop == ap.dhcpConfAp && ok then c.(connected := true, apMode := true, dhcpDone := true)
    else c
  }

  /** Whether interrupt_handler records a data address: a readable RECVFROM
      or RECV response whose code no earlier branch claimed, naming a slot
      inside the table. */
  predicate RecordsDataAddr(gop: U16, ok: bool, r: seq<Byte>, ap: ApGops)
    requires |r| == RespSize
  {
    (gop == GopRecvfrom || gop == GopRecv) && ok &&
    gop != ap.apEnable && gop != ap.dhcpConfAp && gop != ap.apAssocInfo &&
    (RecvSock(r) as int) < MaxSockets
  }

  /** Where the received data starts: after the header, at the offset the
      response gives. */
  function DataAddr(addr: U32, r: seq<Byte>): U32
    requires |r| == RespSize
  {
    addr + HifHdrSize as U32 + RecvOset(r) as U32
  }

  /** The sockets after the data address has been recorded. */
  function DataAddrAfter(s: seq<Socket>, gop: U16, ok: bool, r: seq<Byte>, addr: U32, ap: ApGops): seq<Socket>
    requires |s| == MaxSockets && |r| == RespSize
  {
    if RecordsDataAddr(gop, ok, r, ap) then
      s[RecvSock(r) := s[RecvSock(r)].(hifDataAddr := DataAddr(addr, r))]
    else s
  }

  /** resp_msg after the body read: when the header was read and the body
      length is positive, the first `hlen` bytes come from the chip and the
      rest keep what the previous response left. */
  function RespAfter(resp: seq<Byte>, hdrOk: bool, hlen: int, body: seq<Byte>): (r: seq<Byte>)
    requires |resp| == RespSize && |body| == RespSize && 0 <= hlen <= RespSize
    ensures |r| == RespSize
    ensures forall i :: 0 <= i < RespSize ==> r[i] == if hdrOk && i < hlen then body[i] else resp[i]
  {
    if hdrOk && hlen > 0 then body[..hlen] + resp[hlen..] else resp
  }

  // ---------------------------------------------------------- properties

  /** check_sock never acts on a chip-supplied socket index outside the
      table: BIND, RECVFROM and RECV responses naming such an index, and
      ACCEPT responses naming one as listener or as new connection, leave
      the table as it was and emit nothing. */
  lemma {:induction false} CheckSockIgnoresBadIndex(s: seq<Socket>, gop: U16, r: seq<Byte>, ap: ApGops)
    requires |s| == MaxSockets && |r| == RespSize && Distinct(ap)
    requires (gop == GopBind && BindSock(r) as int >= MaxSockets) ||
             ((gop == GopRecvfrom || gop == GopRecv) && RecvSock(r) as int >= MaxSockets) ||
             (gop == GopAccept && (AcceptListen(r) as int >= MaxSockets || AcceptConn(r) as int >= MaxSockets))
    ensures CheckSockEffect(s, gop, r, ap) == Effect(s, [])
  {
  }

  /** Only a BIND response for a slot moves that slot from BINDING to
      BOUND, and such a response always does. */
  lemma {:induction false} BindResponseBinds(s: seq<Socket>, gop: U16, r: seq<Byte>, ap: ApGops, i: int)
    requires |s| == MaxSockets && |r| == RespSize && Distinct(ap) && 0 <= i < MaxSockets
    requires s[i].state == StateBinding
    ensures CheckSockEffect(s, gop, r, ap).socks[i].state == StateBound <==>
              gop == GopBind && BindSock(r) as int == i
  {
  }

  /** A slot's state changes only by BINDING to BOUND (BIND) or by becoming
      CONNECTED (ACCEPT); check_sock never closes or frees a slot. */
  lemma {:induction false} CheckSockTransitions(s: seq<Socket>, gop: U16, r: seq<Byte>, ap: ApGops, i: int)
    requires |s| == MaxSockets && |r| == RespSize && 0 <= i < MaxSockets
    ensures var t := CheckSockEffect(s, gop, r, ap).socks[i].state;
            t == s[i].state ||
            (s[i].state == StateBinding && t == StateBound) ||
            (gop == GopAccept && t == StateConnected)
  {
  }

  /** A "network ready" response changes no state; it stores the bind
      address of each BINDING slot and leaves the others alone, and it
      issues the bind commands for exactly the BINDING slots, in index
      order. */
  lemma {:induction false} ReadyBindsPending(s: seq<Socket>, gop: U16, r: seq<Byte>, ap: ApGops, i: int)
    requires |s| == MaxSockets && |r| == RespSize && ReadyEvent(gop, ap) && 0 <= i < MaxSockets
    ensures var e := CheckSockEffect(s, gop, r, ap);
            e.socks[i].state == s[i].state &&
            (s[i].state == StateBinding ==> e.socks[i].addr == BindAddr(s[i].localport)) &&
            (s[i].state != StateBinding ==> e.socks[i] == s[i])
    ensures CheckSockEffect(s, gop, r, ap).events == BindMsgs(s, Pending(s, MaxSockets))
    ensures i in Pending(s, MaxSockets) <==> s[i].state == StateBinding
  {
    PendingMembers(s, MaxSockets);
  }

  /** ACCEPT on a BOUND listener makes the new connection CONNECTED with
      the listener's handler and arms a receive on it. */
  lemma {:induction false} AcceptConnects(s: seq<Socket>, r: seq<Byte>, ap: ApGops)
    requires |s| == MaxSockets && |r| == RespSize && Distinct(ap)
    requires AcceptListen(r) as int < MaxSockets && AcceptConn(r) as int < MaxSockets
    requires s[AcceptListen(r)].state == StateBound
    ensures var e := CheckSockEffect(s, GopAccept, r, ap);
            var c := AcceptConn(r);
            e.socks[c].state == StateConnected && e.socks[c].handler == s[AcceptListen(r)].handler &&
            e.events == [Sent(RecvMsg(c, s[c].session))]
  {
  }

  /** A RECV response calls the handler only for a CONNECTED slot, and
      re-arms the receive exactly when dlen is positive. */
  lemma {:induction false} RecvRearms(s: seq<Socket>, r: seq<Byte>, ap: ApGops)
    requires |s| == MaxSockets && |r| == RespSize && Distinct(ap)
    ensures var k := RecvSock(r);
            var e := CheckSockEffect(s, GopRecv, r, ap);
            e.socks == s &&
            (Sent(RecvMsg(k, if (k as int) < MaxSockets then s[k].session else 0)) in e.events <==>
               (k as int) < MaxSockets && s[k].state == StateConnected && RecvDlen(r) > 0) &&
            (e.events != [] ==> (k as int) < MaxSockets && s[k].state == StateConnected)
  {
  }

  /** A RECVFROM response is acted on only for a BOUND slot; then the slot
      takes the sender's address and the receive is re-armed. */
  lemma {:induction false} RecvfromOnlyBound(s: seq<Socket>, r: seq<Byte>, ap: ApGops)
    requires |s| == MaxSockets && |r| == RespSize && Distinct(ap)
    ensures var k := RecvSock(r);
            var e := CheckSockEffect(s, GopRecvfrom, r, ap);
            (e.events != [] <==> (k as int) < MaxSockets && s[k].state == StateBound) &&
            ((k as int) < MaxSockets && s[k].state == StateBound ==>
               e.socks == s[k := s[k].(addr := RespAddr(r))] &&
               e.events[|e.events| - 1] == Sent(RecvfromMsg(k, s[k].session)))
  {
  }

  /** ap_mode is never cleared by a response. */
  lemma {:induction false} ApModeSticks(c: Conn, gop: U16, ok: bool, r: seq<Byte>, ap: ApGops)
    requires |r| == RespSize
    ensures c.apMode ==> ConnAfter(c, gop, ok, r, ap).apMode
  {
  }

  /** dhcp_done after a response: set by DHCP_CONF, AP_ENABLE and
      DHCP_CONF_AP, cleared only by a STATE_CHANGE reporting 0, otherwise
      kept. Responses whose body could not be read change nothing. */
  lemma {:induction false} DhcpDoneAfter(c: Conn, gop: U16, ok: bool, r: seq<Byte>, ap: ApGops)
    requires |r| == RespSize && Distinct(ap)
    ensures var d := ConnAfter(c, gop, ok, r, ap);
            (d.dhcpDone <==>
               (ok && ReadyEvent(gop, ap)) ||
               (c.dhcpDone && !(ok && gop == GopStateChange && RespVal(r) == 0))) &&
            (d.connected <==>
               (ok && (gop == ap.apEnable || gop == ap.dhcpConfAp || (gop == GopStateChange && RespVal(r) == 1))) ||
               (c.connected && !(ok && gop == GopStateChange && RespVal(r) == 0))) &&
            (!ok ==> d == c)
  {
  }

  /** The data address is recorded only for a readable RECVFROM or RECV
      response, only in the slot it names, and nothing else of that slot
      changes. */
  lemma {:induction false} DataAddrInRange(s: seq<Socket>, gop: U16, ok: bool, r: seq<Byte>, addr: U32, ap: ApGops, i: int)
    requires |s| == MaxSockets && |r| == RespSize && 0 <= i < MaxSockets
    ensures var t := DataAddrAfter(s, gop, ok, r, addr, ap);
            |t| == MaxSockets &&
            (t[i] != s[i] ==> ok && (gop == GopRecvfrom || gop == GopRecv) && RecvSock(r) as int == i) &&
            t[i].(hifDataAddr := s[i].hifDataAddr) == s[i]
  {
  }

  // ------------------------------------------------------------ the state

  /** The chip link: everything the driver has emitted, in order. */
  class Link {
    var out: seq<Event>

    constructor ()
      ensures out == []
    {
      out := [];
    }
  }

  /** The driver context (winc_ctx_t) without the SPI buffers and pins. */
  class Context {
    const sockets: array<Socket>
    const routes: array<Route>
    const link: Link
    /** open_sock_server's static session counter. */
    var session: U16
    var conn: Conn
    /** resp_msg: keeps its bytes from one interrupt to the next. */
    var resp: seq<Byte>
    var myNodeId: Byte
    var myName: seq<Byte>
    var meshEnabled: bool
    var udpSocket: int
    var routeCount: nat
    var seqNum: U16
    var lastBeacon: U32
    var hasDataCallback: bool

    ghost predicate Valid()
      reads this
    {
      sockets.Length == MaxSockets && routes.Length == MaxNodes && |resp| == RespSize &&
      routeCount <= MaxNodes && |myName| == NameSize && -1 <= udpSocket < MaxSockets
    }

    /** routes[] and route_count as a routing-table value. */
    function RouteTable(): Table
      reads this, routes
    {
      Table(routes[..], routeCount)
    }

    /** A context as the zero-initialised global and winc_mesh_init leave
        it. */
    constructor (nodeId: Byte, name: seq<Byte>)
      ensures Valid() && fresh(sockets) && fresh(routes) && fresh(link)
      ensures forall i :: 0 <= i < MaxSockets ==> sockets[i] == ClosedSocket
      ensures RouteTable() == EmptyTable && TableOk(RouteTable())
      ensures seqNum == 0 && lastBeacon == 0 && session == 1 && !meshEnabled && !hasDataCallback
      ensures link.out == [] && myNodeId == nodeId && myName == StrnCopy(name)
    {
      sockets := new Socket[MaxSockets](_ => ClosedSocket);
      routes := new Route[MaxNodes](_ => EmptyRoute);
      link := new Link();
      session := 1;
      conn := Conn(false, false, false, 0);
      resp := seq(RespSize, _ => 0);
      myNodeId := nodeId;
      myName := StrnCopy(name);
      meshEnabled := false;
      udpSocket := 0;
      routeCount := 0;
      seqNum := 0;
      lastBeacon := 0;
      hasDataCallback := false;
      new;
      assert routes[..] == EmptyTable.slots;
      EmptyTableOk();
    }

    /** hif_put: frames the message and hands it to the chip; whether the
        SPI transfers succeed is not modelled, so the result is either. */
    method HifPut(gop: U16, cmd: Command, data: seq<Byte>, oset: nat) returns (ok: bool)
      modifies link
      ensures link.out == old(link.out) + [Sent(Frame(gop, cmd, data, oset))]
    {
      link.out := link.out + [Sent(Frame(gop, cmd, data, oset))];
      ok :| true;
    }

    /** sock_state: sets a slot's state; an index outside the table is
        ignored. */
    method SockState(sock: Byte, news: int)
      requires Valid()
      modifies sockets
      ensures (sock as int) < MaxSockets ==> sockets[..] == old(sockets[..])[sock := old(sockets[sock]).(state := news)]
      ensures (sock as int) >= MaxSockets ==> sockets[..] == old(sockets[..])
    {
      if (sock as int) < MaxSockets {
        sockets[sock] := sockets[sock].(state := news);
      }
    }

    /** put_sock_bind: stores the bind address in the slot and sends BIND. */
    method PutSockBind(sock: Byte, port: U16) returns (ok: bool)
      requires Valid() && (sock as int) < MaxSockets
      modifies sockets, link
      ensures sockets[..] == old(sockets[..])[sock := old(sockets[sock]).(addr := BindAddr(port))]
      ensures link.out == old(link.out) + [Sent(BindMsg(sock, port, old(sockets[sock]).session))]
    {
      var session := sockets[sock].session;
      sockets[sock] := sockets[sock].(addr := BindAddr(port));
      ok := HifPut(GopBind, BindCmd(BindAddr(port), sock, session), [], 0);
    }

    method PutSockListen(sock: Byte) returns (ok: bool)
      requires Valid() && (sock as int) < MaxSockets
      modifies link
      ensures link.out == old(link.out) + [Sent(ListenMsg(sock, sockets[sock].session))]
    {
      ok := HifPut(GopListen, ListenCmd(sock, 0, sockets[sock].session), [], 0);
    }

    method PutSockRecv(sock: Byte) returns (ok: bool)
      requires Valid() && (sock as int) < MaxSockets
      modifies link
      ensures link.out == old(link.out) + [Sent(RecvMsg(sock, sockets[sock].session))]
    {
      ok := HifPut(GopRecv, RecvCmd(0xFFFF_FFFF, sock, sockets[sock].session), [], 0);
    }

    method PutSockRecvfrom(sock: Byte) returns (ok: bool)
      requires Valid() && (sock as int) < MaxSockets
      modifies link
      ensures link.out == old(link.out) + [Sent(RecvfromMsg(sock, sockets[sock].session))]
    {
      ok := HifPut(GopRecvfrom, RecvCmd(0xFFFF_FFFF, sock, sockets[sock].session), [], 0);
    }

    /** put_sock_send: TCP data to the connected peer. */
    method PutSockSend(sock: Byte, data: seq<Byte>) returns (ok: bool)
      requires Valid() && (sock as int) < MaxSockets
      modifies link
      ensures link.out == old(link.out) + [Sent(SendMsg(sock, sockets[sock], data))]
    {
      var sp := sockets[sock];
      ok := HifPut(GopSend | ReqData, SendtoCmd(sock, Len16(|data|), sp.addr, sp.session), data, TcpDataOset);
    }

    /** put_sock_sendto: UDP data; the slot itself is not changed. */
    method PutSockSendto(sock: Byte, data: seq<Byte>) returns (ok: bool)
      requires Valid() && (sock as int) < MaxSockets
      modifies link
      ensures link.out == old(link.out) + [Sent(SendtoMsg(sock, sockets[sock], data))]
    {
      var sp := sockets[sock];
      var destIp := sp.addr.ip;
      var destPort := sp.addr.port;
      if destIp == 0 {
        destIp := 0xFFFF_FFFF;
      }
      if destPort == 0 {
        destPort := sp.localport;
      }
      ok := HifPut(GopSendto | ReqData,
                   SendtoCmd(sock, Len16(|data|), SockAddr(sp.addr.family, Swap16(destPort), destIp), sp.session),
                   data, UdpDataOset);
    }

    /** put_sock_close: sends CLOSE with the slot's session, then zeroes the
        slot whether or not the command went out. */
    method PutSockClose(sock: Byte) returns (ok: bool)
      requires Valid() && (sock as int) < MaxSockets
      modifies sockets, link
      ensures sockets[..] == old(sockets[..])[sock := ClosedSocket]
      ensures link.out == old(link.out) + [Sent(CloseMsg(sock, old(sockets[sock]).session))]
    {
      ok := HifPut(GopClose, CloseCmd(sock, sockets[sock].session), [], 0);
      sockets[sock] := ClosedSocket;
    }

    /** open_sock_server: takes the lowest CLOSED slot of the TCP or UDP
        range, gives it the port, the handler and the next session number,
        marks it BINDING and, when DHCP is done, binds it at once. */
    method OpenSockServer(portnum: int, tcp: bool, handler: Handler) returns (sock: int)
      requires Valid()
      modifies this`session, sockets, link
      ensures sock == FreeSlot(old(sockets[..]), if tcp then MinTcpSock else MinUdpSock,
                                                 if tcp then MaxTcpSock else MaxUdpSock)
      ensures sock == -1 ==> sockets[..] == old(sockets[..]) && session == old(session) && link.out == old(link.out)
      ensures sock >= 0 ==>
                var e := OpenedEffect(old(sockets[..]), sock as Byte, (portnum % 0x1_0000) as U16, old(session),
                                      handler, conn.dhcpDone);
                session == old(session) + 1 && sockets[..] == e.socks && link.out == old(link.out) + e.events
    {
      var smin, smax := if tcp then MinTcpSock else MinUdpSock, if tcp then MaxTcpSock else MaxUdpSock;
      sock := smin;
      while sock < smax && sockets[sock].state != StateClosed
        invariant smin <= sock <= smax
        invariant FreeSlot(sockets[..], smin, smax) == FreeSlot(sockets[..], sock, smax)
      {
        sock := sock + 1;
      }
      if sock == smax {
        return -1;
      }
      OpenSlot(sock as Byte, (portnum % 0x1_0000) as U16, handler);
    }

    /** The body of open_sock_server for the free slot it found. */
    method OpenSlot(sock: Byte, port: U16, handler: Handler)
      requires Valid() && (sock as int) < MaxSockets
      modifies this`session, sockets, link
      ensures session == old(session) + 1
      ensures sockets[..] == OpenedEffect(old(sockets[..]), sock, port, old(session), handler, conn.dhcpDone).socks
      ensures link.out == old(link.out) + OpenedEffect(old(sockets[..]), sock, port, old(session), handler, conn.dhcpDone).events
    {
      ClaimSlot(sock, port, handler);
      if conn.dhcpDone {
        var _ := PutSockBind(sock, port);
      }
    }

    /** The slot takes the port, the next session number and the handler,
        and becomes BINDING. */
    method ClaimSlot(sock: Byte, port: U16, handler: Handler)
      requires Valid() && (sock as int) < MaxSockets
      modifies this`session, sockets
      ensures session == old(session) + 1
      ensures sockets[..] == old(sockets[..])[sock := old(sockets[sock]).(localport := port, session := old(session),
                                                                        handler := handler, state := StateBinding)]
    {
      sockets[sock] := sockets[sock].(localport := port, session := session, handler := handler);
      session := session + 1;
      SockState(sock, StateBinding);
    }

    /** check_sock: acts on a response from the chip, held in resp_msg. */
    method CheckSock(gop: U16, ap: ApGops)
      requires Valid()
      modifies sockets, link
      ensures var e := CheckSockEffect(old(sockets[..]), gop, resp, ap);
              sockets[..] == e.socks && link.out == old(link.out) + e.events
    {
      var r := resp;
      if ReadyEvent(gop, ap) {
        BindPending();
      } else if gop == GopBind && (BindSock(r) as int) < MaxSockets && sockets[BindSock(r)].state == StateBinding {
        BindDone(BindSock(r));
      } else if gop == GopBind {
      } else if gop == GopRecvfrom && (RecvSock(r) as int) < MaxSockets && sockets[RecvSock(r)].state == StateBound {
        RecvfromDone(RecvSock(r), r);
      } else if gop == GopAccept && (AcceptListen(r) as int) < MaxSockets && (AcceptConn(r) as int) < MaxSockets &&
                sockets[AcceptListen(r)].state == StateBound {
        Accepted(AcceptListen(r), AcceptConn(r), r);
      } else if gop == GopRecv && (RecvSock(r) as int) < MaxSockets && sockets[RecvSock(r)].state == StateConnected {
        RecvDone(RecvSock(r), r);
      }
    }

    /** check_sock on a "network ready" response. */
    method BindPending()
      requires Valid()
      modifies sockets, link
      ensures sockets[..] == BindPendingEffect(old(sockets[..])).socks
      ensures link.out == old(link.out) + BindPendingEffect(old(sockets[..])).events
    {
      ghost var s0 := sockets[..];
      var sock := 0;
      while sock < MaxSockets
        invariant 0 <= sock <= MaxSockets
        invariant sockets[..] == BindUpTo(s0, sock)
        invariant link.out == old(link.out) + BindAllEvents(s0, sock)
      {
        ghost var out0 := link.out;
        BindSlot(sock, s0);
        BindEventsAppend(old(link.out), s0, sock, out0, link.out);
        sock := sock + 1;
      }
    }

    /** One pass of the check_sock loop over BINDING slots: slot `sock`
        of the table `s0` the loop started from. */
    method BindSlot(sock: int, ghost s0: seq<Socket>)
      requires Valid() && 0 <= sock < MaxSockets && |s0| == MaxSockets && sockets[..] == BindUpTo(s0, sock)
      modifies sockets, link
      ensures sockets[..] == BindUpTo(s0, sock + 1)
      ensures link.out == old(link.out) + BindEvent(s0, sock)
    {
      BindUpToStep(s0, sock);
      ByteOfInt(sock);
      assert sockets[sock] == s0[sock];
      if sockets[sock].state == StateBinding {
        var _ := PutSockBind(sock as Byte, sockets[sock].localport);
      }
    }

    /** check_sock on BIND for a BINDING slot. */
    method BindDone(sock: Byte)
      requires Valid() && (sock as int) < MaxSockets && sockets[sock].state == StateBinding
      modifies sockets, link
      ensures sockets[..] == BoundEffect(old(sockets[..]), sock).socks
      ensures link.out == old(link.out) + BoundEffect(old(sockets[..]), sock).events
    {
      SockState(sock, StateBound);
      if (sock as int) < MinUdpSock {
        var _ := PutSockListen(sock);
      } else {
        var _ := PutSockRecvfrom(sock);
      }
    }

    /** check_sock on RECVFROM for a BOUND slot. */
    method RecvfromDone(sock: Byte, r: seq<Byte>)
      requires Valid() && (sock as int) < MaxSockets && |r| == RespSize
      modifies sockets, link
      ensures sockets[..] == RecvfromEffect(old(sockets[..]), sock, r).socks
      ensures link.out == old(link.out) + RecvfromEffect(old(sockets[..]), sock, r).events
    {
      sockets[sock] := sockets[sock].(addr := RespAddr(r));
      CallHandler(sock, RecvDlen(r));
      var _ := PutSockRecvfrom(sock);
    }

    /** check_sock on ACCEPT for a BOUND listener. */
    method Accepted(sock: Byte, sock2: Byte, r: seq<Byte>)
      requires Valid() && (sock as int) < MaxSockets && (sock2 as int) < MaxSockets && |r| == RespSize
      modifies sockets, link
      ensures sockets[..] == AcceptEffect(old(sockets[..]), sock, sock2, r).socks
      ensures link.out == old(link.out) + AcceptEffect(old(sockets[..]), sock, sock2, r).events
    {
      sockets[sock2] := sockets[sock2].(addr := RespAddr(r), handler := sockets[sock].handler);
      SockState(sock2, StateConnected);
      var _ := PutSockRecv(sock2);
    }

    /** check_sock on RECV for a CONNECTED slot. */
    method RecvDone(sock: Byte, r: seq<Byte>)
      requires Valid() && (sock as int) < MaxSockets && |r| == RespSize
      modifies link
      ensures link.out == old(link.out) + RecvEffect(sockets[..], sock, r).events
    {
      CallHandler(sock, RecvDlen(r));
      if RecvDlen(r) > 0 {
        var _ := PutSockRecv(sock);
      }
    }

    /** Calls the slot's handler, if it has one. */
    method CallHandler(sock: Byte, rxlen: int)
      requires Valid() && (sock as int) < MaxSockets
      modifies link
      ensures link.out == old(link.out) + HandlerCall(sockets[sock].handler, sock, rxlen)
    {
      if sockets[sock].handler.HandlerFn? {
        link.out := link.out + [SockCall(sockets[sock].handler.id, sock, rxlen)];
      }
    }

    /** interrupt_handler, after the SPI reads: `hdrOk` says whether the
        status, address and header reads succeeded, `hh` is the header (what
        the stack holds when they did not), `body` the bytes the body read
        delivers, `bodyOk` whether that read succeeded and `addr` the
        message address. The response is dispatched through check_sock in
        every case, on whatever resp_msg then holds. */
    method InterruptHandler(hdrOk: bool, hh: HifHdr, body: seq<Byte>, bodyOk: bool, addr: U32, ap: ApGops)
      requires Valid() && |body| == RespSize
      modifies this`conn, this`resp, sockets, link
      ensures Valid()
      ensures var hlen := BodyLen(hh.len);
              var ok := hdrOk && hlen > 0 && bodyOk;
              var r := RespAfter(old(resp), hdrOk, hlen, body);
              var gop := GidOp(hh.gid, hh.op);
              resp == r && conn == ConnAfter(old(conn), gop, ok, r, ap) &&
              sockets[..] == CheckSockEffect(DataAddrAfter(old(sockets[..]), gop, ok, r, addr, ap), gop, r, ap).socks &&
              link.out == old(link.out) + CheckSockEffect(DataAddrAfter(old(sockets[..]), gop, ok, r, addr, ap), gop, r, ap).events
    {
      var gop := GidOp(hh.gid, hh.op);
      var hlen := BodyLen(hh.len);
      var ok := hdrOk && hlen > 0;
      if ok {
        resp := body[..hlen] + resp[hlen..];
        ok := bodyOk;
      }
      ActOnResponse(gop, ok, addr, ap);
      CheckSock(gop, ap);
    }

    /** The branches of interrupt_handler that track the connection and
        record where received data starts. They form one if-else chain in
        which the connection branches and the data branches never claim the
        same code, so they run here one after the other. */
    method ActOnResponse(gop: U16, ok: bool, addr: U32, ap: ApGops)
      requires Valid()
      modifies this`conn, sockets
      ensures conn == ConnAfter(old(conn), gop, ok, resp, ap)
      ensures sockets[..] == DataAddrAfter(old(sockets[..]), gop, ok, resp, addr, ap)
    {
      TrackConnection(gop, ok, ap);
      RecordDataAddr(gop, ok, addr, ap);
    }

    /** STATE_CHANGE, DHCP_CONF, AP_ENABLE and DHCP_CONF_AP. */
    method TrackConnection(gop: U16, ok: bool, ap: ApGops)
      requires Valid()
      modifies this`conn
      ensures conn == ConnAfter(old(conn), gop, ok, resp, ap)
    {
      var r := resp;
      if gop == GopStateChange && ok {
        if RespVal(r) == 1 {
          conn := conn.(connected := true);
        } else if RespVal(r) == 0 {
          conn := conn.(connected := false, dhcpDone := false);
        }
      } else if gop == GopDhcpConf && ok {
        conn := conn.(dhcpDone := true, myIp := RespVal(r));
      } else if gop == ap.apEnable && ok {
        conn := conn.(connected := true, apMode := true, dhcpDone := true, myIp := 0xC0A8_0101);
      } else if gop == ap.dhcpConfAp && ok {
        conn := conn.(connected := true, apMode := true, dhcpDone := true);
      }
    }

    /** The rest of the chain: AP_ASSOC_INFO, BIND and ACCEPT only log;
        RECVFROM and RECV record the data address of the slot they name. */
    method RecordDataAddr(gop: U16, ok: bool, addr: U32, ap: ApGops)
      requires Valid()
      modifies sockets
      ensures sockets[..] == DataAddrAfter(old(sockets[..]), gop, ok, resp, addr, ap)
    {
      var r := resp;
      if (gop == ap.apEnable || gop == ap.dhcpConfAp) && ok {
      } else if gop == ap.apAssocInfo {
      } else if (gop == GopRecvfrom || gop == GopRecv) && ok {
        if (RecvSock(r) as int) < MaxSockets {
          sockets[RecvSock(r)] := sockets[RecvSock(r)].(hifDataAddr := DataAddr(addr, r));
        }
      }
    }

    /** winc_mesh_get_node_count: the number of active routes among the
        first route_count slots. */
    method GetNodeCount() returns (count: Byte)
      requires Valid()
      ensures count as int == ActiveCount(routes[..], routeCount)
      ensures TableOk(RouteTable()) ==> count as int == ActiveCount(routes[..], MaxNodes)
    {
      count := 0;
      var i := 0;
      while i < routeCount
        invariant 0 <= i <= routeCount
        invariant count as int == ActiveCount(routes[..], i)
      {
        if routes[i].active {
          count := count + 1;
        }
        i := i + 1;
      }
      if TableOk(RouteTable()) {
        ActiveCountCountsAll(RouteTable());
      }
    }
  }

  /** The slot open_sock_server fills, and the bind it sends when the
      network is ready. */
  function OpenedEffect(s: seq<Socket>, sock: Byte, port: U16, session: U16, handler: Handler, dhcpDone: bool): Effect
    requires |s| == MaxSockets && (sock as int) < MaxSockets
  {
    var slot := s[sock].(localport := port, session := session, handler := handler, state := StateBinding);
    if dhcpDone
    then Effect(s[sock := slot.(addr := BindAddr(port))], [Sent(BindMsg(sock, port, session))])
    else Effect(s[sock := slot], [])
  }
}

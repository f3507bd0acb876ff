/** The passive TCP of the user-space stack as a transition system on values: packets, passes of
    the output loop and socket calls are atomic steps.

    The last group of fields of a Stream is history: it records what happened and is never read
    by a step. */
module Tcp {
  import opened Bytes

  const RING_ROOM := 1023  // usable slots of a ring created with RING_SIZE 1024
  const BURST_SIZE := 32
  const FIRST_FD := 3
  const MAX_FD := 1024

  /** The states that this code ever assigns. */
  datatype Status = Closed | Listen | SynRcvd | Established | CloseWait | LastAck

  datatype Flags = Flags(syn: bool, ack: bool, psh: bool, fin: bool)

  datatype Fragment = Fragment(sport: nat, dport: nat, seqnum: nat, acknum: nat, flags: Flags, data: seq<Byte>)

  /** A TCP segment as it arrives; sumOk: the checksum in it is the one recomputed. */
  datatype Packet = Packet(
    sip: nat, dip: nat, sport: nat, dport: nat,
    seqnum: nat, acknum: nat, flags: Flags, payload: seq<Byte>, sumOk: bool)

  /** What the application reads: bytes, and the 0 that means end of file. */
  datatype Token = Data(b: Byte) | Eof

  datatype Stream = Stream(
    fd: int, sip: nat, dip: nat, sport: nat, dport: nat,
    sndNxt: nat, rcvNxt: nat, status: Status,
    sndbuf: seq<Fragment>,
    rcvbuf: seq<seq<Byte>>,    // received fragments, the empty one meaning end of file
    // history
    passive: bool,             // created by a SYN, not by nsocket
    isn: nat,                  // the client's initial sequence number
    accepted: nat,             // sequence numbers accepted after the SYN: payload bytes and FIN
    fins: nat,                 // how many FINs were accepted
    intended: seq<Token>,      // what the client sent in accepted segments
    read: seq<Token>,          // what nrecv has handed out
    returned: nat,             // the sum of the lengths that nrecv has returned
    queued: seq<Fragment>,     // everything that entered sndbuf
    stamps: seq<nat>,          // `accepted` when it entered
    handed: seq<Fragment>,     // everything the output pass took out and freed
    sent: seq<Fragment>)       // what of it found room on the output ring

  /** What waits on the output ring. */
  datatype OutPacket = Segment(sip: nat, dip: nat, f: Fragment) | ArpRequest(ip: nat) | OtherPacket

  datatype Net = Net(
    tcbs: seq<Stream>,
    arp: seq<nat>,             // addresses in the ARP list, newest first
    arpCount: nat,
    fds: set<nat>,             // descriptors marked in the bit table
    rings: set<string>,        // names of the TCP rings that exist
    out: seq<OutPacket>,       // the output ring
    wire: seq<OutPacket>,      // history: what the transmitting loop took from it
    running: bool)             // false once the program was ended

  // ---------------------------------------------------------------- ARP table, lines 205-247

  /** The lookup walks the list for at most `count` entries. */
  function ArpFind(arp: seq<nat>, count: nat, ip: nat): bool {
    if count == 0 || arp == [] then false
    else arp[0] == ip || ArpFind(arp[1..], count - 1, ip)
  }

  function ArpInsert(n: Net, ip: nat): Net {
    if ArpFind(n.arp, n.arpCount, ip) then n
    else n.(arp := [ip] + n.arp, arpCount := n.arpCount + 1)
  }

  // ---------------------------------------------------------------- descriptors, lines 869-932

  function FreeFd(fds: set<nat>, from: nat): int
    decreases MAX_FD - from
  {
    if from >= MAX_FD then -1
    else if from !in fds then from
    else FreeFd(fds, from + 1)
  }

  /** The first stream of the list with this descriptor, or |tcbs|. */
  function FromFd(tcbs: seq<Stream>, fd: int): (i: nat)
    ensures i <= |tcbs| && (i < |tcbs| ==> tcbs[i].fd == fd)
    ensures forall j :: 0 <= j < i ==> tcbs[j].fd != fd
  {
    if tcbs == [] then 0
    else if tcbs[0].fd == fd then 0
    else 1 + FromFd(tcbs[1..], fd)
  }

  function Acceptable(tcbs: seq<Stream>, dport: nat): (i: nat)
    ensures i <= |tcbs| && (i < |tcbs| ==> tcbs[i].dport == dport && tcbs[i].fd == -1)
    ensures forall j :: 0 <= j < i ==> tcbs[j].dport != dport || tcbs[j].fd != -1
  {
    if tcbs == [] then 0
    else if tcbs[0].dport == dport && tcbs[0].fd == -1 then 0
    else 1 + Acceptable(tcbs[1..], dport)
  }

  // ---------------------------------------------------------------- demultiplexing, lines 1617-1640

  predicate Matches(s: Stream, sip: nat, dip: nat, sport: nat, dport: nat) {
    s.sip == sip && s.dip == dip && s.sport == sport && s.dport == dport
  }

  function ExactFrom(tcbs: seq<Stream>, sip: nat, dip: nat, sport: nat, dport: nat): (i: nat)
    ensures i <= |tcbs| && (i < |tcbs| ==> Matches(tcbs[i], sip, dip, sport, dport))
    ensures forall j :: 0 <= j < i ==> !Matches(tcbs[j], sip, dip, sport, dport)
  {
    if tcbs == [] then 0
    else if Matches(tcbs[0], sip, dip, sport, dport) then 0
    else 1 + ExactFrom(tcbs[1..], sip, dip, sport, dport)
  }

  function ListenerFrom(tcbs: seq<Stream>, dport: nat): (i: nat)
    ensures i <= |tcbs| && (i < |tcbs| ==> tcbs[i].dport == dport && tcbs[i].status == Listen)
    ensures forall j :: 0 <= j < i ==> tcbs[j].dport != dport || tcbs[j].status != Listen
  {
    if tcbs == [] then 0
    else if tcbs[0].dport == dport && tcbs[0].status == Listen then 0
    else 1 + ListenerFrom(tcbs[1..], dport)
  }

  /** First an exact match, then a listener on the port; |tcbs| when there is neither. */
  function Search(tcbs: seq<Stream>, sip: nat, dip: nat, sport: nat, dport: nat): (i: nat)
    ensures i <= |tcbs|
  {
    var i := ExactFrom(tcbs, sip, dip, sport, dport);
    if i < |tcbs| then i else ListenerFrom(tcbs, dport)
  }

  // ---------------------------------------------------------------- rings

  function DataTokens(data: seq<Byte>): seq<Token> {
    seq(|data|, i requires 0 <= i < |data| => Data(data[i]))
  }

  function FragmentTokens(data: seq<Byte>): seq<Token> {
    if data == [] then [Eof] else DataTokens(data)
  }

  /** What the application will read from the fragments still queued. */
  function Tokens(ring: seq<seq<Byte>>): seq<Token> {
    if ring == [] then [] else FragmentTokens(ring[0]) + Tokens(ring[1..])
  }

  /** rte_ring_mp_enqueue on the send buffer: a full ring refuses the fragment. */
  function Send(s: Stream, f: Fragment): Stream {
    if |s.sndbuf| < RING_ROOM then
      s.(sndbuf := s.sndbuf + [f], queued := s.queued + [f], stamps := s.stamps + [s.accepted])
    else s
  }

  /** Lines 1765-1804: a fragment for the application; `meant` is what the client meant by it. */
  function Receive(s: Stream, data: seq<Byte>, meant: seq<Token>): Stream {
    var room := |s.rcvbuf| < RING_ROOM;
    s.(rcvbuf := if room then s.rcvbuf + [data] else s.rcvbuf, intended := s.intended + meant)
  }

  // ---------------------------------------------------------------- ring names
  // A stream has a send and a receive ring, made and freed together, so the name of one stands for
  // both.  rte_ring_create makes no second ring of a name.

  const SOCKET_RING := "tcp send buffer"

  /** Line 1661, "sndbuf%x%d": there is nothing between the address and the port. */
  function RingName(sip: nat, sport: nat): string {
    "sndbuf" + Hex(sip) + Dec(sport)
  }

  /** No connection has the name of a socket's ring. */
  lemma NamesDiffer(sip: nat, sport: nat)
    ensures RingName(sip, sport) != SOCKET_RING
  {
    assert RingName(sip, sport)[0] == 's' && SOCKET_RING[0] == 't';
  }

  function NameOf(s: Stream): string {
    if s.passive then RingName(s.sip, s.sport) else SOCKET_RING
  }

  // ---------------------------------------------------------------- handlers, lines 1687-2028

  function AckFragment(s: Stream, p: Packet): Fragment {
    Fragment(p.dport, p.sport, s.sndNxt, s.rcvNxt, Flags(false, true, false, false), [])
  }

  /** Lines 1642-1683 and 1693-1726: the stream that a SYN creates. */
  function Created(p: Packet, seed: nat): Stream {
    var s := Stream(-1, p.sip, p.dip, p.sport, p.dport, seed % (U32 - 1), (p.seqnum + 1) % U32, Listen, [], [],
                    true, p.seqnum, 0, 0, [], [], 0, [], [], [], []);
    Send(s, Fragment(p.dport, p.sport, s.sndNxt, s.rcvNxt, Flags(true, true, false, false), []))
    .(status := SynRcvd)
  }

  /** Lines 1839-1914. */
  function HandlePush(s: Stream, p: Packet): Stream {
    var s1 := Receive(s, p.payload, DataTokens(p.payload));
    var s2 := s1.(rcvNxt := (s.rcvNxt + |p.payload|) % U32, sndNxt := p.acknum % U32,
                  accepted := s.accepted + |p.payload|);
    Send(s2, AckFragment(s2, p))
  }

  /** Lines 1952-1982; the length passed on makes the fragment empty. */
  function HandleFin(s: Stream, p: Packet): Stream {
    var s1 := Receive(s.(status := CloseWait), [], [Eof]);
    var s2 := s1.(rcvNxt := (s.rcvNxt + 1) % U32, sndNxt := p.acknum % U32,
                  accepted := s.accepted + 1, fins := s.fins + 1);
    Send(s2, AckFragment(s2, p))
  }

  /** Lines 1834-1987. */
  function HandleEstablished(s: Stream, p: Packet): Stream {
    var s1 := if p.flags.psh then HandlePush(s, p) else s;
    if p.flags.fin then HandleFin(s1, p) else s1
  }

  function Without(tcbs: seq<Stream>, i: nat): seq<Stream>
    requires i < |tcbs|
  {
    tcbs[..i] + tcbs[i + 1..]
  }

  /** Lines 1693-1727 for a SYN.  When the name of its rings is in use there are none, and the
      enqueue of line 1724 ends the program. */
  function Connect(n: Net, p: Packet, seed: nat): Net {
    var name := RingName(p.sip, p.sport);
    if name in n.rings then n.(running := false)
    else n.(tcbs := [Created(p, seed)] + n.tcbs, rings := n.rings + {name})
  }

  /** Lines 2031-2106 after the ARP insertion of line 776. */
  function Process(n: Net, p: Packet, seed: nat): Net {
    if !p.sumOk then n
    else
      var i := Search(n.tcbs, p.sip, p.dip, p.sport, p.dport);
      if i >= |n.tcbs| then n
      else
        var s := n.tcbs[i];
        match s.status
        case Listen => if p.flags.syn then Connect(n, p, seed) else n
        case SynRcvd =>
          if !p.flags.ack then n
          else
            var tcbs := n.tcbs[i := s.(status := Established)];
            n.(tcbs := tcbs, running := Search(tcbs, 0, 0, 0, s.dport) < |tcbs|)
        case Established => n.(tcbs := n.tcbs[i := HandleEstablished(s, p)])
        case LastAck =>
          if p.flags.ack then n.(tcbs := Without(n.tcbs, i), rings := n.rings - {NameOf(s)}) else n
        case CloseWait => n
        case Closed => n
  }

  // ---------------------------------------------------------------- output, lines 2191-2229

  /** rte_ring_mp_enqueue_burst of one packet; nobody looks whether there was room. */
  function PutOut(out: seq<OutPacket>, p: OutPacket): seq<OutPacket> {
    if |out| < RING_ROOM then out + [p] else out
  }

  /** The turn of one stream: its oldest fragment goes to the output ring and is freed, or it goes
      back behind an ARP request when the peer's address is not in the table. */
  function OutTurn(s: Stream, arp: seq<nat>, count: nat, out: seq<OutPacket>): (Stream, seq<OutPacket>) {
    if s.sndbuf == [] then (s, out)
    else
      var f, rest := s.sndbuf[0], s.sndbuf[1..];
      if ArpFind(arp, count, s.sip) then
        (s.(sndbuf := rest, handed := s.handed + [f], sent := if |out| < RING_ROOM then s.sent + [f] else s.sent),
         PutOut(out, Segment(s.dip, s.sip, f)))
      else (s.(sndbuf := rest + [f]), PutOut(out, ArpRequest(s.sip)))
  }

  /** The output ring after the turns of these streams. */
  function OutRing(tcbs: seq<Stream>, arp: seq<nat>, count: nat, out: seq<OutPacket>): seq<OutPacket> {
    if tcbs == [] then out
    else OutTurn(tcbs[|tcbs| - 1], arp, count, OutRing(tcbs[..|tcbs| - 1], arp, count, out)).1
  }

  /** Every stream has one turn, in the order of the list. */
  function OutPass(n: Net): Net {
    n.(tcbs := seq(|n.tcbs|, i requires 0 <= i < |n.tcbs| =>
                     OutTurn(n.tcbs[i], n.arp, n.arpCount, OutRing(n.tcbs[..i], n.arp, n.arpCount, n.out)).0),
       out := OutRing(n.tcbs, n.arp, n.arpCount, n.out))
  }

  /** Lines 2712-2722: at most a burst leaves the output ring. */
  function Transmit(n: Net): Net {
    var k := Min(BURST_SIZE, |n.out|);
    n.(out := n.out[k..], wire := n.wire + n.out[..k])
  }

  /** Lines 740, 1115 and 1126: the ARP timer and the UDP output use the same ring. */
  function PutOthers(out: seq<OutPacket>, k: nat): seq<OutPacket> {
    if k == 0 then out else PutOut(PutOthers(out, k - 1), OtherPacket)
  }

  // ---------------------------------------------------------------- socket calls, lines 1138-1555

  /** Lines 1182-1190: a socket without a peer. */
  function NewSocket(fd: int): Stream {
    Stream(fd, 0, 0, 0, 0, 0, 0, Closed, [], [], false, 0, 0, 0, [], [], 0, [], [], [], [])
  }

  /** The descriptor is taken in any case; without the rings there is no stream. */
  function NSocket(n: Net): Net {
    var fd := FreeFd(n.fds, FIRST_FD);
    var n' := n.(fds := if fd >= 0 then n.fds + {fd} else n.fds);
    if SOCKET_RING in n.rings then n'
    else n'.(tcbs := [NewSocket(fd)] + n.tcbs, rings := n.rings + {SOCKET_RING})
  }

  function NBind(n: Net, fd: int, ip: nat, port: nat): Net {
    var i := FromFd(n.tcbs, fd);
    if i >= |n.tcbs| then n
    else n.(tcbs := n.tcbs[i := n.tcbs[i].(dport := port, dip := ip, status := Closed)])
  }

  function NListen(n: Net, fd: int): Net {
    var i := FromFd(n.tcbs, fd);
    if i >= |n.tcbs| then n
    else n.(tcbs := n.tcbs[i := n.tcbs[i].(status := Listen)])
  }

  /** A call that would block is not a step: the state stays as it is. */
  function NAccept(n: Net, fd: int): Net {
    var i := FromFd(n.tcbs, fd);
    if i >= |n.tcbs| then n
    else
      var a := Acceptable(n.tcbs, n.tcbs[i].dport);
      if a >= |n.tcbs| then n
      else
        var fd' := FreeFd(n.fds, FIRST_FD);
        n.(tcbs := n.tcbs[a := n.tcbs[a].(fd := fd')], fds := if fd' >= 0 then n.fds + {fd'} else n.fds)
  }

  function NSend(n: Net, fd: int, buf: seq<Byte>): Net {
    var i := FromFd(n.tcbs, fd);
    if i >= |n.tcbs| then n
    else
      var s := n.tcbs[i];
      n.(tcbs := n.tcbs[i := Send(s, Fragment(s.dport, s.sport, s.sndNxt, s.rcvNxt, Flags(false, true, true, false), buf))])
  }

  /** The value nrecv returns. */
  function RecvLength(s: Stream, len: nat): nat
    requires s.rcvbuf != []
  {
    if |s.rcvbuf[0]| > len then |s.rcvbuf[0]| - len else |s.rcvbuf[0]|
  }

  /** Lines 1364-1398 on a non-empty ring: a fragment that fits the buffer is handed out; of a
      longer one `len` bytes are, and the rest goes to the tail of the ring. */
  function RecvStream(s: Stream, len: nat): Stream
    requires s.rcvbuf != []
  {
    var head, behind := s.rcvbuf[0], s.rcvbuf[1..];
    if |head| > len then
      s.(rcvbuf := behind + [head[len..]],
         read := s.read + DataTokens(head[..len]), returned := s.returned + RecvLength(s, len))
    else s.(rcvbuf := behind, read := s.read + FragmentTokens(head), returned := s.returned + RecvLength(s, len))
  }

  function NRecv(n: Net, fd: int, len: nat): Net {
    var i := FromFd(n.tcbs, fd);
    if i >= |n.tcbs| || n.tcbs[i].rcvbuf == [] then n
    else n.(tcbs := n.tcbs[i := RecvStream(n.tcbs[i], len)])
  }

  function CloseStream(s: Stream): Stream {
    Send(s, Fragment(s.dport, s.sport, s.sndNxt, s.rcvNxt, Flags(false, true, false, true), []))
    .(status := LastAck)
  }

  /** Lines 1494-1555; a listening stream is removed, but its rings are not freed. */
  function NClose(n: Net, fd: int): Net {
    var i := FromFd(n.tcbs, fd);
    if i >= |n.tcbs| then n
    else if n.tcbs[i].status != Listen then
      n.(tcbs := n.tcbs[i := CloseStream(n.tcbs[i])], fds := if fd >= 0 then n.fds - {fd} else n.fds)
    else n.(tcbs := Without(n.tcbs, i))
  }

  // ---------------------------------------------------------------- runs

  datatype Event =
    | Arrive(p: Packet, seed: nat)
    | Other(sip: nat)  // an IPv4 packet that is not TCP: only the ARP table learns from it
    | Out              // a pass of ng_tcp_out
    | Others(k: nat)   // k packets of other parts for the output ring
    | Drain            // a turn of the transmitting loop
    | Socket
    | Bind(fd: int, ip: nat, port: nat)
    | Listening(fd: int)
    | Accept(fd: int)
    | Sending(fd: int, buf: seq<Byte>)
    | Receiving(fd: int, len: nat)
    | Close(fd: int)

  function Next(n: Net, e: Event): Net {
    if !n.running then n
    else
      match e
      case Arrive(p, seed) => Process(ArpInsert(n, p.sip), p, seed)
      case Other(sip) => ArpInsert(n, sip)
      case Out => OutPass(n)
      case Others(k) => n.(out := PutOthers(n.out, k))
      case Drain => Transmit(n)
      case Socket => NSocket(n)
      case Bind(fd, ip, port) => NBind(n, fd, ip, port)
      case Listening(fd) => NListen(n, fd)
      case Accept(fd) => NAccept(n, fd)
      case Sending(fd, buf) => NSend(n, fd, buf)
      case Receiving(fd, len) => NRecv(n, fd, len)
      case Close(fd) => NClose(n, fd)
  }

  const BOOT := Net([], [], 0, {}, {}, [], [], true)

  function After(events: seq<Event>): Net {
    if events == [] then BOOT
    else Next(After(events[..|events| - 1]), events[|events| - 1])
  }

  lemma AfterStep(events: seq<Event>, e: Event)
    ensures After(events + [e]) == Next(After(events), e)
  {
    assert (events + [e])[..|events|] == events;
  }
}

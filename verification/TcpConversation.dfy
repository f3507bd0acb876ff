/** One connection, told from the events alone: an observer who sees what arrives and which calls are
    made, and knows nothing of the handlers, says what the application reads and what is sent. */
module TcpConversation {
  import opened Bytes
  import opened Tcp
  import opened TcpInvariant
  import opened TcpTheorems
  import opened TcpDemux
  import opened TcpReading

  datatype Phase = Opened | Flowing | Over | Closing | Gone

  /** What the observer knows of the connection. */
  datatype Talk = Talk(
    phase: Phase,
    heard: seq<Token>,       // payloads of PSH segments, and the end of file of a FIN
    said: seq<Fragment>,     // every segment that has to leave
    wrote: seq<seq<Byte>>,   // the buffers of the calls of nsend
    next: nat,               // the next sequence number
    due: nat)                // the next acknowledgement

  // ---------------------------------------------------------------- the observer

  /** The stream has the peer of this SYN. */
  predicate Mine(s: Stream, syn: Packet) { s.sip == syn.sip && s.sport == syn.sport }

  /** An intact segment of the connection. */
  predicate Ours(p: Packet, syn: Packet) {
    p.sumOk && p.sip == syn.sip && p.dip == syn.dip && p.sport == syn.sport && p.dport == syn.dport
  }

  /** A call with this descriptor is for the connection. */
  predicate Calls(n: Net, fd: int, syn: Packet) {
    var i := FromFd(n.tcbs, fd);
    i < |n.tcbs| && Mine(n.tcbs[i], syn)
  }

  function Says(syn: Packet, t: Talk, flags: Flags, data: seq<Byte>): Talk {
    t.(said := t.said + [Fragment(syn.dport, syn.sport, t.next, t.due, flags, data)])
  }

  const ACK := Flags(false, true, false, false)

  function Greeting(syn: Packet, seed: nat): Talk {
    Says(syn, Talk(Opened, [], [], [], seed % (U32 - 1), (syn.seqnum + 1) % U32), Flags(true, true, false, false), [])
  }

  /** Data, or an end of file, that counts `len`. */
  function Takes(syn: Packet, t: Talk, p: Packet, ts: seq<Token>, len: nat): Talk {
    Says(syn, t.(heard := t.heard + ts, next := p.acknum % U32, due := (t.due + len) % U32), ACK, [])
  }

  function Hears(syn: Packet, t: Talk, p: Packet): Talk {
    match t.phase
    case Opened => if p.flags.ack then t.(phase := Flowing) else t
    case Flowing =>
      var u := if p.flags.psh then Takes(syn, t, p, DataTokens(p.payload), |p.payload|) else t;
      if p.flags.fin then Takes(syn, u.(phase := Over), p, [Eof], 1) else u
    case Over => t
    case Closing => if p.flags.ack then t.(phase := Gone) else t
    case Gone => t
  }

  function Writes(syn: Packet, t: Talk, buf: seq<Byte>): Talk {
    Says(syn, t.(wrote := t.wrote + [buf]), Flags(false, true, true, false), buf)
  }

  function Closes(syn: Packet, t: Talk): Talk {
    Says(syn, t.(phase := Closing), Flags(false, true, false, true), [])
  }

  function Observe(n: Net, syn: Packet, t: Talk, e: Event): Talk {
    if !n.running || t.phase == Gone then t
    else
      match e
      case Arrive(p, _) => if Ours(p, syn) then Hears(syn, t, p) else t
      case Sending(fd, buf) => if Calls(n, fd, syn) then Writes(syn, t, buf) else t
      case Close(fd) => if Calls(n, fd, syn) then Closes(syn, t) else t
      case _ => t
  }

  /** The conversation that a SYN opens. */
  function Follow(before: seq<Event>, syn: Packet, seed: nat, later: seq<Event>): Talk {
    if later == [] then Greeting(syn, seed)
    else
      var sofar := later[..|later| - 1];
      Observe(After(before + [Arrive(syn, seed)] + sofar), syn, Follow(before, syn, seed, sofar), later[|later| - 1])
  }

  // ---------------------------------------------------------------- what it demands

  /** Data comes with its bytes and finds room, and so do the answers in the send ring. */
  predicate Fits(s: Stream, p: Packet) {
    && (p.flags.psh ==> p.payload != [] && |s.rcvbuf| < RING_ROOM && |s.sndbuf| < RING_ROOM)
    && (p.flags.fin ==>
        && |s.rcvbuf| + (if p.flags.psh then 1 else 0) < RING_ROOM
        && |s.sndbuf| + (if p.flags.psh then 1 else 0) < RING_ROOM)
  }

  /** The buffer covers the oldest fragment, or nothing is queued behind it. */
  predicate Covers(s: Stream, len: nat) {
    s.rcvbuf != [] ==> |s.rcvbuf[0]| <= len || |s.rcvbuf| == 1
  }

  predicate SmoothFor(n: Net, s: Stream, syn: Packet, e: Event) {
    match e
    case Arrive(p, _) => Ours(p, syn) && s.status == Established ==> Fits(s, p)
    case Sending(fd, _) => Calls(n, fd, syn) ==> |s.sndbuf| < RING_ROOM
    case Close(fd) => Calls(n, fd, syn) ==> |s.sndbuf| < RING_ROOM
    case Receiving(fd, len) => Calls(n, fd, syn) ==> Covers(s, len)
    case Bind(fd, _, _) => !Calls(n, fd, syn)
    case Listening(fd) => !Calls(n, fd, syn)
    case _ => true
  }

  /** Nothing asks more of the rings of this connection than they hold, and it is not bound anew or
      made to listen.  Other connections may do what they like. */
  predicate Smooth(n: Net, syn: Packet, e: Event) {
    n.running ==> forall i :: 0 <= i < |n.tcbs| && Mine(n.tcbs[i], syn) ==> SmoothFor(n, n.tcbs[i], syn, e)
  }

  predicate SmoothRun(before: seq<Event>, syn: Packet, seed: nat, later: seq<Event>) {
    later == [] ||
    (var sofar := later[..|later| - 1];
     && SmoothRun(before, syn, seed, sofar)
     && Smooth(After(before + [Arrive(syn, seed)] + sofar), syn, later[|later| - 1]))
  }

  /** The SYN of a peer without a connection reaches a listener. */
  predicate Opens(n: Net, syn: Packet) {
    && n.running && syn.sumOk && syn.flags.syn && (syn.sip != 0 || syn.sport != 0)
    && RingName(syn.sip, syn.sport) !in n.rings
    && var i := Search(n.tcbs, syn.sip, syn.dip, syn.sport, syn.dport);
       i < |n.tcbs| && n.tcbs[i].status == Listen
  }

  // ---------------------------------------------------------------- the stream keeps up with it

  function StatusOf(phase: Phase): Status {
    match phase
    case Opened => SynRcvd
    case Flowing => Established
    case Over => CloseWait
    case Closing => LastAck
    case Gone => Closed
  }

  predicate Tracks(s: Stream, syn: Packet, t: Talk) {
    && Matches(s, syn.sip, syn.dip, syn.sport, syn.dport) && s.passive
    && s.status == StatusOf(t.phase) && t.phase != Gone
    && s.read + Tokens(s.rcvbuf) == t.heard
    && s.queued == t.said && s.sndNxt == t.next && s.rcvNxt == t.due
  }

  lemma Greets(syn: Packet, seed: nat)
    ensures Tracks(Created(syn, seed), syn, Greeting(syn, seed))
  {
  }

  /** A fragment that finds room in both rings and is acknowledged. */
  lemma TakesTracks(s: Stream, syn: Packet, t: Talk, p: Packet, data: seq<Byte>, ts: seq<Token>, len: nat, r: Stream)
    requires Tracks(s, syn, t) && Ours(p, syn) && ts == FragmentTokens(data)
    requires |s.rcvbuf| < RING_ROOM && |s.sndbuf| < RING_ROOM
    requires var s2 := Receive(s, data, ts).(rcvNxt := (s.rcvNxt + len) % U32, sndNxt := p.acknum % U32,
                                             accepted := r.accepted, fins := r.fins);
             r == Send(s2, AckFragment(s2, p))
    ensures Tracks(r, syn, Takes(syn, t, p, ts, len))
  {
    TokensAppend(s.rcvbuf, data);
    Assoc(s.read, Tokens(s.rcvbuf), ts);
  }

  lemma PushTracks(s: Stream, syn: Packet, t: Talk, p: Packet)
    requires Tracks(s, syn, t) && Ours(p, syn) && p.payload != []
    requires |s.rcvbuf| < RING_ROOM && |s.sndbuf| < RING_ROOM
    ensures Tracks(HandlePush(s, p), syn, Takes(syn, t, p, DataTokens(p.payload), |p.payload|))
  {
    TakesTracks(s, syn, t, p, p.payload, DataTokens(p.payload), |p.payload|, HandlePush(s, p));
  }

  lemma FinTracks(s: Stream, syn: Packet, t: Talk, p: Packet)
    requires Tracks(s, syn, t) && Ours(p, syn)
    requires |s.rcvbuf| < RING_ROOM && |s.sndbuf| < RING_ROOM
    ensures Tracks(HandleFin(s, p), syn, Takes(syn, t.(phase := Over), p, [Eof], 1))
  {
    TakesTracks(s.(status := CloseWait), syn, t.(phase := Over), p, [], [Eof], 1, HandleFin(s, p));
  }

  lemma HearsTracks(s: Stream, syn: Packet, t: Talk, p: Packet)
    requires Tracks(s, syn, t) && Ours(p, syn) && Fits(s, p) && s.status == Established
    ensures Tracks(HandleEstablished(s, p), syn, Hears(syn, t, p))
  {
    if p.flags.psh {
      PushTracks(s, syn, t, p);
    }
    if p.flags.fin {
      FinTracks(if p.flags.psh then HandlePush(s, p) else s, syn,
                if p.flags.psh then Takes(syn, t, p, DataTokens(p.payload), |p.payload|) else t, p);
    }
  }

  lemma CallsTrack(s: Stream, syn: Packet, t: Talk, buf: seq<Byte>)
    requires Tracks(s, syn, t) && |s.sndbuf| < RING_ROOM
    ensures Tracks(CloseStream(s), syn, Closes(syn, t))
    ensures var f := Fragment(s.dport, s.sport, s.sndNxt, s.rcvNxt, Flags(false, true, true, false), buf);
      Tracks(Send(s, f), syn, Writes(syn, t, buf))
  {
  }

  lemma ReadTracks(s: Stream, syn: Packet, t: Talk, len: nat)
    requires Tracks(s, syn, t) && s.rcvbuf != [] && Covers(s, len)
    ensures Tracks(RecvStream(s, len), syn, t)
  {
    ReadInStep(s.(intended := t.heard), len);
  }

  lemma TurnTracks(s: Stream, syn: Packet, t: Talk, arp: seq<nat>, count: nat, out: seq<OutPacket>)
    requires Tracks(s, syn, t)
    ensures Tracks(OutTurn(s, arp, count, out).0, syn, t)
  {
  }

  // ---------------------------------------------------------------- in the table

  /** Stream i follows the conversation, and no other stream has its peer. */
  predicate Apart(n: Net, i: nat, syn: Packet) {
    i < |n.tcbs| && forall k :: 0 <= k < |n.tcbs| && k != i ==> !Mine(n.tcbs[k], syn)
  }

  lemma NoneElse(events: seq<Event>, i: nat, syn: Packet)
    requires i < |After(events).tcbs| && After(events).tcbs[i].passive && Mine(After(events).tcbs[i], syn)
    requires syn.sip != 0 || syn.sport != 0
    ensures Apart(After(events), i, syn)
  {
    RunKeeps(events);
    var n := After(events);
    forall k | 0 <= k < |n.tcbs| && k != i ensures !Mine(n.tcbs[k], syn) {
      assert StreamInv(n.tcbs[k]);
      PeersAreDistinct(events, k, i);
    }
  }

  /** Its segments reach it, and no others do. */
  lemma Reaches(n: Net, i: nat, syn: Packet, p: Packet)
    requires Apart(n, i, syn) && Matches(n.tcbs[i], syn.sip, syn.dip, syn.sport, syn.dport)
    requires n.tcbs[i].status != Listen && p.sumOk
    ensures Search(n.tcbs, p.sip, p.dip, p.sport, p.dport) == i <==> Ours(p, syn)
  {
    var k := ExactFrom(n.tcbs, p.sip, p.dip, p.sport, p.dport);
    if k < |n.tcbs| && Ours(p, syn) {
      assert Mine(n.tcbs[k], syn);
    }
  }

  predicate Found(n: Net, i: nat, syn: Packet, t: Talk) { i < |n.tcbs| && Tracks(n.tcbs[i], syn, t) }

  /** A segment of the connection. */
  lemma OursArrives(n: Net, i: nat, syn: Packet, t: Talk, p: Packet, seed: nat)
    requires Apart(n, i, syn) && Found(n, i, syn, t) && Ours(p, syn)
    requires n.tcbs[i].status == Established ==> Fits(n.tcbs[i], p)
    ensures Hears(syn, t, p).phase != Gone ==> Found(Process(n, p, seed), i, syn, Hears(syn, t, p))
  {
    Reaches(n, i, syn, p);
    if n.tcbs[i].status == Established {
      HearsTracks(n.tcbs[i], syn, t, p);
    }
  }

  lemma WithoutOther(n: Net, i: nat, k: nat, syn: Packet, t: Talk) returns (j: nat)
    requires Found(n, i, syn, t) && k < |n.tcbs| && k != i
    ensures j < |Without(n.tcbs, k)| && Without(n.tcbs, k)[j] == n.tcbs[i]
  {
    j := if k < i then i - 1 else i;
  }

  /** Anything else that arrives. */
  lemma OtherArrives(n: Net, i: nat, syn: Packet, t: Talk, p: Packet, seed: nat) returns (j: nat)
    requires Apart(n, i, syn) && Found(n, i, syn, t) && !Ours(p, syn)
    ensures Found(Process(n, p, seed), j, syn, t)
  {
    j := i;
    if p.sumOk {
      Reaches(n, i, syn, p);
      var k := Search(n.tcbs, p.sip, p.dip, p.sport, p.dport);
      if k < |n.tcbs| && n.tcbs[k].status == Listen {
        j := if Process(n, p, seed).tcbs == n.tcbs then i else i + 1;
      } else if k < |n.tcbs| && n.tcbs[k].status == LastAck && p.flags.ack {
        j := WithoutOther(n, i, k, syn, t);
      }
    }
  }

  lemma SendingTracks(n: Net, i: nat, syn: Packet, t: Talk, fd: int, buf: seq<Byte>)
    requires n.running && Apart(n, i, syn) && Found(n, i, syn, t) && SmoothFor(n, n.tcbs[i], syn, Sending(fd, buf))
    ensures Found(NSend(n, fd, buf), i, syn, Observe(n, syn, t, Sending(fd, buf)))
  {
    if Calls(n, fd, syn) {
      CallsTrack(n.tcbs[i], syn, t, buf);
    }
  }

  lemma ClosingTracks(n: Net, i: nat, syn: Packet, t: Talk, fd: int) returns (j: nat)
    requires n.running && Apart(n, i, syn) && Found(n, i, syn, t) && SmoothFor(n, n.tcbs[i], syn, Close(fd))
    ensures Found(NClose(n, fd), j, syn, Observe(n, syn, t, Close(fd)))
  {
    j := i;
    var k := FromFd(n.tcbs, fd);
    if Calls(n, fd, syn) {
      CallsTrack(n.tcbs[i], syn, t, []);
    } else if k < |n.tcbs| && n.tcbs[k].status == Listen {
      j := WithoutOther(n, i, k, syn, t);
    }
  }

  lemma ReadingTracks(n: Net, i: nat, syn: Packet, t: Talk, fd: int, len: nat)
    requires Apart(n, i, syn) && Found(n, i, syn, t) && SmoothFor(n, n.tcbs[i], syn, Receiving(fd, len))
    ensures Found(NRecv(n, fd, len), i, syn, t)
  {
    if Calls(n, fd, syn) && n.tcbs[i].rcvbuf != [] {
      ReadTracks(n.tcbs[i], syn, t, len);
    }
  }

  lemma AcceptTracks(n: Net, i: nat, syn: Packet, t: Talk, fd: int)
    requires Found(n, i, syn, t)
    ensures Found(NAccept(n, fd), i, syn, t)
  {
  }

  lemma PassTracks(n: Net, i: nat, syn: Packet, t: Talk)
    requires Found(n, i, syn, t)
    ensures Found(OutPass(n), i, syn, t)
  {
    TurnTracks(n.tcbs[i], syn, t, n.arp, n.arpCount, OutRing(n.tcbs[..i], n.arp, n.arpCount, n.out));
  }

  lemma BindTracks(n: Net, i: nat, syn: Packet, t: Talk, fd: int, ip: nat, port: nat)
    requires Apart(n, i, syn) && Found(n, i, syn, t) && !Calls(n, fd, syn)
    ensures Found(NBind(n, fd, ip, port), i, syn, t) && Found(NListen(n, fd), i, syn, t)
  {
  }

  lemma SocketTracks(n: Net, i: nat, syn: Packet, t: Talk) returns (j: nat)
    requires Found(n, i, syn, t)
    ensures Found(NSocket(n), j, syn, t)
  {
    j := if SOCKET_RING in n.rings then i else i + 1;
  }

  lemma ArrivalTracks(n: Net, i: nat, syn: Packet, t: Talk, p: Packet, seed: nat) returns (j: nat)
    requires n.running && Apart(n, i, syn) && Found(n, i, syn, t) && SmoothFor(n, n.tcbs[i], syn, Arrive(p, seed))
    ensures var u := Observe(n, syn, t, Arrive(p, seed));
      u.phase != Gone ==> Found(Next(n, Arrive(p, seed)), j, syn, u)
  {
    var m := ArpInsert(n, p.sip);
    assert m.tcbs == n.tcbs;
    if Ours(p, syn) {
      j := i;
      OursArrives(m, i, syn, t, p, seed);
    } else {
      j := OtherArrives(m, i, syn, t, p, seed);
    }
  }

  lemma ObserveTracks(n: Net, i: nat, syn: Packet, t: Talk, e: Event) returns (j: nat)
    requires Apart(n, i, syn) && Found(n, i, syn, t) && Smooth(n, syn, e)
    ensures Observe(n, syn, t, e).phase != Gone ==> Found(Next(n, e), j, syn, Observe(n, syn, t, e))
  {
    j := i;
    if n.running {
      assert SmoothFor(n, n.tcbs[i], syn, e);
      match e {
        case Arrive(p, seed) => j := ArrivalTracks(n, i, syn, t, p, seed);
        case Out => PassTracks(n, i, syn, t);
        case Sending(fd, buf) => SendingTracks(n, i, syn, t, fd, buf);
        case Receiving(fd, len) => ReadingTracks(n, i, syn, t, fd, len);
        case Close(fd) => j := ClosingTracks(n, i, syn, t, fd);
        case Socket => j := SocketTracks(n, i, syn, t);
        case Accept(fd) => AcceptTracks(n, i, syn, t, fd);
        case Bind(fd, ip, port) => BindTracks(n, i, syn, t, fd, ip, port);
        case Listening(fd) => BindTracks(n, i, syn, t, fd, 0, 0);
        case Other(_) =>
        case Others(_) =>
        case Drain =>
      }
    }
  }

  // ---------------------------------------------------------------- open and close

  lemma {:induction false} SomeListener(tcbs: seq<Stream>, dport: nat)
    ensures ListenerFrom(tcbs, dport) < |tcbs| <==>
              exists j :: 0 <= j < |tcbs| && tcbs[j].dport == dport && tcbs[j].status == Listen
  {
    var k := ListenerFrom(tcbs, dport);
    if k < |tcbs| {
      assert tcbs[k].status == Listen;
    }
  }

  /** The handshake of section 3.4 of RFC 793, in every run: an intact segment with ACK that reaches a
      connection in SYN_RCVD establishes it, and no other stream changes; without ACK none does.  The
      program goes on when there is still a listener on the port, or a socket bound to it. */
  lemma HandshakeCompletes(events: seq<Event>, i: nat, p: Packet, seed: nat)
    requires var n := After(events);
      && n.running && i < |n.tcbs| && n.tcbs[i].passive && n.tcbs[i].status == SynRcvd
      && p.sumOk && Matches(n.tcbs[i], p.sip, p.dip, p.sport, p.dport) && (p.sip != 0 || p.sport != 0)
    ensures var n, n' := After(events), Next(After(events), Arrive(p, seed));
      && n'.tcbs == (if p.flags.ack then n.tcbs[i := n.tcbs[i].(status := Established)] else n.tcbs)
      && n'.rings == n.rings && n'.fds == n.fds && n'.out == n.out
      && (n'.running <==> p.flags.ack ==>
          exists j :: 0 <= j < |n'.tcbs| && n'.tcbs[j].dport == p.dport &&
            (n'.tcbs[j].status == Listen || Matches(n'.tcbs[j], 0, 0, 0, p.dport)))
  {
    DemultiplexingIsExact(events, i, p);
    var n' := Next(After(events), Arrive(p, seed));
    var k := ExactFrom(n'.tcbs, 0, 0, 0, p.dport);
    SomeListener(n'.tcbs, p.dport);
    if k < |n'.tcbs| {
      assert Matches(n'.tcbs[k], 0, 0, 0, p.dport);
    }
  }

  /** The close completes: an intact segment with ACK that reaches a connection in LAST_ACK removes
      it, so that its peer has no stream and the name of its rings is free for a new SYN; without
      ACK it stays. */
  lemma CloseCompletes(events: seq<Event>, i: nat, p: Packet, seed: nat)
    requires var n := After(events);
      && n.running && i < |n.tcbs| && n.tcbs[i].passive && n.tcbs[i].status == LastAck
      && p.sumOk && Matches(n.tcbs[i], p.sip, p.dip, p.sport, p.dport) && (p.sip != 0 || p.sport != 0)
    ensures var n, n' := After(events), Next(After(events), Arrive(p, seed));
      if p.flags.ack then
        && n'.tcbs == Without(n.tcbs, i) && (forall k :: 0 <= k < |n'.tcbs| ==> !Mine(n'.tcbs[k], p))
        && n'.rings == n.rings - {RingName(p.sip, p.sport)}
      else n'.tcbs == n.tcbs && n'.rings == n.rings
  {
    DemultiplexingIsExact(events, i, p);
    NoneElse(events, i, p);
    var n, r := After(events), Without(After(events).tcbs, i);
    forall k | 0 <= k < |r| ensures !Mine(r[k], p) {
      assert r[k] == n.tcbs[if k < i then k else k + 1];
    }
  }

  // ---------------------------------------------------------------- main results

  /** Every run after a SYN that opens a connection, whatever else happens in it: until the client
      acknowledges the close there is a stream, and it is where the observer says: in the same state,
      with the same segments queued in all, and what the application has read and will read from its
      ring is what the client's segments carried, in order. */
  lemma {:induction false} Conversation(before: seq<Event>, syn: Packet, seed: nat, later: seq<Event>) returns (i: nat)
    requires Opens(After(before), syn) && SmoothRun(before, syn, seed, later)
    ensures var t := Follow(before, syn, seed, later);
      t.phase != Gone ==> Found(After(before + [Arrive(syn, seed)] + later), i, syn, t)
  {
    var start := before + [Arrive(syn, seed)];
    if later == [] {
      i := 0;
      assert start + later == start;
      AfterStep(before, Arrive(syn, seed));
      SynIsServed(After(before), syn, seed);
      Greets(syn, seed);
    } else {
      var sofar, e := later[..|later| - 1], later[|later| - 1];
      i := Conversation(before, syn, seed, sofar);
      assert start + later == (start + sofar) + [e];
      AfterStep(start + sofar, e);
      if Follow(before, syn, seed, sofar).phase != Gone {
        NoneElse(start + sofar, i, syn);
        i := ObserveTracks(After(start + sofar), i, syn, Follow(before, syn, seed, sofar), e);
      }
    }
  }

  predicate OnlyAtEnd(t: Talk) {
    forall k :: 0 <= k < |t.heard| && t.heard[k] == Eof ==> k == |t.heard| - 1 && !t.phase.Opened? && !t.phase.Flowing?
  }

  lemma HearsOnlyAtEnd(syn: Packet, t: Talk, p: Packet)
    requires OnlyAtEnd(t)
    ensures OnlyAtEnd(Hears(syn, t, p))
  {
    if t.phase.Flowing? {
      var u := if p.flags.psh then Takes(syn, t, p, DataTokens(p.payload), |p.payload|) else t;
      assert OnlyAtEnd(u);
    }
  }

  lemma {:induction false} EofIsLast(before: seq<Event>, syn: Packet, seed: nat, later: seq<Event>)
    ensures OnlyAtEnd(Follow(before, syn, seed, later))
  {
    if later == [] {
    } else {
      EofIsLast(before, syn, seed, later[..|later| - 1]);
      var t := Follow(before, syn, seed, later[..|later| - 1]);
      match later[|later| - 1] {
        case Arrive(p, _) => HearsOnlyAtEnd(syn, t, p);
        case _ =>
      }
    }
  }

  /** The application reads what was heard: a beginning of it, and all of it when its ring is empty;
      an end of file comes last. */
  lemma ReadsWhatIsHeard(before: seq<Event>, syn: Packet, seed: nat, later: seq<Event>) returns (i: nat)
    requires Opens(After(before), syn) && SmoothRun(before, syn, seed, later)
    ensures var n, t := After(before + [Arrive(syn, seed)] + later), Follow(before, syn, seed, later);
      t.phase != Gone ==>
        && i < |n.tcbs| && Mine(n.tcbs[i], syn)
        && n.tcbs[i].read <= t.heard && (n.tcbs[i].rcvbuf == [] ==> n.tcbs[i].read == t.heard)
        && (Eof in n.tcbs[i].read ==> n.tcbs[i].read == t.heard && n.tcbs[i].read[|t.heard| - 1] == Eof)
  {
    i := Conversation(before, syn, seed, later);
    EofIsLast(before, syn, seed, later);
    var n, t := After(before + [Arrive(syn, seed)] + later), Follow(before, syn, seed, later);
    if t.phase != Gone {
      var s := n.tcbs[i];
      assert s.read == t.heard[..|s.read|];
      if Eof in s.read {
        var k :| 0 <= k < |s.read| && s.read[k] == Eof;
        assert t.heard[k] == Eof;
      }
    }
  }

  // ---------------------------------------------------------------- what is sent

  /** The data of the segments that carry PSH. */
  function Pushes(fs: seq<Fragment>): seq<seq<Byte>> {
    if fs == [] then []
    else Pushes(fs[..|fs| - 1]) + if fs[|fs| - 1].flags.psh then [fs[|fs| - 1].data] else []
  }

  function Joined(fs: seq<Fragment>): seq<Byte> {
    if fs == [] then [] else Joined(fs[..|fs| - 1]) + fs[|fs| - 1].data
  }

  function Concat(bufs: seq<seq<Byte>>): seq<Byte> {
    if bufs == [] then [] else Concat(bufs[..|bufs| - 1]) + bufs[|bufs| - 1]
  }

  /** The ports are those of the connection, and only what nsend made carries PSH, or data. */
  predicate Framed(f: Fragment, syn: Packet) {
    && f.sport == syn.dport && f.dport == syn.sport && f.flags.ack
    && (if f.flags.psh then f.flags == Flags(false, true, true, false) else f.data == [])
  }

  lemma SaysFramed(syn: Packet, t: Talk, flags: Flags, data: seq<Byte>)
    requires forall k :: 0 <= k < |t.said| ==> Framed(t.said[k], syn)
    requires flags.ack && if flags.psh then flags == Flags(false, true, true, false) else data == []
    ensures var u := Says(syn, t, flags, data);
      && (forall k :: 0 <= k < |u.said| ==> Framed(u.said[k], syn))
      && Pushes(u.said) == Pushes(t.said) + if flags.psh then [data] else []
  {
    assert Says(syn, t, flags, data).said[..|t.said|] == t.said;
  }

  predicate WellSaid(syn: Packet, t: Talk) {
    (forall k :: 0 <= k < |t.said| ==> Framed(t.said[k], syn)) && Pushes(t.said) == t.wrote
  }

  lemma TakesWellSaid(syn: Packet, t: Talk, p: Packet, ts: seq<Token>, len: nat)
    requires WellSaid(syn, t)
    ensures WellSaid(syn, Takes(syn, t, p, ts, len))
  {
    SaysFramed(syn, t.(heard := t.heard + ts, next := p.acknum % U32, due := (t.due + len) % U32), ACK, []);
  }

  lemma HearsWellSaid(syn: Packet, t: Talk, p: Packet)
    requires WellSaid(syn, t)
    ensures WellSaid(syn, Hears(syn, t, p))
  {
    if t.phase.Flowing? {
      TakesWellSaid(syn, t, p, DataTokens(p.payload), |p.payload|);
      var u := if p.flags.psh then Takes(syn, t, p, DataTokens(p.payload), |p.payload|) else t;
      TakesWellSaid(syn, u.(phase := Over), p, [Eof], 1);
    }
  }

  lemma ObserveWellSaid(n: Net, syn: Packet, t: Talk, e: Event)
    requires WellSaid(syn, t)
    ensures WellSaid(syn, Observe(n, syn, t, e))
  {
    match e {
      case Arrive(p, _) => HearsWellSaid(syn, t, p);
      case Sending(_, buf) => SaysFramed(syn, t.(wrote := t.wrote + [buf]), Flags(false, true, true, false), buf);
      case Close(_) => SaysFramed(syn, t.(phase := Closing), Flags(false, true, false, true), []);
      case _ =>
    }
  }

  /** Of the segments that have to leave, those with PSH are the buffers of the calls of nsend, one by
      one; all have the ports of the connection, and the others carry no data. */
  lemma {:induction false} SaysWhatIsWritten(before: seq<Event>, syn: Packet, seed: nat, later: seq<Event>)
    ensures WellSaid(syn, Follow(before, syn, seed, later))
  {
    if later == [] {
      SaysFramed(syn, Talk(Opened, [], [], [], seed % (U32 - 1), (syn.seqnum + 1) % U32), Flags(true, true, false, false), []);
    } else {
      var sofar := later[..|later| - 1];
      SaysWhatIsWritten(before, syn, seed, sofar);
      ObserveWellSaid(After(before + [Arrive(syn, seed)] + sofar), syn, Follow(before, syn, seed, sofar), later[|later| - 1]);
    }
  }

  lemma {:induction false} JoinedPushes(fs: seq<Fragment>, syn: Packet)
    requires forall k :: 0 <= k < |fs| ==> Framed(fs[k], syn)
    ensures Joined(fs) == Concat(Pushes(fs))
  {
    if fs == [] {
    } else {
      var l := fs[|fs| - 1];
      JoinedPushes(fs[..|fs| - 1], syn);
      assert Framed(l, syn);
      if l.flags.psh {
        assert Pushes(fs)[..|Pushes(fs)| - 1] == Pushes(fs[..|fs| - 1]);
      } else {
        assert Joined(fs) == Joined(fs[..|fs| - 1]) + [];
        assert Pushes(fs) == Pushes(fs[..|fs| - 1]);
      }
    }
  }

  /** The byte stream in the sending direction: the data of everything the connection ever queued,
      one after the other, is the buffers that the application sent on its descriptor, one after
      the other. */
  lemma QueuesWhatIsSent(before: seq<Event>, syn: Packet, seed: nat, later: seq<Event>) returns (i: nat)
    requires Opens(After(before), syn) && SmoothRun(before, syn, seed, later)
    ensures var n, t := After(before + [Arrive(syn, seed)] + later), Follow(before, syn, seed, later);
      t.phase != Gone ==>
        && i < |n.tcbs| && Mine(n.tcbs[i], syn)
        && Joined(n.tcbs[i].queued) == Concat(t.wrote)
        && (forall k :: 0 <= k < |n.tcbs[i].queued| ==> Framed(n.tcbs[i].queued[k], syn))
  {
    i := Conversation(before, syn, seed, later);
    SaysWhatIsWritten(before, syn, seed, later);
    JoinedPushes(Follow(before, syn, seed, later).said, syn);
  }
}

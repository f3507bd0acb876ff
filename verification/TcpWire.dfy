/** What leaves on the wire. */
module TcpWire {
  import opened Bytes
  import opened Tcp
  import opened TcpInvariant
  import opened TcpTheorems
  import opened TcpDemux
  import opened TcpConversation

  // ---------------------------------------------------------------- the output ring is a queue

  lemma {:induction false} OutRingExtends(tcbs: seq<Stream>, arp: seq<nat>, count: nat, out: seq<OutPacket>)
    ensures out <= OutRing(tcbs, arp, count, out)
  {
    if tcbs == [] {
    } else {
      OutRingExtends(tcbs[..|tcbs| - 1], arp, count, out);
    }
  }

  lemma {:induction false} OthersExtend(out: seq<OutPacket>, k: nat)
    ensures out <= PutOthers(out, k)
  {
    if k == 0 {
    } else {
      OthersExtend(out, k - 1);
    }
  }

  /** The transmitting loop takes the oldest packets, a burst at most, and every other event only puts
      packets behind those that wait. */
  lemma RingIsQueue(n: Net, e: Event)
    requires n.running
    ensures var n' := Next(n, e);
      if e.Drain? then n'.wire + n'.out == n.wire + n.out && |n'.out| == |n.out| - Min(BURST_SIZE, |n.out|)
      else n'.wire == n.wire && n.out <= n'.out && (!e.Out? && !e.Others? ==> n'.out == n.out)
  {
    match e {
      case Out => OutRingExtends(n.tcbs, n.arp, n.arpCount, n.out);
      case Others(k) => OthersExtend(n.out, k);
      case Drain =>
        var k := Min(BURST_SIZE, |n.out|);
        Assoc(n.wire, n.out[..k], n.out[k..]);
        assert n.out[..k] + n.out[k..] == n.out;
      case _ =>
    }
  }

  lemma {:induction false} PutAt(tcbs: seq<Stream>, arp: seq<nat>, count: nat, out: seq<OutPacket>, i: nat)
    requires i < |tcbs| && tcbs[i].sndbuf != [] && |out| + Busy(tcbs[..i]) < RING_ROOM
    ensures var r, at := OutRing(tcbs, arp, count, out), |out| + Busy(tcbs[..i]);
      && at < |r|
      && r[at] == if ArpFind(arp, count, tcbs[i].sip) then Segment(tcbs[i].dip, tcbs[i].sip, tcbs[i].sndbuf[0])
                  else ArpRequest(tcbs[i].sip)
  {
    var init := tcbs[..|tcbs| - 1];
    if i == |tcbs| - 1 {
      OutRingSize(init, arp, count, out);
    } else {
      assert init[..i] == tcbs[..i];
      PutAt(init, arp, count, out, i);
    }
  }

  /** A pass puts one packet on the ring for every stream that has something to send, in the order of
      the list, as long as there is room: the oldest fragment between the addresses of the stream, or
      an ARP request for a peer that is not known. */
  lemma PassPuts(n: Net, i: nat)
    requires |n.out| <= RING_ROOM && i < |n.tcbs| && n.tcbs[i].sndbuf != [] && RoomAt(n, i)
    ensures var s, r := n.tcbs[i], OutPass(n).out;
      && |r| == Min(RING_ROOM, |n.out| + Busy(n.tcbs))
      && |n.out| + Busy(n.tcbs[..i]) < |r|
      && r[|n.out| + Busy(n.tcbs[..i])] ==
           if ArpFind(n.arp, n.arpCount, s.sip) then Segment(s.dip, s.sip, s.sndbuf[0]) else ArpRequest(s.sip)
  {
    OutRingSize(n.tcbs, n.arp, n.arpCount, n.out);
    PutAt(n.tcbs, n.arp, n.arpCount, n.out, i);
  }

  // ---------------------------------------------------------------- what the ARP table learns

  predicate Names(e: Event, a: nat) {
    match e
    case Arrive(p, _) => p.sip == a
    case Other(sip) => sip == a
    case _ => false
  }

  lemma LearnsStep(n: Net, e: Event, a: nat)
    requires n.running && n.arpCount == |n.arp|
    ensures a in Next(n, e).arp <==> a in n.arp || Names(e, a)
  {
    if e.Arrive? {
      ArpFindIs(n.arp, e.p.sip);
    }
    if e.Other? {
      ArpFindIs(n.arp, e.sip);
    }
  }

  /** While the program goes on, the ARP table holds exactly the addresses from which a packet came. */
  lemma {:induction false} LearnsSources(events: seq<Event>, a: nat)
    requires After(events).running
    ensures a in After(events).arp <==> exists k :: 0 <= k < |events| && Names(events[k], a)
  {
    if events == [] {
    } else {
      var sofar, e := events[..|events| - 1], events[|events| - 1];
      LearnsSources(sofar, a);
      RunKeeps(sofar);
      LearnsStep(After(sofar), e, a);
      assert forall k :: 0 <= k < |sofar| ==> sofar[k] == events[k];
    }
  }

  // ---------------------------------------------------------------- destination ports

  /** What waits in a send ring is for the port of the peer. */
  predicate StreamPorted(s: Stream) {
    forall k :: 0 <= k < |s.sndbuf| ==> s.sndbuf[k].dport == s.sport
  }

  predicate Ported(n: Net) {
    forall i :: 0 <= i < |n.tcbs| ==> StreamPorted(n.tcbs[i])
  }

  lemma EstablishedPorted(s: Stream, p: Packet)
    requires StreamPorted(s) && p.sport == s.sport
    ensures StreamPorted(HandleEstablished(s, p))
  {
    var s1 := if p.flags.psh then HandlePush(s, p) else s;
    assert StreamPorted(s1) && s1.sport == s.sport;
  }

  lemma ReplacePorted(n: Net, i: nat, s: Stream)
    requires Ported(n) && i < |n.tcbs| && StreamPorted(s)
    ensures Ported(n.(tcbs := n.tcbs[i := s]))
  {
  }

  lemma WithoutPorted(n: Net, i: nat)
    requires Ported(n) && i < |n.tcbs|
    ensures Ported(n.(tcbs := Without(n.tcbs, i)))
  {
  }

  lemma ProcessPorted(n: Net, p: Packet, seed: nat)
    requires Ported(n)
    ensures Ported(Process(n, p, seed))
  {
    var i := Search(n.tcbs, p.sip, p.dip, p.sport, p.dport);
    if p.sumOk && i < |n.tcbs| {
      match n.tcbs[i].status {
        case Listen => assert StreamPorted(Created(p, seed));
        case SynRcvd => ReplacePorted(n, i, n.tcbs[i].(status := Status.Established));
        case Established =>
          EstablishedPorted(n.tcbs[i], p);
          ReplacePorted(n, i, HandleEstablished(n.tcbs[i], p));
        case LastAck => WithoutPorted(n, i);
        case CloseWait =>
        case Closed =>
      }
    }
  }

  lemma OutPorted(n: Net)
    requires Ported(n)
    ensures Ported(OutPass(n))
  {
    forall i | 0 <= i < |n.tcbs| ensures StreamPorted(OutPass(n).tcbs[i]) {
      assert StreamPorted(n.tcbs[i]);
    }
  }

  lemma ClosePorted(n: Net, fd: int)
    requires Ported(n)
    ensures Ported(NClose(n, fd))
  {
    var i := FromFd(n.tcbs, fd);
    if i < |n.tcbs| {
      WithoutPorted(n, i);
      assert StreamPorted(CloseStream(n.tcbs[i]));
    }
  }

  lemma CallPorted(n: Net, e: Event)
    requires Ported(n) && (e.Bind? || e.Listening? || e.Sending? || e.Receiving? || e.Accept? || e.Socket?)
    ensures Ported(Next(n, e))
  {
  }

  lemma NextPorted(n: Net, e: Event)
    requires Ported(n)
    ensures Ported(Next(n, e))
  {
    match e {
      case Arrive(p, seed) => ProcessPorted(ArpInsert(n, p.sip), p, seed);
      case Out => OutPorted(n);
      case Close(fd) => ClosePorted(n, fd);
      case Other(_) =>
      case Others(_) =>
      case Drain =>
      case _ => CallPorted(n, e);
    }
  }

  lemma {:induction false} RunPorted(events: seq<Event>)
    ensures Ported(After(events))
  {
    if events == [] {
    } else {
      RunPorted(events[..|events| - 1]);
      NextPorted(After(events[..|events| - 1]), events[|events| - 1]);
    }
  }

  // ---------------------------------------------------------------- the segments for one peer

  /** What of these packets goes to the peer of this SYN, from the address it was sent to. */
  function Toward(ps: seq<OutPacket>, syn: Packet): seq<Fragment> {
    if ps == [] then []
    else
      var l := ps[|ps| - 1];
      Toward(ps[..|ps| - 1], syn) +
      if l.Segment? && l.sip == syn.dip && l.dip == syn.sip && l.f.dport == syn.sport then [l.f] else []
  }

  lemma {:induction false} TowardBoth(a: seq<OutPacket>, b: seq<OutPacket>, syn: Packet)
    ensures Toward(a + b, syn) == Toward(a, syn) + Toward(b, syn)
  {
    if b == [] {
      assert a + b == a;
    } else {
      assert (a + b)[..|a + b| - 1] == a + b[..|b| - 1];
      TowardBoth(a, b[..|b| - 1], syn);
    }
  }

  lemma {:induction false} OthersToward(out: seq<OutPacket>, k: nat, syn: Packet)
    ensures Toward(PutOthers(out, k), syn) == Toward(out, syn)
  {
    if k == 0 {
    } else {
      OthersToward(out, k - 1, syn);
      TowardBoth(PutOthers(out, k - 1), [OtherPacket], syn);
    }
  }

  /** What the turn of a stream adds for the peer. */
  function Share(s: Stream, known: bool, room: bool, mine: bool): seq<Fragment> {
    if s.sndbuf != [] && known && room && mine then [s.sndbuf[0]] else []
  }

  lemma TurnToward(s: Stream, arp: seq<nat>, count: nat, out: seq<OutPacket>, syn: Packet)
    requires StreamPorted(s) && (Mine(s, syn) ==> s.dip == syn.dip)
    ensures Toward(OutTurn(s, arp, count, out).1, syn)
         == Toward(out, syn) + Share(s, ArpFind(arp, count, s.sip), |out| < RING_ROOM, Mine(s, syn))
  {
    if s.sndbuf != [] {
      var l := if ArpFind(arp, count, s.sip) then Segment(s.dip, s.sip, s.sndbuf[0]) else ArpRequest(s.sip);
      TowardBoth(out, [l], syn);
      assert s.sndbuf[0].dport == s.sport;
    }
  }

  /** Streams of other peers add nothing. */
  lemma {:induction false} OthersTurns(tcbs: seq<Stream>, arp: seq<nat>, count: nat, out: seq<OutPacket>, syn: Packet)
    requires forall k :: 0 <= k < |tcbs| ==> StreamPorted(tcbs[k]) && !Mine(tcbs[k], syn)
    ensures Toward(OutRing(tcbs, arp, count, out), syn) == Toward(out, syn)
  {
    if tcbs == [] {
    } else {
      var init, l := tcbs[..|tcbs| - 1], tcbs[|tcbs| - 1];
      OthersTurns(init, arp, count, out, syn);
      TurnToward(l, arp, count, OutRing(init, arp, count, out), syn);
    }
  }

  lemma {:induction false} AllTurns(tcbs: seq<Stream>, arp: seq<nat>, count: nat, out: seq<OutPacket>, syn: Packet, i: nat)
    requires i < |tcbs| && tcbs[i].dip == syn.dip && Mine(tcbs[i], syn)
    requires forall k :: 0 <= k < |tcbs| ==> StreamPorted(tcbs[k]) && (k != i ==> !Mine(tcbs[k], syn))
    ensures Toward(OutRing(tcbs, arp, count, out), syn)
         == Toward(out, syn) + Share(tcbs[i], ArpFind(arp, count, tcbs[i].sip), |OutRing(tcbs[..i], arp, count, out)| < RING_ROOM, true)
  {
    var init, l := tcbs[..|tcbs| - 1], tcbs[|tcbs| - 1];
    TurnToward(l, arp, count, OutRing(init, arp, count, out), syn);
    if i == |tcbs| - 1 {
      OthersTurns(init, arp, count, out, syn);
    } else {
      assert init[..i] == tcbs[..i];
      AllTurns(init, arp, count, out, syn, i);
    }
  }

  /** What was put out for the peer, sent or still on the output ring. */
  function Output(n: Net, syn: Packet): seq<Fragment> { Toward(n.wire + n.out, syn) }

  lemma TurnSent(s: Stream, arp: seq<nat>, count: nat, out: seq<OutPacket>)
    ensures OutTurn(s, arp, count, out).0.sent
         == s.sent + Share(s, ArpFind(arp, count, s.sip), |out| < RING_ROOM, true)
  {
  }

  lemma PassToward(n: Net, i: nat, syn: Packet) returns (more: seq<Fragment>)
    requires Ported(n) && Apart(n, i, syn) && Mine(n.tcbs[i], syn) && n.tcbs[i].dip == syn.dip
    ensures OutPass(n).tcbs[i].sent == n.tcbs[i].sent + more
    ensures Toward(OutPass(n).out, syn) == Toward(n.out, syn) + more
  {
    var before := OutRing(n.tcbs[..i], n.arp, n.arpCount, n.out);
    more := Share(n.tcbs[i], ArpFind(n.arp, n.arpCount, n.tcbs[i].sip), |before| < RING_ROOM, true);
    TurnSent(n.tcbs[i], n.arp, n.arpCount, before);
    AllTurns(n.tcbs, n.arp, n.arpCount, n.out, syn, i);
  }

  lemma PassOutput(n: Net, i: nat, syn: Packet) returns (more: seq<Fragment>)
    requires Ported(n) && Apart(n, i, syn) && Mine(n.tcbs[i], syn) && n.tcbs[i].dip == syn.dip
    ensures OutPass(n).tcbs[i].sent == n.tcbs[i].sent + more
    ensures Output(OutPass(n), syn) == Output(n, syn) + more
  {
    more := PassToward(n, i, syn);
    TowardBoth(n.wire, n.out, syn);
    TowardBoth(n.wire, OutPass(n).out, syn);
    Assoc(Toward(n.wire, syn), Toward(n.out, syn), more);
  }

  /** Every other event puts out nothing for the peer. */
  lemma OtherOutput(n: Net, e: Event, syn: Packet)
    requires !e.Out?
    ensures Output(Next(n, e), syn) == Output(n, syn)
  {
    if n.running {
      RingIsQueue(n, e);
      TowardBoth(n.wire, n.out, syn);
      TowardBoth(n.wire, Next(n, e).out, syn);
      if e.Others? {
        OthersToward(n.out, e.k, syn);
      }
    }
  }

  // ---------------------------------------------------------------- what is put out is what was taken

  /** Stream i of n is stream j of n', as far as what it sent goes. */
  predicate SameSent(n: Net, i: nat, n': Net, j: nat)
    requires i < |n.tcbs|
  {
    j < |n'.tcbs| && n'.tcbs[j].sent == n.tcbs[i].sent
  }

  /** Stream k is replaced. */
  lemma ReplaceSent(n: Net, i: nat, syn: Packet, k: nat, s: Stream, j: nat)
    requires Apart(n, i, syn) && k < |n.tcbs| && j < |n.tcbs|
    requires s.sent == n.tcbs[k].sent && s.sip == n.tcbs[k].sip && s.sport == n.tcbs[k].sport
    requires Mine(n.tcbs[k := s][j], syn)
    ensures n.tcbs[k := s][j].sent == n.tcbs[i].sent
  {
    assert Mine(n.tcbs[j], syn);
  }

  lemma WithoutSent(n: Net, i: nat, syn: Packet, k: nat, j: nat)
    requires Apart(n, i, syn) && k < |n.tcbs| && j < |Without(n.tcbs, k)| && Mine(Without(n.tcbs, k)[j], syn)
    ensures Without(n.tcbs, k)[j].sent == n.tcbs[i].sent
  {
    assert Without(n.tcbs, k)[j] == n.tcbs[if j < k then j else j + 1];
  }

  lemma ConnectSent(n: Net, i: nat, syn: Packet, p: Packet, seed: nat, j: nat)
    requires Apart(n, i, syn) && Named(n) && Mine(n.tcbs[i], syn) && n.tcbs[i].passive
    requires j < |Connect(n, p, seed).tcbs| && Mine(Connect(n, p, seed).tcbs[j], syn)
    ensures SameSent(n, i, Connect(n, p, seed), j)
  {
    assert NameOf(n.tcbs[i]) in n.rings;
    if RingName(p.sip, p.sport) !in n.rings && j > 0 {
      assert Connect(n, p, seed).tcbs[j] == n.tcbs[j - 1];
    }
  }

  lemma ArrivalSent(n: Net, i: nat, syn: Packet, p: Packet, seed: nat, j: nat)
    requires Apart(n, i, syn) && Named(n) && Mine(n.tcbs[i], syn) && n.tcbs[i].passive
    requires j < |Process(n, p, seed).tcbs| && Mine(Process(n, p, seed).tcbs[j], syn)
    ensures SameSent(n, i, Process(n, p, seed), j)
  {
    var k := Search(n.tcbs, p.sip, p.dip, p.sport, p.dport);
    if p.sumOk && k < |n.tcbs| {
      match n.tcbs[k].status {
        case Listen => if p.flags.syn { ConnectSent(n, i, syn, p, seed, j); }
        case SynRcvd => if p.flags.ack { ReplaceSent(n, i, syn, k, n.tcbs[k].(status := Status.Established), j); }
        case Established =>
          EstablishedSends(n.tcbs[k], p);
          ReplaceSent(n, i, syn, k, HandleEstablished(n.tcbs[k], p), j);
        case LastAck => if p.flags.ack { WithoutSent(n, i, syn, k, j); }
        case CloseWait =>
        case Closed =>
      }
    }
  }

  lemma CloseSent(n: Net, i: nat, syn: Packet, fd: int, j: nat)
    requires Apart(n, i, syn) && Mine(n.tcbs[i], syn)
    requires j < |NClose(n, fd).tcbs| && Mine(NClose(n, fd).tcbs[j], syn)
    ensures SameSent(n, i, NClose(n, fd), j)
  {
  }

  lemma AcceptSent(n: Net, i: nat, syn: Packet, fd: int, j: nat)
    requires Apart(n, i, syn) && Mine(n.tcbs[i], syn)
    requires j < |NAccept(n, fd).tcbs| && Mine(NAccept(n, fd).tcbs[j], syn)
    ensures SameSent(n, i, NAccept(n, fd), j)
  {
  }

  lemma CallSent(n: Net, i: nat, syn: Packet, e: Event, j: nat)
    requires Apart(n, i, syn) && Mine(n.tcbs[i], syn) && (syn.sip != 0 || syn.sport != 0)
    requires e.Bind? || e.Listening? || e.Sending? || e.Receiving? || e.Socket?
    requires j < |Next(n, e).tcbs| && Mine(Next(n, e).tcbs[j], syn)
    ensures SameSent(n, i, Next(n, e), j)
  {
  }

  lemma StepSent(n: Net, i: nat, syn: Packet, e: Event, j: nat)
    requires Apart(n, i, syn) && Named(n) && Mine(n.tcbs[i], syn) && n.tcbs[i].passive
    requires !e.Out? && (syn.sip != 0 || syn.sport != 0)
    requires j < |Next(n, e).tcbs| && Mine(Next(n, e).tcbs[j], syn)
    ensures SameSent(n, i, Next(n, e), j)
  {
    if n.running {
      match e {
        case Arrive(p, seed) => ArrivalSent(ArpInsert(n, p.sip), i, syn, p, seed, j);
        case Close(fd) => CloseSent(n, i, syn, fd, j);
        case Accept(fd) => AcceptSent(n, i, syn, fd, j);
        case Other(_) =>
        case Others(_) =>
        case Drain =>
        case _ => CallSent(n, i, syn, e, j);
      }
    }
  }

  /** A pass leaves the stream in its place. */
  lemma PassStays(n: Net, i: nat, j: nat, syn: Packet)
    requires Apart(n, i, syn) && j < |OutPass(n).tcbs| && Mine(OutPass(n).tcbs[j], syn)
    ensures j == i
  {
    assert Mine(n.tcbs[j], syn);
  }

  /** One event: what is newly counted as sent is what is newly put out for the peer. */
  lemma StepOutput(n: Net, i: nat, syn: Packet, e: Event, j: nat) returns (more: seq<Fragment>)
    requires Apart(n, i, syn) && Named(n) && Ported(n) && Matches(n.tcbs[i], syn.sip, syn.dip, syn.sport, syn.dport)
    requires n.tcbs[i].passive && (syn.sip != 0 || syn.sport != 0)
    requires j < |Next(n, e).tcbs| && Mine(Next(n, e).tcbs[j], syn)
    ensures Next(n, e).tcbs[j].sent == n.tcbs[i].sent + more
    ensures Output(Next(n, e), syn) == Output(n, syn) + more
  {
    more := [];
    if e.Out? {
      if n.running {
        PassStays(n, i, j, syn);
        more := PassOutput(n, i, syn);
      } else {
        assert j == i;
      }
    } else {
      StepSent(n, i, syn, e, j);
      OtherOutput(n, e, syn);
    }
  }

  lemma OpenedSent(before: seq<Event>, syn: Packet, seed: nat, i: nat)
    requires Opens(After(before), syn)
    requires i < |After(before + [Arrive(syn, seed)]).tcbs|
    requires After(before + [Arrive(syn, seed)]).tcbs[i].passive && Mine(After(before + [Arrive(syn, seed)]).tcbs[i], syn)
    ensures After(before + [Arrive(syn, seed)]).tcbs[i].sent == []
  {
    AfterStep(before, Arrive(syn, seed));
    SynIsServed(After(before), syn, seed);
    NoneElse(before + [Arrive(syn, seed)], 0, syn);
  }

  lemma {:induction false} Carried(before: seq<Event>, syn: Packet, seed: nat, later: seq<Event>, i: nat)
    requires Opens(After(before), syn) && SmoothRun(before, syn, seed, later)
    requires Follow(before, syn, seed, later).phase != Gone
    requires Found(After(before + [Arrive(syn, seed)] + later), i, syn, Follow(before, syn, seed, later))
    ensures Output(After(before + [Arrive(syn, seed)] + later), syn)
         == Output(After(before), syn) + After(before + [Arrive(syn, seed)] + later).tcbs[i].sent
  {
    var start := before + [Arrive(syn, seed)];
    if later == [] {
      assert start + later == start;
      AfterStep(before, Arrive(syn, seed));
      OtherOutput(After(before), Arrive(syn, seed), syn);
      OpenedSent(before, syn, seed, i);
    } else {
      var sofar, e := later[..|later| - 1], later[|later| - 1];
      var k := Conversation(before, syn, seed, sofar);
      assert start + later == (start + sofar) + [e];
      AfterStep(start + sofar, e);
      Carried(before, syn, seed, sofar, k);
      NoneElse(start + sofar, k, syn);
      RunNamed(start + sofar);
      RunPorted(start + sofar);
      var more := StepOutput(After(start + sofar), k, syn, e, i);
      Assoc(Output(After(before), syn), After(start + sofar).tcbs[k].sent, more);
    }
  }

  lemma {:induction false} JoinedBoth(a: seq<Fragment>, b: seq<Fragment>)
    ensures Joined(a + b) == Joined(a) + Joined(b)
  {
    if b == [] {
      assert a + b == a;
    } else {
      assert (a + b)[..|a + b| - 1] == a + b[..|b| - 1];
      JoinedBoth(a, b[..|b| - 1]);
    }
  }

  // ---------------------------------------------------------------- main results

  /** From end to end, in every run after a SYN that opens a connection: what was put out for its peer
      since then is a part, in order, of the segments that the observer says have to leave; and when
      the output ring had room in every pass it is the beginning of them, and the rest is queued, so
      that the bytes put out, followed by those queued, are the bytes that the application sent. */
  lemma WireCarries(before: seq<Event>, syn: Packet, seed: nat, later: seq<Event>) returns (i: nat, gone: seq<Fragment>)
    requires Opens(After(before), syn) && SmoothRun(before, syn, seed, later)
    ensures var n, t := After(before + [Arrive(syn, seed)] + later), Follow(before, syn, seed, later);
      t.phase != Gone ==>
        && i < |n.tcbs| && Mine(n.tcbs[i], syn)
        && Output(n, syn) == Output(After(before), syn) + gone
        && n.tcbs[i].handed + n.tcbs[i].sndbuf == t.said && Subsequence(gone, n.tcbs[i].handed)
        && (RoomyRun(before + [Arrive(syn, seed)] + later) ==>
            && gone + n.tcbs[i].sndbuf == t.said
            && Joined(gone) + Joined(n.tcbs[i].sndbuf) == Concat(t.wrote))
  {
    i := Conversation(before, syn, seed, later);
    var events, t := before + [Arrive(syn, seed)] + later, Follow(before, syn, seed, later);
    gone := [];
    if t.phase != Gone {
      gone := After(events).tcbs[i].sent;
      Carried(before, syn, seed, later, i);
      SegmentsLeaveInOrder(events, i);
      if RoomyRun(events) {
        NothingIsLost(events);
        SaysWhatIsWritten(before, syn, seed, later);
        JoinedPushes(t.said, syn);
        JoinedBoth(gone, After(events).tcbs[i].sndbuf);
      }
    }
  }
}

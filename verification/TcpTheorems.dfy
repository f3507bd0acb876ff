/** What the TCP sends, in every run. */
module TcpTheorems {
  import opened Bytes
  import opened Tcp
  import opened TcpInvariant

  /** The ARP table never forgets, and its count is its length. */
  lemma ArpNeverShrinks(events: seq<Event>, e: Event, a: nat)
    ensures a in After(events).arp ==> a in Next(After(events), e).arp
    ensures Next(After(events), e).arpCount == |Next(After(events), e).arp|
  {
    RunKeeps(events);
    NextKeeps(After(events), e);
  }

  // ---------------------------------------------------------------- the output ring

  /** How many of these streams will put a packet on the output ring. */
  function Busy(tcbs: seq<Stream>): nat {
    if tcbs == [] then 0
    else Busy(tcbs[..|tcbs| - 1]) + if tcbs[|tcbs| - 1].sndbuf == [] then 0 else 1
  }

  /** The ring has a place left when the turn of stream i comes. */
  predicate RoomAt(n: Net, i: nat)
    requires i <= |n.tcbs|
  {
    |n.out| + Busy(n.tcbs[..i]) < RING_ROOM
  }

  lemma {:induction false} OutRingSize(tcbs: seq<Stream>, arp: seq<nat>, count: nat, out: seq<OutPacket>)
    requires |out| <= RING_ROOM
    ensures |OutRing(tcbs, arp, count, out)| == Min(RING_ROOM, |out| + Busy(tcbs))
  {
    if tcbs == [] {
    } else {
      OutRingSize(tcbs[..|tcbs| - 1], arp, count, out);
    }
  }

  /** What a pass does to stream i when its peer is in the ARP table. */
  lemma PassOf(n: Net, i: nat)
    requires |n.out| <= RING_ROOM && i < |n.tcbs| && ArpFind(n.arp, n.arpCount, n.tcbs[i].sip)
    ensures var s := n.tcbs[i];
            OutPass(n).tcbs[i] ==
              if s.sndbuf == [] then s
              else s.(sndbuf := s.sndbuf[1..], handed := s.handed + [s.sndbuf[0]],
                      sent := if RoomAt(n, i) then s.sent + [s.sndbuf[0]] else s.sent)
  {
    OutRingSize(n.tcbs[..i], n.arp, n.arpCount, n.out);
  }

  lemma SentOrLost(s: Stream, room: bool)
    requires s.sent + s.sndbuf == s.queued && s.sndbuf != []
    ensures (if room then s.sent + [s.sndbuf[0]] else s.sent) + s.sndbuf[1..] == s.queued <==> room
  {
    if room {
      HeadMoves(s.sent, s.sndbuf);
    } else {
      assert |s.sent + s.sndbuf[1..]| < |s.queued|;
    }
  }

  /** One pass, for any stream of any table: nothing of the stream is lost or reordered exactly when
      it has nothing to send, or its peer is known and the ring has room when its turn comes, or its
      peer is unknown and the fragment that goes back to the end of sndbuf changes nothing there. */
  lemma PassIsExact(n: Net, i: nat)
    requires |n.out| <= RING_ROOM && i < |n.tcbs| && n.tcbs[i].sent + n.tcbs[i].sndbuf == n.tcbs[i].queued
    ensures var s, r := n.tcbs[i], OutPass(n).tcbs[i];
            (r.sent + r.sndbuf == r.queued <==>
              || s.sndbuf == []
              || (if ArpFind(n.arp, n.arpCount, s.sip) then RoomAt(n, i)
                  else s.sndbuf[1..] + [s.sndbuf[0]] == s.sndbuf))
  {
    var s := n.tcbs[i];
    if ArpFind(n.arp, n.arpCount, s.sip) {
      PassOf(n, i);
      if s.sndbuf != [] {
        SentOrLost(s, RoomAt(n, i));
      }
    } else if s.sndbuf != [] {
      SameTail(s.sent, s.sndbuf[1..] + [s.sndbuf[0]], s.sndbuf);
    }
  }

  lemma PeerIsKnown(n: Net, i: nat)
    requires NetInv(n) && i < |n.tcbs| && n.tcbs[i].passive
    ensures ArpFind(n.arp, n.arpCount, n.tcbs[i].sip) && InOrder(n.tcbs[i])
  {
    assert StreamInv(n.tcbs[i]) && Known(n.tcbs[i], n.arp);
    ArpFindIs(n.arp, n.tcbs[i].sip);
  }

  /** The segments of a connection leave in the order in which they were queued, in every run: what
      is still queued follows what was taken out, and what found room on the output ring is a
      subsequence of that.  Every pass takes the oldest one, because the peer is in the ARP table. */
  lemma SegmentsLeaveInOrder(events: seq<Event>, i: nat)
    requires i < |After(events).tcbs| && After(events).tcbs[i].passive
    ensures var s := After(events).tcbs[i];
            s.handed + s.sndbuf == s.queued && Subsequence(s.sent, s.handed)
    ensures var n, n' := After(events), Next(After(events), Out);
            n.running && n.tcbs[i].sndbuf != [] ==>
              && |n'.tcbs| == |n.tcbs|
              && n'.tcbs[i].sndbuf == n.tcbs[i].sndbuf[1..]
              && n'.tcbs[i].handed == n.tcbs[i].handed + [n.tcbs[i].sndbuf[0]]
              && n'.tcbs[i].sent == n.tcbs[i].sent + if RoomAt(n, i) then [n.tcbs[i].sndbuf[0]] else []
  {
    RunKeeps(events);
    PeerIsKnown(After(events), i);
    PassOf(After(events), i);
  }

  /** A pass of a run loses nothing of a connection exactly when the connection has nothing to send
      or the output ring has room when its turn comes. */
  lemma LossIsExact(events: seq<Event>, i: nat)
    requires i < |After(events).tcbs| && After(events).tcbs[i].passive && After(events).running
    requires After(events).tcbs[i].sent + After(events).tcbs[i].sndbuf == After(events).tcbs[i].queued
    ensures var n, r := After(events), Next(After(events), Out).tcbs[i];
            (r.sent + r.sndbuf == r.queued <==> n.tcbs[i].sndbuf == [] || RoomAt(n, i))
  {
    RunKeeps(events);
    PeerIsKnown(After(events), i);
    PassIsExact(After(events), i);
  }

  /** The output ring has room for every connection that has something to send. */
  predicate Roomy(n: Net, e: Event) {
    e.Out? ==> forall i :: 0 <= i < |n.tcbs| ==> n.tcbs[i].passive && n.tcbs[i].sndbuf != [] ==> RoomAt(n, i)
  }

  predicate RoomyRun(events: seq<Event>) {
    events == [] ||
    (RoomyRun(events[..|events| - 1]) && Roomy(After(events[..|events| - 1]), events[|events| - 1]))
  }

  predicate AllSent(n: Net) {
    forall i :: 0 <= i < |n.tcbs| ==> n.tcbs[i].passive ==> n.tcbs[i].sent == n.tcbs[i].handed
  }

  lemma EstablishedSends(s: Stream, p: Packet)
    ensures var r := HandleEstablished(s, p); r.sent == s.sent && r.handed == s.handed && r.passive == s.passive
  {
  }

  lemma ArrivalSends(n: Net, p: Packet, seed: nat)
    requires AllSent(n)
    ensures AllSent(Process(n, p, seed))
  {
    var i := Search(n.tcbs, p.sip, p.dip, p.sport, p.dport);
    if p.sumOk && i < |n.tcbs| {
      EstablishedSends(n.tcbs[i], p);
    }
  }

  lemma OutPassSends(n: Net)
    requires NetInv(n) && AllSent(n) && Roomy(n, Out)
    ensures AllSent(OutPass(n))
  {
    forall i | 0 <= i < |n.tcbs| && n.tcbs[i].passive
      ensures OutPass(n).tcbs[i].sent == OutPass(n).tcbs[i].handed
    {
      PeerIsKnown(n, i);
      PassOf(n, i);
    }
  }

  lemma SendingSends(n: Net, fd: int, buf: seq<Byte>)
    requires AllSent(n)
    ensures AllSent(NSend(n, fd, buf))
  {
  }

  lemma ReceivingSends(n: Net, fd: int, len: nat)
    requires AllSent(n)
    ensures AllSent(NRecv(n, fd, len))
  {
  }

  lemma ClosingSends(n: Net, fd: int)
    requires AllSent(n)
    ensures AllSent(NClose(n, fd))
  {
  }

  lemma AcceptSends(n: Net, fd: int)
    requires AllSent(n)
    ensures AllSent(NAccept(n, fd))
  {
  }

  lemma RoomyStep(n: Net, e: Event)
    requires NetInv(n) && AllSent(n) && Roomy(n, e)
    ensures AllSent(Next(n, e))
  {
    match e {
      case Arrive(p, seed) => ArrivalSends(ArpInsert(n, p.sip), p, seed);
      case Out => OutPassSends(n);
      case Sending(fd, buf) => SendingSends(n, fd, buf);
      case Receiving(fd, len) => ReceivingSends(n, fd, len);
      case Close(fd) => ClosingSends(n, fd);
      case Accept(fd) => AcceptSends(n, fd);
      case _ =>
    }
  }

  /** When every pass finds room, what a connection sent followed by what is still queued is all
      that was ever queued, in order. */
  lemma {:induction false} NothingIsLost(events: seq<Event>)
    requires RoomyRun(events)
    ensures AllSent(After(events))
    ensures forall i :: 0 <= i < |After(events).tcbs| ==> After(events).tcbs[i].passive ==>
              After(events).tcbs[i].sent + After(events).tcbs[i].sndbuf == After(events).tcbs[i].queued
  {
    if events == [] {
    } else {
      NothingIsLost(events[..|events| - 1]);
      RunKeeps(events[..|events| - 1]);
      RoomyStep(After(events[..|events| - 1]), events[|events| - 1]);
    }
    RunKeeps(events);
    forall i | 0 <= i < |After(events).tcbs| && After(events).tcbs[i].passive
      ensures InOrder(After(events).tcbs[i])
    {
      PeerIsKnown(After(events), i);
    }
  }

  lemma {:induction false} OthersFill(out: seq<OutPacket>, k: nat)
    requires |out| <= RING_ROOM
    ensures |PutOthers(out, k)| == Min(RING_ROOM, |out| + k)
  {
    if k == 0 {
    } else {
      OthersFill(out, k - 1);
    }
  }

  const SYN := Packet(1, 2, 7, 80, 0, 0, Flags(true, false, false, false), [], true)
  const LISTENER := [Socket, Bind(FIRST_FD, 2, 80), Listening(FIRST_FD)]

  lemma ListenerIsUp()
    ensures After(LISTENER) ==
      Net([NewSocket(FIRST_FD).(dip := 2, dport := 80, status := Listen)],
          [], 0, {FIRST_FD}, {SOCKET_RING}, [], [], true)
  {
    assert LISTENER == [] + [Socket] + [Bind(FIRST_FD, 2, 80)] + [Listening(FIRST_FD)];
    AfterStep([], Socket);
    AfterStep([Socket], Bind(FIRST_FD, 2, 80));
    AfterStep([Socket] + [Bind(FIRST_FD, 2, 80)], Listening(FIRST_FD));
  }

  lemma FullPass(n: Net)
    requires n.running && |n.tcbs| == 2 && n.tcbs[0] == Created(SYN, 0) && |n.out| == RING_ROOM
    requires n.arp == [1] && n.arpCount == 1
    ensures var r := Next(n, Out).tcbs;
            && |r| == 2 && r[0].passive && |r[0].queued| == 1 && r[0].sndbuf == [] && r[0].sent == []
  {
    PassOf(n, 0);
  }

  lemma FirstConnects(n: Net)
    requires After(LISTENER) == n
    ensures var r := Next(n, Arrive(SYN, 0));
            && r.running && r.tcbs == [Created(SYN, 0)] + n.tcbs && |n.tcbs| == 1
            && r.arp == [1] && r.arpCount == 1 && r.out == []
  {
    ListenerIsUp();
    NamesDiffer(SYN.sip, SYN.sport);
  }

  /** A run that loses a segment: a client connects while 1023 packets of other parts wait on the
      output ring; the next pass discards its SYN-ACK. */
  lemma FullRingLoses()
    ensures var n := After(LISTENER + [Arrive(SYN, 0)] + [Others(RING_ROOM)] + [Out]);
            && |n.tcbs| == 2 && n.tcbs[0].passive && |n.tcbs[0].queued| == 1
            && n.tcbs[0].sndbuf == [] && n.tcbs[0].sent == []
  {
    var events := LISTENER + [Arrive(SYN, 0)] + [Others(RING_ROOM)];
    FirstConnects(After(LISTENER));
    AfterStep(LISTENER, Arrive(SYN, 0));
    AfterStep(LISTENER + [Arrive(SYN, 0)], Others(RING_ROOM));
    AfterStep(events, Out);
    OthersFill([], RING_ROOM);
    FullPass(After(events));
  }

  // ---------------------------------------------------------------- acknowledgements

  /** rcv_nxt is the client's initial number, plus one, plus everything accepted since, a FIN counting
      one; every segment that was ever queued acknowledges what had been accepted by then, so
      acknowledgements never go back. */
  predicate Acknowledged(s: Stream) {
    && s.rcvNxt == (s.isn + 1 + |s.intended|) % U32
    && OneEofAtEnd(s.intended, s.fins)
    && |s.stamps| == |s.queued|
    && (forall k :: 0 <= k < |s.queued| ==> s.queued[k].acknum == (s.isn + 1 + s.stamps[k]) % U32)
    && (forall k, l :: 0 <= k < l < |s.stamps| ==> s.stamps[k] <= s.stamps[l] <= s.accepted)
  }

  lemma AcksOf(s: Stream)
    requires PassiveInv(s)
    ensures Acknowledged(s)
  {
  }

  /** Acknowledgements, as in section 3.3 of RFC 793, in every run. */
  lemma Acknowledgements(events: seq<Event>, i: nat)
    requires i < |After(events).tcbs| && After(events).tcbs[i].passive
    ensures Acknowledged(After(events).tcbs[i])
  {
    RunKeeps(events);
    assert StreamInv(After(events).tcbs[i]);
    AcksOf(After(events).tcbs[i]);
  }
}

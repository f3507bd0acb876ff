/** What every event of the TCP keeps: of each stream, and of the table. */
module TcpInvariant {
  import opened Bytes
  import opened Tcp

  // ---------------------------------------------------------------- one stream

  /** Bytes, with at most one end of file, which comes last. */
  predicate OneEofAtEnd(ts: seq<Token>, fins: nat) {
    && fins <= 1
    && (forall i :: 0 <= i < |ts| ==> (ts[i] == Eof <==> fins == 1 && i == |ts| - 1))
    && (fins == 1 ==> ts != [])
  }

  /** rcv_nxt counts what was accepted, and so does the ACK of every fragment ever queued. */
  predicate Accounted(s: Stream) {
    && s.rcvNxt == (s.isn + 1 + s.accepted) % U32
    && |s.stamps| == |s.queued| && |s.intended| == s.accepted
    && (forall k :: 0 <= k < |s.queued| ==>
        s.stamps[k] <= s.accepted && s.queued[k].acknum == (s.isn + 1 + s.stamps[k]) % U32)
    && (forall k, l :: 0 <= k < l < |s.stamps| ==> s.stamps[k] <= s.stamps[l])
  }

  predicate BeforeFin(s: Stream) { s.status == SynRcvd || s.status == Established }

  /** `a` is what remains of `b` when some elements are left out. */
  predicate Subsequence(a: seq<Fragment>, b: seq<Fragment>) {
    if a == [] then true
    else if b == [] then false
    else
      || (a[|a| - 1] == b[|b| - 1] && Subsequence(a[..|a| - 1], b[..|b| - 1]))
      || Subsequence(a, b[..|b| - 1])
  }

  /** Fragments are taken from sndbuf in the order in which they entered, and those that find room
      on the output ring stay in that order. */
  predicate InOrder(s: Stream) {
    s.handed + s.sndbuf == s.queued && Subsequence(s.sent, s.handed)
  }

  predicate PassiveInv(s: Stream) {
    && (BeforeFin(s) ==> s.fins == 0)
    && Accounted(s) && InOrder(s) && OneEofAtEnd(s.intended, s.fins)
  }

  /** A stream made by nsocket has no peer and is never in a connection. */
  predicate SocketInv(s: Stream) { !BeforeFin(s) && s.sip == 0 && s.sport == 0 }

  /** Streams are made by a SYN or by nsocket. */
  predicate StreamInv(s: Stream) { if s.passive then PassiveInv(s) else SocketInv(s) }

  lemma AckStep(isn: nat, a: nat, more: nat)
    ensures ((isn + 1 + a) % U32 + more) % U32 == (isn + 1 + (a + more)) % U32
  {
    var x := isn + 1 + a;
    assert x == U32 * (x / U32) + x % U32;
    var y := x % U32 + more;
    assert x + more == U32 * (x / U32) + y;
    assert (x + more) % U32 == y % U32;
  }

  lemma SendKeeps(s: Stream, f: Fragment)
    requires Accounted(s) && InOrder(s) && f.acknum == s.rcvNxt
    ensures Accounted(Send(s, f)) && InOrder(Send(s, f))
  {
    assert s.handed + (s.sndbuf + [f]) == s.handed + s.sndbuf + [f];
  }

  /** The stream after the payload is queued and counted, before the ACK is sent. */
  lemma PushCounts(s: Stream, p: Packet, s2: Stream)
    requires PassiveInv(s) && s.status == Established
    requires s2 == Receive(s, p.payload, DataTokens(p.payload)).(rcvNxt := (s.rcvNxt + |p.payload|) % U32,
                                                                 sndNxt := p.acknum % U32,
                                                                 accepted := s.accepted + |p.payload|)
    ensures Accounted(s2) && InOrder(s2) && OneEofAtEnd(s2.intended, s2.fins)
  {
    AckStep(s.isn, s.accepted, |p.payload|);
    assert s2.intended == s.intended + DataTokens(p.payload);
  }

  lemma AckKeeps(s: Stream, p: Packet)
    requires Accounted(s) && InOrder(s) && OneEofAtEnd(s.intended, s.fins) && (BeforeFin(s) ==> s.fins == 0)
    ensures PassiveInv(Send(s, AckFragment(s, p))) && Send(s, AckFragment(s, p)).status == s.status
  {
    SendKeeps(s, AckFragment(s, p));
  }

  lemma PushKeeps(s: Stream, p: Packet)
    requires PassiveInv(s) && s.status == Established
    ensures PassiveInv(HandlePush(s, p)) && HandlePush(s, p).status == Established
  {
    var s2 := Receive(s, p.payload, DataTokens(p.payload)).(rcvNxt := (s.rcvNxt + |p.payload|) % U32,
                                                            sndNxt := p.acknum % U32,
                                                            accepted := s.accepted + |p.payload|);
    PushCounts(s, p, s2);
    AckKeeps(s2, p);
  }

  /** The same for the end of file and the number that a FIN takes. */
  lemma FinCounts(s: Stream, p: Packet, s2: Stream)
    requires PassiveInv(s) && s.status == Established
    requires s2 == Receive(s.(status := CloseWait), [], [Eof]).(rcvNxt := (s.rcvNxt + 1) % U32,
                                                                sndNxt := p.acknum % U32,
                                                                accepted := s.accepted + 1, fins := s.fins + 1)
    ensures Accounted(s2) && InOrder(s2) && OneEofAtEnd(s2.intended, 1)
  {
    AckStep(s.isn, s.accepted, 1);
    assert s2.intended == s.intended + [Eof];
  }

  lemma FinKeeps(s: Stream, p: Packet)
    requires PassiveInv(s) && s.status == Established
    ensures PassiveInv(HandleFin(s, p)) && HandleFin(s, p).fins == 1
  {
    var s2 := Receive(s.(status := CloseWait), [], [Eof]).(rcvNxt := (s.rcvNxt + 1) % U32,
                                                            sndNxt := p.acknum % U32,
                                                            accepted := s.accepted + 1, fins := s.fins + 1);
    FinCounts(s, p, s2);
    AckKeeps(s2, p);
  }

  lemma EstablishedKeeps(s: Stream, p: Packet)
    requires PassiveInv(s) && s.status == Established
    ensures PassiveInv(HandleEstablished(s, p))
  {
    PushKeeps(s, p);
    FinKeeps(if p.flags.psh then HandlePush(s, p) else s, p);
  }

  lemma CreatedKeeps(p: Packet, seed: nat)
    ensures PassiveInv(Created(p, seed)) && Created(p, seed).passive
  {
    assert [] + Created(p, seed).sndbuf == Created(p, seed).queued;
  }

  lemma CloseKeeps(s: Stream)
    requires PassiveInv(s)
    ensures PassiveInv(CloseStream(s))
  {
    SendKeeps(s, Fragment(s.dport, s.sport, s.sndNxt, s.rcvNxt, Flags(false, true, false, true), []));
  }

  lemma SubsequenceStep(a: seq<Fragment>, b: seq<Fragment>, f: Fragment)
    requires Subsequence(a, b)
    ensures Subsequence(a + [f], b + [f]) && Subsequence(a, b + [f])
  {
    assert (a + [f])[..|a|] == a && (b + [f])[..|b|] == b;
  }

  lemma HeadMoves(a: seq<Fragment>, b: seq<Fragment>)
    requires b != []
    ensures a + b == a + [b[0]] + b[1..]
  {
  }

  lemma OutTurnInOrder(s: Stream, arp: seq<nat>, count: nat, out: seq<OutPacket>)
    requires InOrder(s) && ArpFind(arp, count, s.sip)
    ensures InOrder(OutTurn(s, arp, count, out).0)
  {
    if s.sndbuf != [] {
      SubsequenceStep(s.sent, s.handed, s.sndbuf[0]);
      HeadMoves(s.handed, s.sndbuf);
    }
  }

  lemma OutTurnKeeps(s: Stream, arp: seq<nat>, count: nat, out: seq<OutPacket>)
    requires PassiveInv(s) && ArpFind(arp, count, s.sip)
    ensures PassiveInv(OutTurn(s, arp, count, out).0)
  {
    OutTurnInOrder(s, arp, count, out);
    var r := OutTurn(s, arp, count, out).0;
    assert r == s.(sndbuf := r.sndbuf, handed := r.handed, sent := r.sent);
  }

  // ---------------------------------------------------------------- the table, in every run

  predicate Known(s: Stream, arp: seq<nat>) { s.passive ==> s.sip in arp }

  predicate NetInv(n: Net) {
    && n.arpCount == |n.arp| && |n.out| <= RING_ROOM
    && (forall i :: 0 <= i < |n.tcbs| ==> StreamInv(n.tcbs[i]) && Known(n.tcbs[i], n.arp))
  }

  lemma {:induction false} ArpFindIs(arp: seq<nat>, ip: nat)
    ensures ArpFind(arp, |arp|, ip) <==> ip in arp
  {
    if arp == [] {
    } else {
      ArpFindIs(arp[1..], ip);
    }
  }

  lemma ArpKeeps(n: Net, ip: nat)
    requires NetInv(n)
    ensures NetInv(ArpInsert(n, ip)) && ip in ArpInsert(n, ip).arp && ArpInsert(n, ip).tcbs == n.tcbs
    ensures forall a :: a in n.arp ==> a in ArpInsert(n, ip).arp
  {
    ArpFindIs(n.arp, ip);
  }

  lemma ReplaceKeeps(n: Net, i: nat, s: Stream)
    requires NetInv(n) && i < |n.tcbs| && StreamInv(s)
    requires s.passive ==> n.tcbs[i].passive && s.sip == n.tcbs[i].sip
    ensures NetInv(n.(tcbs := n.tcbs[i := s]))
  {
  }

  lemma WithoutKeeps(n: Net, i: nat)
    requires NetInv(n) && i < |n.tcbs|
    ensures NetInv(n.(tcbs := Without(n.tcbs, i)))
  {
    var r := Without(n.tcbs, i);
    forall k | 0 <= k < |r| ensures r[k] == n.tcbs[if k < i then k else k + 1] {
    }
  }

  lemma PrependKeeps(n: Net, s: Stream)
    requires NetInv(n) && StreamInv(s) && Known(s, n.arp)
    ensures NetInv(n.(tcbs := [s] + n.tcbs))
  {
    var r := [s] + n.tcbs;
    forall k | 0 < k < |r| ensures r[k] == n.tcbs[k - 1] {
    }
  }

  lemma HandshakeKeeps(n: Net, i: nat)
    requires NetInv(n) && i < |n.tcbs| && n.tcbs[i].status == SynRcvd
    ensures NetInv(n.(tcbs := n.tcbs[i := n.tcbs[i].(status := Status.Established)]))
  {
    assert StreamInv(n.tcbs[i]);
    ReplaceKeeps(n, i, n.tcbs[i].(status := Status.Established));
  }

  lemma SegmentKeeps(n: Net, i: nat, p: Packet)
    requires NetInv(n) && i < |n.tcbs| && n.tcbs[i].status == Status.Established
    ensures NetInv(n.(tcbs := n.tcbs[i := HandleEstablished(n.tcbs[i], p)]))
  {
    assert StreamInv(n.tcbs[i]);
    EstablishedKeeps(n.tcbs[i], p);
    ReplaceKeeps(n, i, HandleEstablished(n.tcbs[i], p));
  }

  lemma ProcessKeeps(n: Net, p: Packet, seed: nat)
    requires NetInv(n) && p.sip in n.arp
    ensures NetInv(Process(n, p, seed))
  {
    var i := Search(n.tcbs, p.sip, p.dip, p.sport, p.dport);
    if p.sumOk && i < |n.tcbs| {
      match n.tcbs[i].status {
        case Listen =>
          CreatedKeeps(p, seed);
          PrependKeeps(n.(rings := n.rings + {RingName(p.sip, p.sport)}), Created(p, seed));
        case SynRcvd => HandshakeKeeps(n, i);
        case Established => SegmentKeeps(n, i, p);
        case LastAck => WithoutKeeps(n.(rings := n.rings - {NameOf(n.tcbs[i])}), i);
        case CloseWait =>
        case Closed =>
      }
    }
  }

  lemma {:induction false} OutRingBounded(tcbs: seq<Stream>, arp: seq<nat>, count: nat, out: seq<OutPacket>)
    requires |out| <= RING_ROOM
    ensures |OutRing(tcbs, arp, count, out)| <= RING_ROOM
  {
    if tcbs == [] {
    } else {
      OutRingBounded(tcbs[..|tcbs| - 1], arp, count, out);
    }
  }

  lemma {:induction false} OthersBounded(out: seq<OutPacket>, k: nat)
    requires |out| <= RING_ROOM
    ensures |PutOthers(out, k)| <= RING_ROOM
  {
    if k == 0 {
    } else {
      OthersBounded(out, k - 1);
    }
  }

  lemma OutPassKeeps(n: Net)
    requires NetInv(n)
    ensures NetInv(OutPass(n))
  {
    var r := OutPass(n);
    OutRingBounded(n.tcbs, n.arp, n.arpCount, n.out);
    forall i | 0 <= i < |n.tcbs|
      ensures StreamInv(r.tcbs[i]) && Known(r.tcbs[i], r.arp)
    {
      assert StreamInv(n.tcbs[i]) && Known(n.tcbs[i], n.arp);
      if n.tcbs[i].passive {
        ArpFindIs(n.arp, n.tcbs[i].sip);
        OutTurnKeeps(n.tcbs[i], n.arp, n.arpCount, OutRing(n.tcbs[..i], n.arp, n.arpCount, n.out));
      }
    }
  }

  lemma SendingKeeps(n: Net, fd: int, buf: seq<Byte>)
    requires NetInv(n)
    ensures NetInv(NSend(n, fd, buf))
  {
    var i := FromFd(n.tcbs, fd);
    if i < |n.tcbs| {
      var s := n.tcbs[i];
      assert StreamInv(s);
      var f := Fragment(s.dport, s.sport, s.sndNxt, s.rcvNxt, Flags(false, true, true, false), buf);
      if s.passive {
        SendKeeps(s, f);
      }
      ReplaceKeeps(n, i, Send(s, f));
    }
  }

  lemma ReceivingKeeps(n: Net, fd: int, len: nat)
    requires NetInv(n)
    ensures NetInv(NRecv(n, fd, len))
  {
    var i := FromFd(n.tcbs, fd);
    if i < |n.tcbs| && n.tcbs[i].rcvbuf != [] {
      assert StreamInv(n.tcbs[i]);
      ReplaceKeeps(n, i, RecvStream(n.tcbs[i], len));
    }
  }

  lemma ClosingKeeps(n: Net, fd: int)
    requires NetInv(n)
    ensures NetInv(NClose(n, fd))
  {
    var i := FromFd(n.tcbs, fd);
    if i < |n.tcbs| {
      var s := n.tcbs[i];
      assert StreamInv(s);
      if s.status == Listen {
        WithoutKeeps(n, i);
      } else {
        if s.passive {
          CloseKeeps(s);
        }
        ReplaceKeeps(n, i, CloseStream(s));
      }
    }
  }

  lemma SocketKeeps(n: Net)
    requires NetInv(n)
    ensures NetInv(NSocket(n))
  {
    PrependKeeps(n, NewSocket(FreeFd(n.fds, FIRST_FD)));
  }

  lemma BindKeeps(n: Net, fd: int, ip: nat, port: nat)
    requires NetInv(n)
    ensures NetInv(NBind(n, fd, ip, port))
  {
    var i := FromFd(n.tcbs, fd);
    if i < |n.tcbs| {
      assert StreamInv(n.tcbs[i]);
      ReplaceKeeps(n, i, n.tcbs[i].(dport := port, dip := ip, status := Closed));
    }
  }

  lemma ListeningKeeps(n: Net, fd: int)
    requires NetInv(n)
    ensures NetInv(NListen(n, fd))
  {
    var i := FromFd(n.tcbs, fd);
    if i < |n.tcbs| {
      assert StreamInv(n.tcbs[i]);
      ReplaceKeeps(n, i, n.tcbs[i].(status := Listen));
    }
  }

  lemma AcceptKeeps(n: Net, fd: int)
    requires NetInv(n)
    ensures NetInv(NAccept(n, fd))
  {
    var i := FromFd(n.tcbs, fd);
    if i < |n.tcbs| {
      var a := Acceptable(n.tcbs, n.tcbs[i].dport);
      if a < |n.tcbs| {
        assert StreamInv(n.tcbs[a]);
        ReplaceKeeps(n, a, n.tcbs[a].(fd := FreeFd(n.fds, FIRST_FD)));
      }
    }
  }

  lemma NextKeeps(n: Net, e: Event)
    requires NetInv(n)
    ensures NetInv(Next(n, e))
    ensures forall a :: a in n.arp ==> a in Next(n, e).arp
  {
    match e {
      case Arrive(p, seed) =>
        ArpKeeps(n, p.sip);
        ProcessKeeps(ArpInsert(n, p.sip), p, seed);
      case Other(sip) => ArpKeeps(n, sip);
      case Out => OutPassKeeps(n);
      case Others(k) => OthersBounded(n.out, k);
      case Drain =>
      case Sending(fd, buf) => SendingKeeps(n, fd, buf);
      case Receiving(fd, len) => ReceivingKeeps(n, fd, len);
      case Close(fd) => ClosingKeeps(n, fd);
      case Socket => SocketKeeps(n);
      case Bind(fd, ip, port) => BindKeeps(n, fd, ip, port);
      case Listening(fd) => ListeningKeeps(n, fd);
      case Accept(fd) => AcceptKeeps(n, fd);
    }
  }

  /** Every run keeps it, whatever arrives and whatever the application calls. */
  lemma {:induction false} RunKeeps(events: seq<Event>)
    ensures NetInv(After(events))
  {
    if events == [] {
    } else {
      RunKeeps(events[..|events| - 1]);
      NextKeeps(After(events[..|events| - 1]), events[|events| - 1]);
    }
  }
}

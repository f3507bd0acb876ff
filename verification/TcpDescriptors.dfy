/** Which stream a call with a descriptor reaches. */
module TcpDescriptors {
  import opened Bytes
  import opened Tcp
  import opened TcpTheorems
  import opened TcpDemux

  /** The application does not bind, listen on or close what it has closed. */
  predicate Tidy(n: Net, e: Event) {
    e.Bind? || e.Listening? || e.Close? ==>
      var i := FromFd(n.tcbs, e.fd);
      i < |n.tcbs| ==> n.tcbs[i].status != LastAck
  }

  predicate TidyRun(events: seq<Event>) {
    events == [] ||
    (TidyRun(events[..|events| - 1]) && Tidy(After(events[..|events| - 1]), events[|events| - 1]))
  }

  predicate Holds(s: Stream, fds: set<nat>) {
    s.fd < 0 || s.fd in fds || s.status == LastAck
  }

  predicate Differ(s: Stream, t: Stream) {
    s.fd < 0 || s.fd != t.fd || s.status == LastAck || t.status == LastAck
  }

  /** The descriptors of the streams that were not closed are marked and different. */
  predicate Held(n: Net) {
    && (forall i :: 0 <= i < |n.tcbs| ==> Holds(n.tcbs[i], n.fds))
    && (forall i, j :: 0 <= i < j < |n.tcbs| ==> Differ(n.tcbs[i], n.tcbs[j]))
  }

  // ---------------------------------------------------------------- events keep them apart

  lemma ReplaceHeld(n: Net, i: nat, s: Stream)
    requires Held(n) && i < |n.tcbs| && s.fd == n.tcbs[i].fd && (n.tcbs[i].status == LastAck ==> s.status == LastAck)
    ensures Held(n.(tcbs := n.tcbs[i := s]))
  {
    var r := n.tcbs[i := s];
    forall k, l | 0 <= k < l < |r| ensures Differ(r[k], r[l]) {
      assert Differ(n.tcbs[k], n.tcbs[l]);
    }
  }

  lemma WithoutHeld(n: Net, i: nat)
    requires Held(n) && i < |n.tcbs|
    ensures Held(n.(tcbs := Without(n.tcbs, i)))
  {
    var r := Without(n.tcbs, i);
    forall k | 0 <= k < |r| ensures r[k] == n.tcbs[if k < i then k else k + 1] {
    }
  }

  /** A descriptor that is not marked belongs to closed streams only. */
  lemma FreshDiffers(n: Net, fd: int, k: nat)
    requires Held(n) && k < |n.tcbs| && (fd < 0 || fd !in n.fds)
    ensures fd < 0 || n.tcbs[k].fd != fd || n.tcbs[k].status == LastAck
  {
    assert Holds(n.tcbs[k], n.fds);
  }

  lemma PrependHeld(n: Net, s: Stream)
    requires Held(n) && (s.fd < 0 || s.fd !in n.fds)
    ensures Held(n.(tcbs := [s] + n.tcbs, fds := if s.fd >= 0 then n.fds + {s.fd} else n.fds))
  {
    var r := [s] + n.tcbs;
    forall k | 0 < k < |r| ensures r[k] == n.tcbs[k - 1] && Differ(s, r[k]) {
      FreshDiffers(n, s.fd, k - 1);
    }
  }

  lemma MoreHeld(n: Net, fd: nat)
    requires Held(n)
    ensures Held(n.(fds := n.fds + {fd}))
  {
    forall i | 0 <= i < |n.tcbs| ensures Holds(n.tcbs[i], n.fds + {fd}) {
      assert Holds(n.tcbs[i], n.fds);
    }
  }

  lemma SocketHeld(n: Net)
    requires Held(n)
    ensures Held(NSocket(n))
  {
    var fd := FreeFd(n.fds, FIRST_FD);
    LeastFree(n.fds, FIRST_FD);
    PrependHeld(n, NewSocket(fd));
    if fd >= 0 {
      MoreHeld(n, fd);
    }
  }

  lemma GiveHeld(n: Net, a: nat, fd: int)
    requires Held(n) && a < |n.tcbs| && (fd < 0 || fd !in n.fds)
    ensures Held(n.(tcbs := n.tcbs[a := n.tcbs[a].(fd := fd)], fds := if fd >= 0 then n.fds + {fd} else n.fds))
  {
    var r := n.tcbs[a := n.tcbs[a].(fd := fd)];
    forall k | 0 <= k < |r| ensures Holds(r[k], if fd >= 0 then n.fds + {fd} else n.fds) {
      assert Holds(n.tcbs[k], n.fds);
    }
    forall k, l | 0 <= k < l < |r| ensures Differ(r[k], r[l]) {
      assert Differ(n.tcbs[k], n.tcbs[l]);
      FreshDiffers(n, fd, k);
      FreshDiffers(n, fd, l);
    }
  }

  lemma AcceptHeld(n: Net, fd: int)
    requires Held(n)
    ensures Held(NAccept(n, fd))
  {
    var i := FromFd(n.tcbs, fd);
    LeastFree(n.fds, FIRST_FD);
    if i < |n.tcbs| && Acceptable(n.tcbs, n.tcbs[i].dport) < |n.tcbs| {
      GiveHeld(n, Acceptable(n.tcbs, n.tcbs[i].dport), FreeFd(n.fds, FIRST_FD));
    }
  }

  lemma ShutHeld(n: Net, i: nat, s: Stream)
    requires Held(n) && i < |n.tcbs| && n.tcbs[i].status != LastAck && s.status == LastAck && s.fd == n.tcbs[i].fd
    ensures Held(n.(tcbs := n.tcbs[i := s], fds := if s.fd >= 0 then n.fds - {s.fd} else n.fds))
  {
    var r := n.tcbs[i := s];
    forall k | 0 <= k < |r| ensures Holds(r[k], if s.fd >= 0 then n.fds - {s.fd} else n.fds) {
      assert Holds(n.tcbs[k], n.fds);
      assert k < i ==> Differ(n.tcbs[k], n.tcbs[i]);
      assert i < k ==> Differ(n.tcbs[i], n.tcbs[k]);
    }
    forall k, l | 0 <= k < l < |r| ensures Differ(r[k], r[l]) {
      assert Differ(n.tcbs[k], n.tcbs[l]);
    }
  }

  lemma CloseHeld(n: Net, fd: int)
    requires Held(n) && Tidy(n, Close(fd))
    ensures Held(NClose(n, fd))
  {
    var i := FromFd(n.tcbs, fd);
    if i < |n.tcbs| {
      if n.tcbs[i].status == Listen {
        WithoutHeld(n, i);
      } else {
        ShutHeld(n, i, CloseStream(n.tcbs[i]));
      }
    }
  }

  lemma ArrivalHeld(n: Net, p: Packet, seed: nat)
    requires Held(n)
    ensures Held(Process(n, p, seed))
  {
    var i := Search(n.tcbs, p.sip, p.dip, p.sport, p.dport);
    if p.sumOk && i < |n.tcbs| {
      match n.tcbs[i].status {
        case Listen => PrependHeld(n, Created(p, seed));
        case SynRcvd => ReplaceHeld(n, i, n.tcbs[i].(status := Status.Established));
        case Established => ReplaceHeld(n, i, HandleEstablished(n.tcbs[i], p));
        case LastAck => WithoutHeld(n, i);
        case CloseWait =>
        case Closed =>
      }
    }
  }

  lemma OutHeld(n: Net)
    requires Held(n)
    ensures Held(OutPass(n))
  {
    var r := OutPass(n).tcbs;
    forall k | 0 <= k < |r| ensures r[k].fd == n.tcbs[k].fd && r[k].status == n.tcbs[k].status && Holds(r[k], n.fds) {
      assert Holds(n.tcbs[k], n.fds);
    }
    forall k, l | 0 <= k < l < |r| ensures Differ(r[k], r[l]) {
      assert Differ(n.tcbs[k], n.tcbs[l]);
    }
  }

  lemma CallHeld(n: Net, e: Event)
    requires Held(n) && Tidy(n, e) && (e.Bind? || e.Listening? || e.Sending? || e.Receiving?)
    ensures Held(Next(n, e))
  {
    var i := FromFd(n.tcbs, e.fd);
    if n.running && i < |n.tcbs| {
      ReplaceHeld(n, i, Next(n, e).tcbs[i]);
    }
  }

  lemma NextHeld(n: Net, e: Event)
    requires Held(n) && Tidy(n, e)
    ensures Held(Next(n, e))
  {
    match e {
      case Arrive(p, seed) => ArrivalHeld(ArpInsert(n, p.sip), p, seed);
      case Out => OutHeld(n);
      case Socket => SocketHeld(n);
      case Accept(fd) => AcceptHeld(n, fd);
      case Close(fd) => CloseHeld(n, fd);
      case Other(_) =>
      case Others(_) =>
      case Drain =>
      case _ => CallHeld(n, e);
    }
  }

  lemma {:induction false} RunHeld(events: seq<Event>)
    requires TidyRun(events)
    ensures Held(After(events))
  {
    if events == [] {
    } else {
      RunHeld(events[..|events| - 1]);
      NextHeld(After(events[..|events| - 1]), events[|events| - 1]);
    }
  }

  // ---------------------------------------------------------------- main results

  /** In every tidy run no two streams that were not closed have the same descriptor, and a call with
      the descriptor of such a stream reaches it exactly when no closed stream that still has the
      same descriptor stands before it: nclose frees the descriptor and leaves it on the stream. */
  lemma CallsAreExact(events: seq<Event>, i: nat)
    requires TidyRun(events)
    requires var n := After(events); i < |n.tcbs| && n.tcbs[i].fd >= 0 && n.tcbs[i].status != LastAck
    ensures var n := After(events);
      && n.tcbs[i].fd in n.fds
      && (forall j :: 0 <= j < |n.tcbs| && j != i && n.tcbs[j].fd == n.tcbs[i].fd ==> n.tcbs[j].status == LastAck)
      && (FromFd(n.tcbs, n.tcbs[i].fd) == i <==>
          forall j :: 0 <= j < i && n.tcbs[j].status == LastAck ==> n.tcbs[j].fd != n.tcbs[i].fd)
  {
    RunHeld(events);
    var n := After(events);
    assert Holds(n.tcbs[i], n.fds);
    forall j | 0 <= j < |n.tcbs| && j != i && n.tcbs[j].fd == n.tcbs[i].fd ensures n.tcbs[j].status == LastAck {
      assert if j < i then Differ(n.tcbs[j], n.tcbs[i]) else Differ(n.tcbs[i], n.tcbs[j]);
    }
  }

  /** naccept: the first connection of the port without a descriptor gets the least free one, and a
      call with it reaches this connection exactly when no stream before it still has that number. */
  lemma AcceptedIsReached(n: Net, fd: int)
    requires n.running && FromFd(n.tcbs, fd) < |n.tcbs| && FreeFd(n.fds, FIRST_FD) >= 0
    requires Acceptable(n.tcbs, n.tcbs[FromFd(n.tcbs, fd)].dport) < |n.tcbs|
    ensures var got, a := FreeFd(n.fds, FIRST_FD), Acceptable(n.tcbs, n.tcbs[FromFd(n.tcbs, fd)].dport);
      var r := Next(n, Accept(fd));
      && r.tcbs[a] == n.tcbs[a].(fd := got) && n.tcbs[a].fd == -1 && got !in n.fds
      && (FromFd(r.tcbs, got) == a <==> forall j :: 0 <= j < a ==> n.tcbs[j].fd != got)
  {
    LeastFree(n.fds, FIRST_FD);
    var got, a := FreeFd(n.fds, FIRST_FD), Acceptable(n.tcbs, n.tcbs[FromFd(n.tcbs, fd)].dport);
    var r := Next(n, Accept(fd));
    var k := FromFd(r.tcbs, got);
    assert r.tcbs[a].fd == got;
    if k < a {
      assert n.tcbs[k].fd == got;
    }
    assert forall j :: 0 <= j < a ==> r.tcbs[j] == n.tcbs[j];
  }

  const LATER := SynFrom(5, 9, 80)  // a second client

  /** The listener of LISTENER. */
  const FIRST := NewSocket(FIRST_FD).(dip := 2, dport := 80, status := Listen)

  lemma OtherName()
    ensures RingName(5, 9) != RingName(1, 7)
  {
    assert Hex(1) == "1" && Hex(5) == "5";
    assert RingName(5, 9)[6] != RingName(1, 7)[6];
  }

  lemma LaterIsServed(n: Net, c: Stream, l: Stream)
    requires n.running && n.tcbs == [c, l] && c.sip == 1 && c.status == SynRcvd
    requires l.sip == 0 && l.dport == 80 && l.status == Listen && n.rings == {SOCKET_RING, RingName(1, 7)}
    ensures Next(n, Arrive(LATER, 0)).tcbs == [Created(LATER, 0), c, l] && Next(n, Arrive(LATER, 0)).running
    ensures Next(n, Arrive(LATER, 0)).fds == n.fds
  {
    assert n.tcbs[1..] == [l] && n.tcbs[1..][1..] == [];
    assert ExactFrom(n.tcbs, 5, 2, 9, 80) == 1 + ExactFrom([l], 5, 2, 9, 80) == 2;
    assert ListenerFrom(n.tcbs, 80) == 1 + ListenerFrom([l], 80) == 1;
    OtherName();
    NamesDiffer(5, 9);
    SynIsServed(n, LATER, 0);
  }

  lemma TwoConnections()
    ensures var n := After(LISTENER + [Arrive(SYN, 0)] + [Arrive(LATER, 0)]);
      && n.running && n.fds == {FIRST_FD}
      && n.tcbs == [Created(LATER, 0), Created(SYN, 0), FIRST]
  {
    var one := LISTENER + [Arrive(SYN, 0)];
    ListenerIsUp();
    FirstIsServed(SYN);
    AfterStep(LISTENER, Arrive(SYN, 0));
    AfterStep(one, Arrive(LATER, 0));
    assert After(one).tcbs == [Created(SYN, 0), FIRST];
    LaterIsServed(After(one), Created(SYN, 0), FIRST);
  }

  /** The newer of the two connections is accepted. */
  lemma NewerAccepted(n: Net, d: Stream, c: Stream, l: Stream)
    requires n.running && n.fds == {FIRST_FD} && n.tcbs == [d, c, l]
    requires d.fd == -1 && c.fd == -1 && l.fd == FIRST_FD && d.dport == l.dport
    ensures var r := Next(n, Accept(FIRST_FD)); r.tcbs == [d.(fd := 4), c, l] && r.fds == {FIRST_FD, 4} && r.running
  {
    assert n.tcbs[2].fd == FIRST_FD && FromFd(n.tcbs, FIRST_FD) == 2;
    LeastFree(n.fds, FIRST_FD);
  }

  lemma NewerClosed(n: Net, d: Stream, c: Stream, l: Stream)
    requires n.running && n.fds == {FIRST_FD, 4} && n.tcbs == [d, c, l] && d.fd == 4 && d.status == SynRcvd
    ensures var r := Next(n, Close(4)); r.tcbs == [CloseStream(d), c, l] && r.fds == {FIRST_FD} && r.running
  {
    assert FromFd(n.tcbs, 4) == 0;
  }

  lemma OlderAccepted(n: Net, d: Stream, c: Stream, l: Stream)
    requires n.running && n.fds == {FIRST_FD} && n.tcbs == [d, c, l]
    requires d.fd == 4 && c.fd == -1 && l.fd == FIRST_FD && c.dport == l.dport
    ensures var r := Next(n, Accept(FIRST_FD)); r.tcbs == [d, c.(fd := 4), l] && r.running
  {
    assert n.tcbs[1..] == [c, l] && n.tcbs[1..][1..] == [l];
    assert FromFd(n.tcbs, FIRST_FD) == 2 && Acceptable(n.tcbs, l.dport) == 1;
    LeastFree(n.fds, FIRST_FD);
  }

  lemma SentToClosed(n: Net, d: Stream, c: Stream, l: Stream, buf: seq<Byte>)
    requires n.running && n.tcbs == [d, c, l] && d.fd == 4 && |d.sndbuf| < RING_ROOM
    ensures var r := Next(n, Sending(4, buf));
      && |r.tcbs| == 3 && r.tcbs[1] == c && r.tcbs[2] == l
      && |r.tcbs[0].queued| == |d.queued| + 1 && r.tcbs[0].queued[|d.queued|].data == buf
  {
    assert FromFd(n.tcbs, 4) == 0;
  }

  /** So a descriptor can name the wrong connection: of two connections the newer is accepted and
      closed, and the older is accepted before the client's last ACK and gets the same number; the
      bytes that the application sends it are queued for the closed one. */
  lemma ReusedDescriptor(buf: seq<Byte>)
    ensures var events := LISTENER + [Arrive(SYN, 0)] + [Arrive(LATER, 0)]
                          + [Accept(FIRST_FD)] + [Close(4)] + [Accept(FIRST_FD)];
      var n, n' := After(events), After(events + [Sending(4, buf)]);
      && |n.tcbs| == |n'.tcbs| == 3 && n.tcbs[0].status == LastAck && n.tcbs[1] == Created(SYN, 0).(fd := 4)
      && n'.tcbs[1] == n.tcbs[1] && n'.tcbs[2] == n.tcbs[2]
      && |n'.tcbs[0].queued| == |n.tcbs[0].queued| + 1 && n'.tcbs[0].queued[|n.tcbs[0].queued|].data == buf
  {
    var two := LISTENER + [Arrive(SYN, 0)] + [Arrive(LATER, 0)];
    var three := two + [Accept(FIRST_FD)];
    var four := three + [Close(4)];
    TwoConnections();
    ListenerIsUp();
    var c, d, l := Created(SYN, 0), Created(LATER, 0).(fd := 4), FIRST;
    AfterStep(two, Accept(FIRST_FD));
    NewerAccepted(After(two), Created(LATER, 0), c, l);
    AfterStep(three, Close(4));
    NewerClosed(After(three), d, c, l);
    AfterStep(four, Accept(FIRST_FD));
    OlderAccepted(After(four), CloseStream(d), c, l);
    AfterStep(four + [Accept(FIRST_FD)], Sending(4, buf));
    SentToClosed(After(four + [Accept(FIRST_FD)]), CloseStream(d), c.(fd := 4), l, buf);
  }
}

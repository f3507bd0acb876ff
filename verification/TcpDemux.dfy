/** Which connection a segment reaches. */
module TcpDemux {
  import opened Bytes
  import opened Tcp
  import opened TcpInvariant
  import opened TcpTheorems

  predicate SameTuple(s: Stream, t: Stream) {
    s.sip == t.sip && s.dip == t.dip && s.sport == t.sport && s.dport == t.dport
  }

  /** Every stream has rings of its own.  Names of rings that were not freed stay in use. */
  predicate Named(n: Net) {
    && (forall i :: 0 <= i < |n.tcbs| ==> NameOf(n.tcbs[i]) in n.rings)
    && (forall i, j :: 0 <= i < j < |n.tcbs| ==> NameOf(n.tcbs[i]) != NameOf(n.tcbs[j]))
  }

  // ---------------------------------------------------------------- events keep the names apart

  lemma ReplaceNamed(n: Net, i: nat, s: Stream)
    requires Named(n) && i < |n.tcbs| && NameOf(s) == NameOf(n.tcbs[i])
    ensures Named(n.(tcbs := n.tcbs[i := s]))
  {
  }

  lemma PrependNamed(n: Net, s: Stream)
    requires Named(n) && NameOf(s) !in n.rings
    ensures Named(n.(tcbs := [s] + n.tcbs, rings := n.rings + {NameOf(s)}))
  {
    var r := [s] + n.tcbs;
    forall k | 0 < k < |r| ensures r[k] == n.tcbs[k - 1] {
    }
  }

  lemma WithoutNamed(n: Net, i: nat, freed: set<string>)
    requires Named(n) && i < |n.tcbs| && freed <= {NameOf(n.tcbs[i])}
    ensures Named(n.(tcbs := Without(n.tcbs, i), rings := n.rings - freed))
  {
    var r := Without(n.tcbs, i);
    forall k | 0 <= k < |r|
      ensures r[k] == n.tcbs[if k < i then k else k + 1] && NameOf(r[k]) != NameOf(n.tcbs[i])
    {
    }
  }

  lemma ProcessNamed(n: Net, p: Packet, seed: nat)
    requires Named(n)
    ensures Named(Process(n, p, seed))
  {
    var i := Search(n.tcbs, p.sip, p.dip, p.sport, p.dport);
    if p.sumOk && i < |n.tcbs| {
      match n.tcbs[i].status {
        case Listen => if RingName(p.sip, p.sport) !in n.rings { PrependNamed(n, Created(p, seed)); }
        case SynRcvd => ReplaceNamed(n, i, n.tcbs[i].(status := Status.Established));
        case Established => ReplaceNamed(n, i, HandleEstablished(n.tcbs[i], p));
        case LastAck => WithoutNamed(n, i, {NameOf(n.tcbs[i])});
        case CloseWait =>
        case Closed =>
      }
    }
  }

  lemma SocketNamed(n: Net)
    requires Named(n)
    ensures Named(NSocket(n))
  {
    if SOCKET_RING !in n.rings {
      PrependNamed(n, NewSocket(FreeFd(n.fds, FIRST_FD)));
    }
  }

  lemma CloseNamed(n: Net, fd: int)
    requires Named(n)
    ensures Named(NClose(n, fd))
  {
    var i := FromFd(n.tcbs, fd);
    if i < |n.tcbs| {
      if n.tcbs[i].status == Listen {
        WithoutNamed(n, i, {});
        assert n.rings - {} == n.rings;
      } else {
        ReplaceNamed(n, i, CloseStream(n.tcbs[i]));
      }
    }
  }

  lemma OutNamed(n: Net)
    requires Named(n)
    ensures Named(OutPass(n))
  {
    forall i | 0 <= i < |n.tcbs| ensures NameOf(OutPass(n).tcbs[i]) == NameOf(n.tcbs[i]) {
    }
  }

  lemma AcceptNamed(n: Net, fd: int)
    requires Named(n)
    ensures Named(NAccept(n, fd))
  {
    var i := FromFd(n.tcbs, fd);
    if i < |n.tcbs| {
      var a := Acceptable(n.tcbs, n.tcbs[i].dport);
      if a < |n.tcbs| {
        ReplaceNamed(n, a, n.tcbs[a].(fd := FreeFd(n.fds, FIRST_FD)));
      }
    }
  }

  /** nbind, nlisten, nsend and nrecv change one stream and leave its peer alone. */
  lemma UpdateNamed(n: Net, e: Event)
    requires Named(n) && (e.Bind? || e.Listening? || e.Sending? || e.Receiving?)
    ensures Named(Next(n, e))
  {
    var i := FromFd(n.tcbs, e.fd);
    if i < |n.tcbs| && n.running {
      var r := Next(n, e).tcbs[i];
      assert Next(n, e) == n.(tcbs := n.tcbs[i := r]) && NameOf(r) == NameOf(n.tcbs[i]);
      ReplaceNamed(n, i, r);
    }
  }

  lemma NextNamed(n: Net, e: Event)
    requires Named(n)
    ensures Named(Next(n, e))
  {
    match e {
      case Arrive(p, seed) => ProcessNamed(ArpInsert(n, p.sip), p, seed);
      case Other(_) =>
      case Others(_) =>
      case Drain =>
      case Out => OutNamed(n);
      case Socket => SocketNamed(n);
      case Accept(fd) => AcceptNamed(n, fd);
      case Close(fd) => CloseNamed(n, fd);
      case _ => UpdateNamed(n, e);
    }
  }

  lemma {:induction false} RunNamed(events: seq<Event>)
    ensures Named(After(events))
  {
    if events == [] {
    } else {
      RunNamed(events[..|events| - 1]);
      NextNamed(After(events[..|events| - 1]), events[|events| - 1]);
    }
  }

  // ---------------------------------------------------------------- main results

  /** In every run no two connections have the same peer address and port, whatever the application
      binds and listens on, and there is at most one socket that is no connection. */
  lemma PeersAreDistinct(events: seq<Event>, i: nat, j: nat)
    requires i < |After(events).tcbs| && j < |After(events).tcbs| && i != j
    ensures var s, t := After(events).tcbs[i], After(events).tcbs[j];
            && (s.passive && t.passive ==> s.sip != t.sip || s.sport != t.sport)
            && (s.passive && t.passive ==> !SameTuple(s, t))
            && (s.passive || t.passive)
  {
    RunNamed(events);
    assert NameOf(After(events).tcbs[i]) != NameOf(After(events).tcbs[j]);
  }

  /** Demultiplexing is unambiguous: in every run a segment of a connection reaches that connection
      and no listener, exactly when no socket without a peer stands before the connection and has its
      four addresses; with a port or an address that is not zero none has. */
  lemma DemultiplexingIsExact(events: seq<Event>, i: nat, p: Packet)
    requires i < |After(events).tcbs| && After(events).tcbs[i].passive
    requires Matches(After(events).tcbs[i], p.sip, p.dip, p.sport, p.dport)
    ensures Search(After(events).tcbs, p.sip, p.dip, p.sport, p.dport) == i <==>
              forall j :: 0 <= j < i ==> SameTuple(After(events).tcbs[j], After(events).tcbs[i]) ==>
                After(events).tcbs[j].passive
    ensures p.sip != 0 || p.sport != 0 ==> Search(After(events).tcbs, p.sip, p.dip, p.sport, p.dport) == i
  {
    RunKeeps(events);
    var n := After(events);
    var k := ExactFrom(n.tcbs, p.sip, p.dip, p.sport, p.dport);
    assert k <= i && StreamInv(n.tcbs[k]);
    if k < i {
      PeersAreDistinct(events, k, i);
      assert SameTuple(n.tcbs[k], n.tcbs[i]);
    }
    forall j | 0 <= j < i && SameTuple(n.tcbs[j], n.tcbs[i]) ensures k < i {
      assert Matches(n.tcbs[j], p.sip, p.dip, p.sport, p.dport);
    }
  }

  /** A SYN that reaches a listener is served exactly when the name of its rings is not in use; a SYN
      that is not served ends the program. */
  lemma SynIsServed(n: Net, p: Packet, seed: nat)
    requires n.running && p.sumOk && p.flags.syn
    requires var i := Search(n.tcbs, p.sip, p.dip, p.sport, p.dport); i < |n.tcbs| && n.tcbs[i].status == Listen
    ensures var r := Next(n, Arrive(p, seed));
            && (r.running <==> RingName(p.sip, p.sport) !in n.rings)
            && (r.running <==> r.tcbs == [Created(p, seed)] + n.tcbs)
            && (r.running ==> r.rings == n.rings + {RingName(p.sip, p.sport)})
            && (!r.running ==> r.tcbs == n.tcbs)
  {
    assert |[Created(p, seed)] + n.tcbs| > |n.tcbs|;
  }

  /** naccept and nsocket hand out the least descriptor from 3 that is not marked, or -1. */
  lemma {:induction false} LeastFree(fds: set<nat>, from: nat)
    ensures var fd := FreeFd(fds, from);
      && (forall d :: from <= d < MAX_FD && (fd < 0 || d < fd) ==> d in fds)
      && (fd < 0 ==> fd == -1)
      && (fd >= 0 ==> from <= fd < MAX_FD && fd !in fds)
    decreases MAX_FD - from
  {
    if from >= MAX_FD || from !in fds {
    } else {
      LeastFree(fds, from + 1);
    }
  }

  /** A call of nsocket makes a socket exactly when the name of its rings is not in use. */
  lemma SocketIsMade(n: Net)
    requires n.running
    ensures |Next(n, Socket).tcbs| == |n.tcbs| + 1 <==> SOCKET_RING !in n.rings
    ensures SOCKET_RING in n.rings ==> Next(n, Socket).tcbs == n.tcbs
    ensures Next(n, Socket).fds == n.fds <==> FreeFd(n.fds, FIRST_FD) < 0
  {
    LeastFree(n.fds, FIRST_FD);
  }

  /** After nlisten on a descriptor that naccept returned, the peer's next SYN ends the program. */
  lemma ListenOnAccepted(events: seq<Event>, fd: int, p: Packet, seed: nat)
    requires After(events).running && p.sumOk && p.flags.syn && (p.sip != 0 || p.sport != 0)
    requires var n := After(events); var i := FromFd(n.tcbs, fd);
             i < |n.tcbs| && n.tcbs[i].passive && Matches(n.tcbs[i], p.sip, p.dip, p.sport, p.dport)
    ensures !After(events + [Listening(fd)] + [Arrive(p, seed)]).running
  {
    var n := After(events);
    var i := FromFd(n.tcbs, fd);
    AfterStep(events, Listening(fd));
    AfterStep(events + [Listening(fd)], Arrive(p, seed));
    RunNamed(events);
    var n' := After(events + [Listening(fd)]);
    assert n'.tcbs[i] == n.tcbs[i].(status := Listen) && NameOf(n.tcbs[i]) in n'.rings;
    DemultiplexingIsExact(events + [Listening(fd)], i, p);
    SynIsServed(n', p, seed);
  }

  /** Only connections are left, and the name of a socket's rings is in use. */
  predicate SocketGone(n: Net) {
    SOCKET_RING in n.rings && forall i :: 0 <= i < |n.tcbs| ==> n.tcbs[i].passive
  }

  lemma ArrivalGone(n: Net, p: Packet, seed: nat)
    requires SocketGone(n)
    ensures SocketGone(Process(n, p, seed))
  {
    var i := Search(n.tcbs, p.sip, p.dip, p.sport, p.dport);
    if i < |n.tcbs| {
      NamesDiffer(n.tcbs[i].sip, n.tcbs[i].sport);
    }
  }

  lemma OutGone(n: Net)
    requires SocketGone(n)
    ensures SocketGone(OutPass(n))
  {
  }

  lemma DataGone(n: Net, fd: int, buf: seq<Byte>, len: nat)
    requires SocketGone(n)
    ensures SocketGone(NSend(n, fd, buf)) && SocketGone(NRecv(n, fd, len))
  {
  }

  lemma CloseGone(n: Net, fd: int)
    requires SocketGone(n)
    ensures SocketGone(NClose(n, fd))
  {
  }

  lemma AcceptGone(n: Net, fd: int)
    requires SocketGone(n)
    ensures SocketGone(NAccept(n, fd))
  {
  }

  lemma StaysGone(n: Net, e: Event)
    requires SocketGone(n)
    ensures SocketGone(Next(n, e))
  {
    match e {
      case Arrive(p, seed) => ArrivalGone(ArpInsert(n, p.sip), p, seed);
      case Out => OutGone(n);
      case Sending(fd, buf) => DataGone(n, fd, buf, 0);
      case Receiving(fd, len) => DataGone(n, fd, [], len);
      case Close(fd) => CloseGone(n, fd);
      case Accept(fd) => AcceptGone(n, fd);
      case _ =>
    }
  }

  lemma {:induction false} StaysGoneAfter(events: seq<Event>, more: seq<Event>)
    requires SocketGone(After(events))
    ensures SocketGone(After(events + more))
  {
    if more == [] {
      assert events + more == events;
    } else {
      StaysGoneAfter(events, more[..|more| - 1]);
      assert events + more == (events + more[..|more| - 1]) + [more[|more| - 1]];
      AfterStep(events + more[..|more| - 1], more[|more| - 1]);
      StaysGone(After(events + more[..|more| - 1]), more[|more| - 1]);
    }
  }

  /** nclose of a listening socket does not free its rings: whatever happens afterwards, nsocket
      never makes a socket again. */
  lemma ClosedListenerIsFinal(events: seq<Event>, fd: int, more: seq<Event>)
    requires After(events).running
    requires var n := After(events); var i := FromFd(n.tcbs, fd);
             i < |n.tcbs| && !n.tcbs[i].passive && n.tcbs[i].status == Listen
    ensures SocketGone(After(events + [Close(fd)] + more))
  {
    RunNamed(events);
    AfterStep(events, Close(fd));
    var n := After(events);
    var i := FromFd(n.tcbs, fd);
    forall k | 0 <= k < |n.tcbs| && k != i ensures n.tcbs[k].passive {
      assert NameOf(n.tcbs[k]) != NameOf(n.tcbs[i]);
    }
    assert NameOf(n.tcbs[i]) == SOCKET_RING;
    StaysGoneAfter(events + [Close(fd)], more);
  }

  // ---------------------------------------------------------------- two runs that end

  function SynFrom(sip: nat, sport: nat, dport: nat): Packet {
    Packet(sip, 2, sport, dport, 0, 0, Flags(true, false, false, false), [], true)
  }

  /** The listener's first SYN, of any peer, is served. */
  lemma FirstIsServed(p: Packet)
    requires p.sumOk && p.flags.syn && p.dport == 80 && (p.sip != 0 || p.sport != 0)
    ensures var n := After(LISTENER + [Arrive(p, 0)]);
            && n.running && n.rings == {SOCKET_RING, RingName(p.sip, p.sport)}
            && n.tcbs == [Created(p, 0)] + After(LISTENER).tcbs
  {
    ListenerIsUp();
    AfterStep(LISTENER, Arrive(p, 0));
    NamesDiffer(p.sip, p.sport);
    SynIsServed(After(LISTENER), p, 0);
  }

  lemma SameName()
    ensures RingName(0x1, 23) == RingName(0x12, 3)
  {
    assert Hex(0x1) == "1" && Hex(0x12) == "12" && Dec(23) == "23" && Dec(3) == "3";
  }

  /** Two clients: "1" and "23" print as "12" and "3" do, so the second one's SYN ends the program. */
  lemma NamesakeStops()
    ensures After(LISTENER + [Arrive(SynFrom(0x1, 23, 80), 0)]).running
    ensures !After(LISTENER + [Arrive(SynFrom(0x1, 23, 80), 0)] + [Arrive(SynFrom(0x12, 3, 80), 0)]).running
  {
    var events, second := LISTENER + [Arrive(SynFrom(0x1, 23, 80), 0)], SynFrom(0x12, 3, 80);
    ListenerIsUp();
    FirstIsServed(SynFrom(0x1, 23, 80));
    AfterStep(events, Arrive(second, 0));
    SameName();
    SynIsServed(After(events), second, 0);
  }

  lemma ListenerMoves(n: Net, c: Stream, l: Stream)
    requires n.running && n.tcbs == [c, l] && c.fd == -1 && l.fd == FIRST_FD
    ensures Next(Next(n, Bind(FIRST_FD, 2, 81)), Listening(FIRST_FD))
         == n.(tcbs := [c, l.(dip := 2, dport := 81, status := Listen)])
  {
    assert FromFd(n.tcbs, FIRST_FD) == 1;
    var n1 := Next(n, Bind(FIRST_FD, 2, 81));
    assert n1.tcbs == [c, l.(dip := 2, dport := 81, status := Closed)];
    assert FromFd(n1.tcbs, FIRST_FD) == 1;
  }

  lemma SecondSynStops(n: Net, c: Stream, l: Stream)
    requires n.running && n.tcbs == [c, l] && c.dport == 80 && l.dport == 81 && l.sip == 0 && l.status == Listen
    requires RingName(1, 7) in n.rings
    ensures !Next(n, Arrive(SynFrom(1, 7, 81), 0)).running
  {
    assert n.tcbs[1..] == [l] && n.tcbs[1..][1..] == [];
    assert ExactFrom(n.tcbs, 1, 2, 7, 81) == 1 + ExactFrom([l], 1, 2, 7, 81) == 2;
    assert ListenerFrom(n.tcbs, 81) == 1 + ListenerFrom([l], 81) == 1;
    assert Search(n.tcbs, 1, 2, 7, 81) == 1;
    SynIsServed(n, SynFrom(1, 7, 81), 0);
  }

  /** One client that uses its port for a second port of the server: its SYN ends the program. */
  lemma SecondPortStops()
    ensures var events := LISTENER + [Arrive(SynFrom(1, 7, 80), 0)] + [Bind(FIRST_FD, 2, 81)] + [Listening(FIRST_FD)];
      After(events).running && !After(events + [Arrive(SynFrom(1, 7, 81), 0)]).running
  {
    var one := LISTENER + [Arrive(SynFrom(1, 7, 80), 0)];
    var two := one + [Bind(FIRST_FD, 2, 81)];
    var three := two + [Listening(FIRST_FD)];
    var c, l := Created(SynFrom(1, 7, 80), 0), NewSocket(FIRST_FD).(dip := 2, dport := 80, status := Listen);
    ListenerIsUp();
    FirstIsServed(SynFrom(1, 7, 80));
    assert [c] + [l] == [c, l];
    AfterStep(one, Bind(FIRST_FD, 2, 81));
    AfterStep(two, Listening(FIRST_FD));
    ListenerMoves(After(one), c, l);
    AfterStep(three, Arrive(SynFrom(1, 7, 81), 0));
    SecondSynStops(After(three), c, l.(dip := 2, dport := 81, status := Listen));
  }
}

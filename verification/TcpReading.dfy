/** What the application reads. */
module TcpReading {
  import opened Bytes
  import opened Tcp
  import opened TcpInvariant

  /** What was read, followed by what is queued, is what the client sent in accepted segments. */
  predicate InStep(s: Stream) { s.read + Tokens(s.rcvbuf) == s.intended }

  lemma {:induction false} TokensAppend(ring: seq<seq<Byte>>, data: seq<Byte>)
    ensures Tokens(ring + [data]) == Tokens(ring) + FragmentTokens(data)
  {
    if ring == [] {
      assert [] + [data] == [data];
      assert Tokens([data]) == FragmentTokens(data) + Tokens([data][1..]);
    } else {
      assert (ring + [data])[1..] == ring[1..] + [data];
      TokensAppend(ring[1..], data);
    }
  }

  // ---------------------------------------------------------------- one segment

  /** What a fragment puts into the receive ring. */
  function Arriving(s: Stream, data: seq<Byte>): seq<Token> {
    if |s.rcvbuf| < RING_ROOM then FragmentTokens(data) else []
  }

  /** Queueing a fragment keeps the reader in step exactly when what is queued is what was meant. */
  lemma ReceiveInStep(s: Stream, data: seq<Byte>, meant: seq<Token>)
    requires InStep(s)
    ensures InStep(Receive(s, data, meant)) <==> Arriving(s, data) == meant
  {
    TokensAppend(s.rcvbuf, data);
    var r := Receive(s, data, meant);
    assert r.read + Tokens(r.rcvbuf) == s.intended + Arriving(s, data);
    SameTail(s.intended, Arriving(s, data), meant);
  }

  lemma PushTokens(data: seq<Byte>)
    ensures FragmentTokens(data) == DataTokens(data) <==> data != []
    ensures DataTokens(data) == [] <==> data == []
  {
    assert data == [] ==> |FragmentTokens(data)| != |DataTokens(data)|;
  }

  /** A pushed segment keeps the reader in step exactly when it carries data that finds room, or is
      empty and is dropped. */
  lemma PushInStep(s: Stream, p: Packet)
    requires InStep(s)
    ensures InStep(HandlePush(s, p)) <==> (|s.rcvbuf| < RING_ROOM <==> p.payload != [])
  {
    ReceiveInStep(s, p.payload, DataTokens(p.payload));
    PushTokens(p.payload);
  }

  lemma FinInStep(s: Stream, p: Packet)
    requires InStep(s)
    ensures InStep(HandleFin(s, p)) <==> |s.rcvbuf| < RING_ROOM
  {
    ReceiveInStep(s.(status := CloseWait), [], [Eof]);
  }

  /** A fragment is queued behind what was got so far, and what it meant is due behind what was. */
  lemma Received(s: Stream, data: seq<Byte>, meant: seq<Token>, base: seq<Token>, got: seq<Token>, due: seq<Token>)
    requires s.read + Tokens(s.rcvbuf) == base + got && s.intended == base + due
    ensures var r := Receive(s, data, meant);
            && r.read + Tokens(r.rcvbuf) == base + (got + Arriving(s, data))
            && r.intended == base + (due + meant)
  {
    TokensAppend(s.rcvbuf, data);
    Assoc(base, got, Arriving(s, data));
    Assoc(base, due, meant);
    Assoc(s.read, Tokens(s.rcvbuf), FragmentTokens(data));
  }

  /** Which of the two fragments of such a segment have to be queued. */
  lemma BothTokens(data: seq<Byte>, push: bool, fin: bool)
    ensures (if push then FragmentTokens(data) else []) + (if fin then [Eof] else []) == DataTokens(data) + [Eof]
            <==> if data != [] then push && fin else push != fin
  {
    var queued, meant := (if push then FragmentTokens(data) else []) + (if fin then [Eof] else []), DataTokens(data) + [Eof];
    PushTokens(data);
    assert |queued| == (if push then (if data == [] then 1 else |data|) else 0) + if fin then 1 else 0;
    if data != [] && push && !fin {
      assert |queued| != |meant|;
    }
    if data != [] && !push {
      assert queued == (if fin then [Eof] else []) && meant[0] == Data(data[0]);
    }
  }

  /** A segment with PSH and FIN keeps the reader in step exactly when it carries data and both
      find room, or is empty and the end of file that the empty push makes takes the last place of
      the one that the FIN means. */
  lemma PushFinInStep(s: Stream, p: Packet)
    requires InStep(s) && p.flags.psh && p.flags.fin
    ensures InStep(HandleEstablished(s, p)) <==>
              if p.payload != [] then |s.rcvbuf| + 1 < RING_ROOM else |s.rcvbuf| + 1 == RING_ROOM
  {
    var s1 := Receive(s, p.payload, DataTokens(p.payload));
    var s2 := HandlePush(s, p).(status := CloseWait);
    var first := Arriving(s, p.payload);
    Received(s, p.payload, DataTokens(p.payload), s.intended, [], []);
    Received(s2, [], [Eof], s.intended, [] + first, [] + DataTokens(p.payload));
    SameTail(s.intended, [] + first + Arriving(s2, []), [] + DataTokens(p.payload) + [Eof]);
    assert [] + first == first && [] + DataTokens(p.payload) == DataTokens(p.payload);
    BothTokens(p.payload, |s.rcvbuf| < RING_ROOM, |s1.rcvbuf| < RING_ROOM);
  }

  // ---------------------------------------------------------------- one read

  lemma TokensOne(data: seq<Byte>)
    ensures Tokens([data]) == FragmentTokens(data)
  {
    assert Tokens([data]) == FragmentTokens(data) + [];
  }

  lemma ShortReadTokens(head: seq<Byte>, len: nat)
    requires len < |head|
    ensures FragmentTokens(head)
            == DataTokens(head[..len]) + FragmentTokens(head[len..])
  {
  }

  /** A read keeps the reader in step when its buffer covers the oldest fragment, or nothing is
      queued behind it. */
  lemma ReadInStep(s: Stream, len: nat)
    requires InStep(s) && s.rcvbuf != []
    requires |s.rcvbuf[0]| <= len || |s.rcvbuf| == 1
    ensures InStep(RecvStream(s, len))
  {
    var head, behind := s.rcvbuf[0], s.rcvbuf[1..];
    if |head| <= len {
      assert s.read + (FragmentTokens(head) + Tokens(behind)) == s.read + FragmentTokens(head) + Tokens(behind);
    } else {
      assert behind + [head[len..]] == [head[len..]] && s.rcvbuf == [head];
      TokensOne(head);
      TokensOne(head[len..]);
      ShortReadTokens(head, len);
    }
  }

  function Filled(shape: seq<nat>, b: Byte): (r: seq<seq<Byte>>)
    ensures |r| == |shape| && forall i :: 0 <= i < |shape| ==> |r[i]| == shape[i]
  {
    seq(|shape|, i requires 0 <= i < |shape| => seq(shape[i], _ => b))
  }

  /** Otherwise it does not: whatever the lengths of the fragments, there are contents that the
      application then reads out of order. */
  lemma ShortReadReorders(s: Stream, len: nat, shape: seq<nat>)
    requires 2 <= |shape| && len < shape[0]
    requires s.rcvbuf == [seq(shape[0], _ => 0)] + Filled(shape[1..], 1) && InStep(s)
    ensures !InStep(RecvStream(s, len))
  {
    var head, behind := s.rcvbuf[0], s.rcvbuf[1..];
    assert behind == Filled(shape[1..], 1) && behind != [];
    var r := RecvStream(s, len);
    TokensAppend(behind, head[len..]);
    var k := |s.read| + len;
    ShortReadTokens(head, len);
    assert Tokens(s.rcvbuf) == FragmentTokens(head) + Tokens(behind);
    assert s.intended[k] == Data(0) by {
      assert s.intended[k] == Tokens(s.rcvbuf)[len] == FragmentTokens(head)[len];
    }
    assert Tokens(behind)[0] == FragmentTokens(behind[0])[0] != Data(0);
    assert (r.read + Tokens(r.rcvbuf))[k] == Tokens(r.rcvbuf)[0] == Tokens(behind)[0];
  }

  /** The length that a read returns is the number of bytes it copied exactly when the buffer covers
      the fragment or holds half of it. */
  lemma ReturnedLength(s: Stream, len: nat)
    requires s.rcvbuf != []
    ensures RecvLength(s, len) == Min(len, |s.rcvbuf[0]|) <==> |s.rcvbuf[0]| <= len || |s.rcvbuf[0]| == 2 * len
  {
  }

  // ---------------------------------------------------------------- order and length of one read

  function BytesIn(ts: seq<Token>): nat {
    if ts == [] then 0 else BytesIn(ts[..|ts| - 1]) + if ts[|ts| - 1].Data? then 1 else 0
  }

  lemma {:induction false} BytesInBoth(a: seq<Token>, b: seq<Token>)
    ensures BytesIn(a + b) == BytesIn(a) + BytesIn(b)
  {
    if b == [] {
      assert a + b == a;
    } else {
      assert (a + b)[..|a + b| - 1] == a + b[..|b| - 1];
      BytesInBoth(a, b[..|b| - 1]);
    }
  }

  lemma {:induction false} BytesInData(data: seq<Byte>)
    ensures BytesIn(DataTokens(data)) == |data|
  {
    if data == [] {
    } else {
      assert DataTokens(data)[..|data| - 1] == DataTokens(data[..|data| - 1]);
      BytesInData(data[..|data| - 1]);
    }
  }

  /** The lengths that nrecv returned add up to the bytes it handed out. */
  predicate Counted(s: Stream) { s.returned == BytesIn(s.read) }

  lemma ReadCounts(s: Stream, len: nat)
    requires Counted(s) && s.rcvbuf != []
    ensures Counted(RecvStream(s, len)) <==> |s.rcvbuf[0]| <= len || |s.rcvbuf[0]| == 2 * len
  {
    var head := s.rcvbuf[0];
    ReturnedLength(s, len);
    if |head| > len {
      BytesInBoth(s.read, DataTokens(head[..len]));
      BytesInData(head[..len]);
    } else {
      BytesInBoth(s.read, FragmentTokens(head));
      BytesInData(head);
      assert head == [] ==> BytesIn([Eof]) == 0;
    }
  }

  /** What the application can rely on. */
  predicate Sound(s: Stream) { InStep(s) && Counted(s) }

  function ShapeOf(ring: seq<seq<Byte>>): seq<nat> {
    seq(|ring|, i requires 0 <= i < |ring| => |ring[i]|)
  }

  /** A stream that has received these fragments, of which none was read. */
  function Unread(ring: seq<seq<Byte>>): (s: Stream)
    ensures s.rcvbuf == ring && Sound(s)
  {
    Stream(-1, 0, 0, 0, 0, 0, 0, Established, [], ring, true, 0, 0, 0, [] + Tokens(ring), [], 0, [], [], [], [])
  }

  function Mixed(shape: seq<nat>): (r: seq<seq<Byte>>)
    requires shape != []
    ensures ShapeOf(r) == shape
  {
    [seq(shape[0], _ => 0)] + Filled(shape[1..], 1)
  }

  /** A read keeps the order for all contents of the ring exactly when its buffer covers the oldest
      fragment or nothing is queued behind it. */
  lemma OrderIsExact(shape: seq<nat>, len: nat)
    requires shape != []
    ensures (forall s: Stream :: Sound(s) && ShapeOf(s.rcvbuf) == shape ==> InStep(RecvStream(s, len)))
            <==> shape[0] <= len || |shape| == 1
  {
    if shape[0] <= len || |shape| == 1 {
      forall s: Stream | Sound(s) && ShapeOf(s.rcvbuf) == shape ensures InStep(RecvStream(s, len)) {
        assert |s.rcvbuf| == |ShapeOf(s.rcvbuf)| && |s.rcvbuf[0]| == ShapeOf(s.rcvbuf)[0];
        ReadInStep(s, len);
      }
    } else {
      ShortReadReorders(Unread(Mixed(shape)), len, shape);
    }
  }

  /** A read keeps the order and returns the number of bytes it copied, for all contents of the ring,
      exactly when its buffer covers the oldest fragment, or holds half of it and nothing is queued
      behind it. */
  lemma ReadIsExact(shape: seq<nat>, len: nat)
    requires shape != []
    ensures (forall s: Stream :: Sound(s) && ShapeOf(s.rcvbuf) == shape ==> Sound(RecvStream(s, len)))
            <==> shape[0] <= len || (|shape| == 1 && shape[0] == 2 * len)
  {
    OrderIsExact(shape, len);
    forall s: Stream | Sound(s) && ShapeOf(s.rcvbuf) == shape
      ensures Counted(RecvStream(s, len)) <==> shape[0] <= len || shape[0] == 2 * len
    {
      assert |s.rcvbuf| == |ShapeOf(s.rcvbuf)| && |s.rcvbuf[0]| == ShapeOf(s.rcvbuf)[0];
      ReadCounts(s, len);
    }
    assert Sound(Unread(Mixed(shape)));
  }

  // ---------------------------------------------------------------- whole runs

  /** Data segments are not empty and find room in the receive ring, so does a FIN behind the data
      it comes with, and a read brings a buffer for the oldest fragment, or for half of it when that
      is the only one. */
  predicate Gentle(n: Net, e: Event) {
    match e
    case Arrive(p, _) =>
      var i := Search(n.tcbs, p.sip, p.dip, p.sport, p.dport);
      p.sumOk && i < |n.tcbs| && n.tcbs[i].status == Established ==>
        && (p.flags.psh ==> p.payload != [] && |n.tcbs[i].rcvbuf| < RING_ROOM)
        && (p.flags.fin ==> |n.tcbs[i].rcvbuf| + (if p.flags.psh then 1 else 0) < RING_ROOM)
    case Receiving(fd, len) =>
      var i := FromFd(n.tcbs, fd);
      i < |n.tcbs| && n.tcbs[i].rcvbuf != [] ==>
        || |n.tcbs[i].rcvbuf[0]| <= len
        || (|n.tcbs[i].rcvbuf| == 1 && |n.tcbs[i].rcvbuf[0]| == 2 * len)
    case _ => true
  }

  predicate GentleRun(events: seq<Event>) {
    events == [] ||
    (GentleRun(events[..|events| - 1]) && Gentle(After(events[..|events| - 1]), events[|events| - 1]))
  }

  predicate AllSound(n: Net) {
    forall i :: 0 <= i < |n.tcbs| ==> Sound(n.tcbs[i])
  }

  lemma EstablishedInStep(s: Stream, p: Packet)
    requires Sound(s)
    requires p.flags.psh ==> p.payload != [] && |s.rcvbuf| < RING_ROOM
    requires p.flags.fin ==> |s.rcvbuf| + (if p.flags.psh then 1 else 0) < RING_ROOM
    ensures Sound(HandleEstablished(s, p))
  {
    PushInStep(s, p);
    FinInStep(s, p);
    if p.flags.psh && p.flags.fin {
      PushFinInStep(s, p);
    }
  }

  lemma CreatedInStep(p: Packet, seed: nat)
    ensures Sound(Created(p, seed))
  {
    assert [] + Tokens([]) == [];
  }

  lemma ArrivalSound(n: Net, p: Packet, seed: nat)
    requires AllSound(n) && Gentle(n, Arrive(p, seed))
    ensures AllSound(Process(n, p, seed))
  {
    var i := Search(n.tcbs, p.sip, p.dip, p.sport, p.dport);
    CreatedInStep(p, seed);
    if p.sumOk && i < |n.tcbs| && n.tcbs[i].status == Established {
      EstablishedInStep(n.tcbs[i], p);
    }
  }

  lemma ReadingSound(n: Net, fd: int, len: nat)
    requires AllSound(n) && Gentle(n, Receiving(fd, len))
    ensures AllSound(NRecv(n, fd, len))
  {
    var i := FromFd(n.tcbs, fd);
    if i < |n.tcbs| && n.tcbs[i].rcvbuf != [] {
      ReadInStep(n.tcbs[i], len);
      ReadCounts(n.tcbs[i], len);
    }
  }

  lemma SocketSound(n: Net)
    requires AllSound(n)
    ensures AllSound(NSocket(n))
  {
    assert [] + Tokens([]) == [];
    assert Sound(NewSocket(FreeFd(n.fds, FIRST_FD)));
  }

  lemma OutSound(n: Net)
    requires AllSound(n)
    ensures AllSound(OutPass(n))
  {
  }

  lemma SendingSound(n: Net, fd: int, buf: seq<Byte>)
    requires AllSound(n)
    ensures AllSound(NSend(n, fd, buf))
  {
  }

  lemma ClosingSound(n: Net, fd: int)
    requires AllSound(n)
    ensures AllSound(NClose(n, fd))
  {
  }

  lemma AcceptSound(n: Net, fd: int)
    requires AllSound(n)
    ensures AllSound(NAccept(n, fd))
  {
  }

  lemma GentleStep(n: Net, e: Event)
    requires AllSound(n) && Gentle(n, e)
    ensures AllSound(Next(n, e))
  {
    match e {
      case Arrive(p, seed) => ArrivalSound(ArpInsert(n, p.sip), p, seed);
      case Receiving(fd, len) => ReadingSound(n, fd, len);
      case Socket => SocketSound(n);
      case Out => OutSound(n);
      case Other(_) =>
      case Others(_) =>
      case Drain =>
      case Sending(fd, buf) => SendingSound(n, fd, buf);
      case Close(fd) => ClosingSound(n, fd);
      case Accept(fd) => AcceptSound(n, fd);
      case Bind(_, _, _) =>
      case Listening(_) =>
    }
  }

  lemma {:induction false} GentleKeeps(events: seq<Event>)
    requires GentleRun(events)
    ensures AllSound(After(events))
  {
    if events == [] {
    } else {
      GentleKeeps(events[..|events| - 1]);
      GentleStep(After(events[..|events| - 1]), events[|events| - 1]);
    }
  }

  lemma StepFacts(s: Stream)
    requires InStep(s) && OneEofAtEnd(s.intended, s.fins)
    ensures s.read <= s.intended
    ensures forall k :: 0 <= k < |s.read| ==> (s.read[k] == Eof <==> s.fins == 1 && k == |s.intended| - 1)
    ensures Eof in s.read ==> s.read == s.intended && s.rcvbuf == []
    ensures s.rcvbuf == [] ==> s.read == s.intended
  {
    assert forall k :: 0 <= k < |s.read| ==> s.read[k] == s.intended[k];
    assert Tokens(s.rcvbuf) == [] <==> s.rcvbuf == [];
    if Eof in s.read {
      var k :| 0 <= k < |s.read| && s.read[k] == Eof;
      assert k == |s.intended| - 1;
    }
  }

  /** What the application has read is what the client sent, in order: bytes, and one end of file
      after all of them once a FIN was accepted; and the lengths that nrecv returned say how many
      bytes they are. */
  lemma ByteStreamInOrder(events: seq<Event>, i: nat)
    requires GentleRun(events) && i < |After(events).tcbs| && After(events).tcbs[i].passive
    ensures var s := After(events).tcbs[i];
            && s.returned == BytesIn(s.read)
            && s.read + Tokens(s.rcvbuf) == s.intended && s.read <= s.intended && s.fins <= 1
            && (forall k :: 0 <= k < |s.read| ==> (s.read[k] == Eof <==> s.fins == 1 && k == |s.intended| - 1))
            && (Eof in s.read ==> s.read == s.intended && s.rcvbuf == [])
            && (s.rcvbuf == [] ==> s.read == s.intended)
  {
    GentleKeeps(events);
    RunKeeps(events);
    var s := After(events).tcbs[i];
    assert StreamInv(s) && Sound(s);
    StepFacts(s);
  }
}

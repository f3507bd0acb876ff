/** The TCP of the stack as it works: control blocks in an intrusive list, updated in place. */
module TcpStack {
  import opened Bytes
  import opened Tcp

  /** The place of a control block in the list: what is before it and what is behind it. */
  type Links = (Tcb?, Tcb?)

  /** struct ng_tcp_stream, with the history of the model as ghost fields. */
  class Tcb {
    var next: Tcb?
    var prev: Tcb?
    var fd: int
    var sip: nat
    var dip: nat
    var sport: nat
    var dport: nat
    var sndNxt: nat
    var rcvNxt: nat
    var status: Status
    var sndbuf: seq<Fragment>
    var rcvbuf: seq<seq<Byte>>
    const passive: bool  // its rings bear the name of its peer
    ghost var isn: nat
    ghost var accepted: nat
    ghost var fins: nat
    ghost var intended: seq<Token>
    ghost var read: seq<Token>
    ghost var returned: nat
    ghost var queued: seq<Fragment>
    ghost var stamps: seq<nat>
    ghost var handed: seq<Fragment>
    ghost var sent: seq<Fragment>

    ghost function View(): Stream
      reads this
    {
      Stream(fd, sip, dip, sport, dport, sndNxt, rcvNxt, status, sndbuf, rcvbuf,
             passive, isn, accepted, fins, intended, read, returned, queued, stamps, handed, sent)
    }

    /** The place in the list, which no method of a control block changes. */
    ghost function Links(): Links
      reads this`prev, this`next
    {
      (prev, next)
    }

    method SetPrev(t: Tcb?)
      modifies this`prev
      ensures prev == t && View() == old(View())
    {
      prev := t;
    }

    method SetNext(t: Tcb?)
      modifies this`next
      ensures next == t && View() == old(View())
    {
      next := t;
    }

    /** Lines 1182-1190: a socket without a peer. */
    constructor Socket(fd: int)
      ensures View() == NewSocket(fd)
    {
      this.fd, sip, dip, sport, dport, sndNxt, rcvNxt, status := fd, 0, 0, 0, 0, 0, 0, Closed;
      sndbuf, rcvbuf, passive, isn, accepted, fins := [], [], false, 0, 0, 0;
      intended, read, returned, queued, stamps, handed, sent := [], [], 0, [], [], [], [];
      next, prev := null, null;
    }

    /** rte_ring_mp_enqueue on sndbuf. */
    method Enqueue(f: Fragment)
      modifies this
      ensures View() == Send(old(View()), f) && Links() == old(Links())
    {
      if |sndbuf| < RING_ROOM {
        sndbuf := sndbuf + [f];
        queued, stamps := queued + [f], stamps + [accepted];
      }
    }

    /** Lines 1694-1726: the control block of a new connection, its SYN-ACK queued. */
    constructor Passive(p: Packet, seed: nat)
      ensures View() == Created(p, seed)
    {
      fd, sip, dip, sport, dport := -1, p.sip, p.dip, p.sport, p.dport;
      sndNxt, rcvNxt, status := seed % (U32 - 1), (p.seqnum + 1) % U32, Listen;
      sndbuf, rcvbuf, passive, isn, accepted, fins := [], [], true, p.seqnum, 0, 0;
      intended, read, returned, queued, stamps, handed, sent := [], [], 0, [], [], [], [];
      next, prev := null, null;
      new;
      Enqueue(Fragment(p.dport, p.sport, sndNxt, rcvNxt, Flags(true, true, false, false), []));
      status := SynRcvd;
    }

    /** Lines 1765-1804. */
    method EnqueueRecv(data: seq<Byte>, ghost meant: seq<Token>)
      modifies this
      ensures View() == Receive(old(View()), data, meant) && Links() == old(Links())
    {
      intended := intended + meant;
      if |rcvbuf| < RING_ROOM {
        rcvbuf := rcvbuf + [data];
      }
    }

    /** Lines 1806-1832. */
    method SendAck(p: Packet)
      modifies this
      ensures View() == Send(old(View()), AckFragment(old(View()), p)) && Links() == old(Links())
    {
      Enqueue(Fragment(p.dport, p.sport, sndNxt, rcvNxt, Flags(false, true, false, false), []));
    }

    method MoveOn(p: Packet, more: nat, ghost fin: nat)
      modifies this
      ensures View() == old(View()).(rcvNxt := (old(rcvNxt) + more) % U32, sndNxt := p.acknum % U32,
                                     accepted := old(accepted) + more, fins := old(fins) + fin)
      ensures Links() == old(Links())
    {
      rcvNxt, sndNxt := (rcvNxt + more) % U32, p.acknum % U32;
      accepted, fins := accepted + more, fins + fin;
    }

    /** Lines 1908-1914 and 1979-1982: the sequence numbers move on and an ACK is queued. */
    method CountAndAck(p: Packet, more: nat, ghost fin: nat)
      modifies this
      ensures var s2 := old(View()).(rcvNxt := (old(rcvNxt) + more) % U32, sndNxt := p.acknum % U32,
                                     accepted := old(accepted) + more, fins := old(fins) + fin);
              View() == Send(s2, AckFragment(s2, p))
      ensures Links() == old(Links())
    {
      MoveOn(p, more, fin);
      SendAck(p);
    }

    /** Lines 1839-1914. */
    method OnPush(p: Packet)
      modifies this
      ensures View() == HandlePush(old(View()), p) && Links() == old(Links())
    {
      EnqueueRecv(p.payload, DataTokens(p.payload));
      CountAndAck(p, |p.payload|, 0);
    }

    /** Lines 1952-1982. */
    method OnFin(p: Packet)
      modifies this
      ensures View() == HandleFin(old(View()), p) && Links() == old(Links())
    {
      status := CloseWait;
      EnqueueRecv([], [Eof]);
      CountAndAck(p, 1, 1);
    }

    /** Lines 1834-1987. */
    method OnEstablished(p: Packet)
      modifies this
      ensures View() == HandleEstablished(old(View()), p) && Links() == old(Links())
    {
      if p.flags.psh {
        OnPush(p);
      }
      if p.flags.fin {
        OnFin(p);
      }
    }

    /** Lines 1364-1402 on a non-empty ring. */
    method Recv(len: nat) returns (buf: seq<Byte>, length: nat)
      requires rcvbuf != []
      modifies this
      ensures View() == RecvStream(old(View()), len) && length == RecvLength(old(View()), len)
      ensures buf == old(rcvbuf)[0][..Min(len, |old(rcvbuf)[0]|)] && Links() == old(Links())
    {
      var fragment := rcvbuf[0];
      if |fragment| > len {
        buf := fragment[..len];
        read, returned := read + DataTokens(fragment[..len]), returned + (|fragment| - len);
        rcvbuf := rcvbuf[1..] + [fragment[len..]];
        length := |fragment| - len;
      } else {
        buf, length := fragment, |fragment|;
        read, returned := read + FragmentTokens(fragment), returned + |fragment|;
        rcvbuf := rcvbuf[1..];
      }
    }

    /** Lines 2198-2227 for this stream, with `out` as the output ring. */
    method TakeTurn(known: bool, ghost arp: seq<nat>, ghost count: nat, out: seq<OutPacket>)
      returns (ring: seq<OutPacket>)
      requires known == ArpFind(arp, count, sip)
      modifies this
      ensures (View(), ring) == OutTurn(old(View()), arp, count, out) && Links() == old(Links())
    {
      ring := out;
      if sndbuf == [] {
        return;
      }
      var fragment := sndbuf[0];
      sndbuf := sndbuf[1..];
      if known {
        handed := handed + [fragment];
        if |out| < RING_ROOM {
          ring, sent := out + [Segment(dip, sip, fragment)], sent + [fragment];
        }
      } else {
        ring := PutOut(out, ArpRequest(sip));
        sndbuf := sndbuf + [fragment];
      }
    }

    method SetAddress(ip: nat, port: nat)
      modifies this
      ensures View() == old(View()).(dport := port, dip := ip, status := Closed) && Links() == old(Links())
    {
      dport, dip, status := port, ip, Closed;
    }

    method SetStatus(status': Status)
      modifies this
      ensures View() == old(View()).(status := status') && Links() == old(Links())
    {
      status := status';
    }

    method SetFd(fd': int)
      modifies this
      ensures View() == old(View()).(fd := fd') && Links() == old(Links())
    {
      fd := fd';
    }

    /** Lines 1520-1539. */
    method SendFin()
      modifies this
      ensures View() == CloseStream(old(View())) && Links() == old(Links())
    {
      Enqueue(Fragment(dport, sport, sndNxt, rcvNxt, Flags(false, true, false, true), []));
      status := LastAck;
    }
  }

  /** Lines 869-890: one mark for each descriptor. */
  class FdTable {
    const used: array<bool>

    constructor ()
      ensures Valid() && Fds() == {} && fresh(used)
    {
      used := new bool[MAX_FD](_ => false);
    }

    ghost predicate Valid()
    {
      used.Length == MAX_FD
    }

    ghost function Fds(): set<nat>
      reads used
    {
      set fd: nat | fd < used.Length && used[fd]
    }

    /** The lowest free descriptor is taken; -1 when there is none. */
    method Take() returns (fd: int)
      requires Valid()
      modifies used
      ensures fd == FreeFd(old(Fds()), FIRST_FD)
      ensures Fds() == if fd >= 0 then old(Fds()) + {fd} else old(Fds())
    {
      fd := FIRST_FD;
      while fd < MAX_FD
        invariant FIRST_FD <= fd <= MAX_FD && used[..] == old(used[..])
        invariant FreeFd(Fds(), FIRST_FD) == FreeFd(Fds(), fd)
      {
        if !used[fd] {
          used[fd] := true;
          return;
        }
        fd := fd + 1;
      }
      fd := -1;
    }

    method Release(fd: int)
      requires Valid() && fd >= 0
      modifies used
      ensures Fds() == old(Fds()) - {fd}
    {
      if fd < MAX_FD {
        used[fd] := false;
      }
    }
  }

  /** From t on these links run through ts, coming from p. */
  ghost predicate Chain(p: Tcb?, t: Tcb?, ts: seq<Tcb>, links: seq<Links>)
    requires |links| == |ts|
    decreases |ts|
  {
    if ts == [] then t == null
    else t == ts[0] && links[0].0 == p && t !in ts[1..] && Chain(t, links[0].1, ts[1..], links[1..])
  }

  /** The same for one place of the list. */
  ghost predicate LinkedAt(p: Tcb?, ts: seq<Tcb>, links: seq<Links>, i: nat)
    requires i < |ts| == |links|
  {
    && links[i] == (if i == 0 then p else ts[i - 1], if i == |ts| - 1 then null else ts[i + 1])
    && forall j :: 0 <= j < |ts| && j != i ==> ts[j] != ts[i]
  }

  lemma {:induction false} ChainAt(p: Tcb?, t: Tcb?, ts: seq<Tcb>, links: seq<Links>, i: nat)
    requires |links| == |ts| && Chain(p, t, ts, links) && i < |ts|
    ensures t == ts[0] && LinkedAt(p, ts, links, i)
    decreases |ts|
  {
    if |ts| == 1 {
    } else if i == 0 {
      ChainAt(ts[0], links[0].1, ts[1..], links[1..], 0);
    } else {
      ChainAt(ts[0], links[0].1, ts[1..], links[1..], i - 1);
      assert forall j :: 1 <= j < |ts| ==> ts[j] == ts[1..][j - 1];
    }
  }

  lemma {:induction false} ChainFrom(p: Tcb?, t: Tcb?, ts: seq<Tcb>, links: seq<Links>)
    requires |links| == |ts| && t == if ts == [] then null else ts[0]
    requires forall i :: 0 <= i < |ts| ==> LinkedAt(p, ts, links, i)
    ensures Chain(p, t, ts, links)
    decreases |ts|
  {
    if ts == [] {
    } else {
      assert LinkedAt(p, ts, links, 0);
      forall i | 0 <= i < |ts[1..]| ensures LinkedAt(t, ts[1..], links[1..], i) {
        assert LinkedAt(p, ts, links, i + 1);
      }
      ChainFrom(t, links[0].1, ts[1..], links[1..]);
    }
  }

  /** The links after the neighbours of place i were linked to each other. */
  function Skipped(before: seq<Links>, i: nat): (r: seq<Links>)
    requires i < |before|
    ensures |r| == |before|
    ensures forall k :: 0 <= k < |r| ==>
              r[k] ==
                if k == i then (null, null)
                else (if k == i + 1 then before[i].0 else before[k].0, if k == i - 1 then before[i].1 else before[k].1)
  {
    var a := if i == 0 then before else before[i - 1 := (before[i - 1].0, before[i].1)];
    var b := if i + 1 == |before| then a else a[i + 1 := (before[i].0, a[i + 1].1)];
    b[i := (null, null)]
  }

  lemma IsSkipped(before: seq<Links>, i: nat, now: seq<Links>)
    requires i < |before|
    requires var a := if i == 0 then before else before[i - 1 := (before[i - 1].0, before[i].1)];
             now == (if i + 1 == |before| then a else a[i + 1 := (before[i].0, a[i + 1].1)])[i := (null, null)]
    ensures now == Skipped(before, i)
  {
  }

  lemma IsWithout<T>(r: seq<T>, s: seq<T>, i: nat)
    requires i < |s| == |r| + 1
    requires forall k :: 0 <= k < |r| ==> r[k] == s[if k < i then k else k + 1]
    ensures r == s[..i] + s[i + 1..]
  {
  }

  lemma IsPrepended<T>(r: seq<T>, x: T, s: seq<T>)
    requires |r| == 1 + |s| && r[0] == x && forall k :: 0 <= k < |s| ==> r[k + 1] == s[k]
    ensures r == [x] + s
  {
    assert forall k :: 0 < k < |r| ==> r[k] == s[k - 1];
  }

  /** Without place i they are the links of the list without its control block. */
  lemma Unlinked(ts: seq<Tcb>, before: seq<Links>, i: nat, r: seq<Tcb>, after: seq<Links>)
    requires i < |ts| == |before| && forall k :: 0 <= k < |ts| ==> LinkedAt(null, ts, before, k)
    requires r == ts[..i] + ts[i + 1..] && after == Skipped(before, i)[..i] + Skipped(before, i)[i + 1..]
    ensures Chain(null, if r == [] then null else r[0], r, after)
  {
    assert LinkedAt(null, ts, before, i);
    forall k | 0 <= k < |after| ensures LinkedAt(null, r, after, k) {
      assert LinkedAt(null, ts, before, if k < i then k else k + 1);
    }
    ChainFrom(null, if r == [] then null else r[0], r, after);
  }

  /** A control block put before the head, whose link back is set. */
  lemma Prepended(t: Tcb, head: Tcb?, ts: seq<Tcb>, before: seq<Links>, after: seq<Links>)
    requires |before| == |ts| && Chain(null, head, ts, before) && t !in ts
    requires |after| == 1 + |ts| && after[0] == (null, head)
    requires ts != [] ==> after[1] == (t, before[0].1) && after[2..] == before[1..]
    ensures Chain(null, t, [t] + ts, after)
  {
    assert ([t] + ts)[1..] == ts;
    assert ts != [] ==> after[1..][1..] == after[2..];
  }

  lemma ExactRest(ss: seq<Stream>, i: nat, sip: nat, dip: nat, sport: nat, dport: nat)
    requires i < |ss|
    ensures ExactFrom(ss[i..], sip, dip, sport, dport)
         == if Matches(ss[i], sip, dip, sport, dport) then 0 else 1 + ExactFrom(ss[i + 1..], sip, dip, sport, dport)
  {
    assert ss[i..][1..] == ss[i + 1..];
  }

  lemma ListenerRest(ss: seq<Stream>, i: nat, dport: nat)
    requires i < |ss|
    ensures ListenerFrom(ss[i..], dport)
         == if ss[i].dport == dport && ss[i].status == Listen then 0 else 1 + ListenerFrom(ss[i + 1..], dport)
  {
    assert ss[i..][1..] == ss[i + 1..];
  }

  /** The list of streams: LL_ADD and LL_REMOVE, and the walks along it. */
  class TcbList {
    var head: Tcb?
    ghost var tcbs: seq<Tcb>

    constructor ()
      ensures Valid() && tcbs == []
    {
      head, tcbs := null, [];
    }

    ghost function AllLinks(): (r: seq<Links>)
      reads this, tcbs
      ensures |r| == |tcbs| && forall i :: 0 <= i < |tcbs| ==> r[i] == tcbs[i].Links()
    {
      seq(|tcbs|, i requires 0 <= i < |tcbs| reads this, tcbs => tcbs[i].Links())
    }

    ghost predicate Valid()
      reads this, tcbs
    {
      Chain(null, head, tcbs, AllLinks())
    }

    /** The control block at place i, or null behind the last. */
    ghost function At(i: nat): Tcb?
      reads this
    {
      if i < |tcbs| then tcbs[i] else null
    }

    ghost function Views(): (r: seq<Stream>)
      reads this, tcbs
      ensures |r| == |tcbs| && forall i :: 0 <= i < |tcbs| ==> r[i] == tcbs[i].View()
    {
      seq(|tcbs|, i requires 0 <= i < |tcbs| reads this, tcbs => tcbs[i].View())
    }

    /** LL_ADD on the links. */
    method Link(t: Tcb)
      requires Valid() && t !in tcbs
      modifies this, t, if tcbs == [] then {} else {tcbs[0]}
      ensures Valid() && tcbs == [t] + old(tcbs)
      ensures forall x :: x in tcbs ==> x.View() == old(x.View())
    {
      t.SetPrev(null);
      t.SetNext(head);
      if head != null {
        head.SetPrev(t);
      }
      head := t;
      tcbs := [t] + tcbs;
      Prepended(t, old(head), old(tcbs), old(AllLinks()), AllLinks());
    }

    /** LL_ADD */
    method Add(t: Tcb)
      requires Valid() && t !in tcbs
      modifies this, t, if tcbs == [] then {} else {tcbs[0]}
      ensures Valid() && tcbs == [t] + old(tcbs) && Views() == [old(t.View())] + old(Views())
    {
      ghost var view, views := t.View(), Views();
      Link(t);
      IsPrepended(Views(), view, views);
    }

    method SkipNext(t: Tcb, ghost i: nat, ghost before: seq<Links>)
      requires i < |tcbs| == |before| && tcbs[i] == t && AllLinks() == before
      requires forall k :: 0 <= k < |tcbs| ==> LinkedAt(null, tcbs, before, k)
      modifies tcbs
      ensures Views() == old(Views())
      ensures AllLinks() == if i == 0 then before else before[i - 1 := (before[i - 1].0, before[i].1)]
    {
      assert LinkedAt(null, tcbs, before, i);
      if t.prev != null {
        assert LinkedAt(null, tcbs, before, i - 1);
        t.prev.SetNext(t.next);
      }
    }

    method SkipPrev(t: Tcb, ghost i: nat, ghost before: seq<Links>)
      requires i < |tcbs| == |before| && tcbs[i] == t && AllLinks()[i] == before[i]
      requires forall k :: 0 <= k < |tcbs| ==> LinkedAt(null, tcbs, before, k)
      modifies tcbs
      ensures Views() == old(Views())
      ensures AllLinks() ==
        if i + 1 == |tcbs| then old(AllLinks())
        else old(AllLinks())[i + 1 := (before[i].0, old(AllLinks())[i + 1].1)]
    {
      assert LinkedAt(null, tcbs, before, i);
      if t.next != null {
        assert LinkedAt(null, tcbs, before, i + 1);
        t.next.SetPrev(t.prev);
      }
    }

    method Isolate(t: Tcb, ghost i: nat, ghost before: seq<Links>)
      requires i < |tcbs| == |before| && tcbs[i] == t && LinkedAt(null, tcbs, before, i)
      modifies t
      ensures Views() == old(Views())
      ensures AllLinks() == old(AllLinks())[i := (null, null)]
    {
      t.SetPrev(null);
      t.SetNext(null);
    }

    method Skip(t: Tcb, ghost i: nat, ghost before: seq<Links>)
      requires i < |tcbs| == |before| && tcbs[i] == t && AllLinks() == before
      requires forall k :: 0 <= k < |tcbs| ==> LinkedAt(null, tcbs, before, k)
      modifies tcbs
      ensures Views() == old(Views()) && AllLinks()[i] == before[i] && AllLinks()[i := (null, null)] == Skipped(before, i)
    {
      SkipNext(t, i, before);
      SkipPrev(t, i, before);
      IsSkipped(before, i, AllLinks()[i := (null, null)]);
    }

    method Bypass(t: Tcb, ghost i: nat, ghost before: seq<Links>)
      requires i < |tcbs| == |before| && tcbs[i] == t && AllLinks() == before && head == tcbs[0]
      requires forall k :: 0 <= k < |tcbs| ==> LinkedAt(null, tcbs, before, k)
      modifies this`head, tcbs
      ensures Views() == old(Views()) && AllLinks() == Skipped(before, i)
      ensures head == if i > 0 then tcbs[0] else if |tcbs| > 1 then tcbs[1] else null
    {
      Skip(t, i, before);
      assert LinkedAt(null, tcbs, before, i);
      if head == t {
        head := t.next;
      }
      Isolate(t, i, before);
    }

    /** LL_REMOVE on the links. */
    method Unlink(t: Tcb, ghost i: nat)
      requires Valid() && i < |tcbs| && tcbs[i] == t
      modifies this`head, tcbs
      ensures Views() == old(Views())
      ensures Chain(null, head, tcbs[..i] + tcbs[i + 1..], AllLinks()[..i] + AllLinks()[i + 1..])
    {
      ghost var before := AllLinks();
      forall k | 0 <= k < |tcbs| ensures LinkedAt(null, tcbs, before, k) {
        ChainAt(null, head, tcbs, before, k);
      }
      Bypass(t, i, before);
      Unlinked(tcbs, before, i, tcbs[..i] + tcbs[i + 1..], AllLinks()[..i] + AllLinks()[i + 1..]);
    }

    method Forget(ghost i: nat)
      requires i < |tcbs|
      modifies this`tcbs
      ensures tcbs == old(tcbs)[..i] + old(tcbs)[i + 1..] && Views() == Without(old(Views()), i)
      ensures AllLinks() == old(AllLinks())[..i] + old(AllLinks())[i + 1..]
    {
      ghost var links, views := AllLinks(), Views();
      tcbs := tcbs[..i] + tcbs[i + 1..];
      IsWithout(AllLinks(), links, i);
      IsWithout(Views(), views, i);
    }

    /** LL_REMOVE */
    method Remove(t: Tcb, ghost i: nat)
      requires Valid() && i < |tcbs| && tcbs[i] == t
      modifies this, tcbs
      ensures Valid() && tcbs == old(tcbs)[..i] + old(tcbs)[i + 1..] && Views() == Without(old(Views()), i)
    {
      Unlink(t, i);
      Forget(i);
    }

    /** An update of one control block that leaves its links alone. */
    twostate lemma Updated(i: nat)
      requires old(Valid()) && tcbs == old(tcbs) && head == old(head) && i < |tcbs|
      requires forall k :: 0 <= k < |tcbs| && tcbs[k] != tcbs[i] ==> unchanged(tcbs[k])
      requires tcbs[i].Links() == old(tcbs[i].Links())
      ensures Valid() && Views() == old(Views())[i := tcbs[i].View()]
    {
      assert AllLinks() == old(AllLinks());
      ChainAt(null, head, tcbs, AllLinks(), i);
    }

    method Mark(t: Tcb, ghost i: nat, status: Status)
      requires Valid() && i < |tcbs| && tcbs[i] == t
      modifies t
      ensures Valid() && Views() == old(Views())[i := old(t.View()).(status := status)]
    {
      t.SetStatus(status);
      Updated(i);
    }

    lemma NextOf(i: nat)
      requires Valid() && i < |tcbs|
      ensures tcbs[i].next == if i + 1 < |tcbs| then tcbs[i + 1] else null
    {
      ChainAt(null, head, tcbs, AllLinks(), i);
    }

    /** Lines 1622-1629: the walk for an exact match. */
    method FindExact(sip: nat, dip: nat, sport: nat, dport: nat) returns (t: Tcb?, ghost i: nat)
      requires Valid()
      ensures t == At(ExactFrom(Views(), sip, dip, sport, dport))
      ensures i == ExactFrom(Views(), sip, dip, sport, dport)
    {
      t, i := head, 0;
      assert Views()[0..] == Views();
      while t != null
        invariant 0 <= i <= |tcbs| && t == if i < |tcbs| then tcbs[i] else null
        invariant ExactFrom(Views(), sip, dip, sport, dport) == i + ExactFrom(Views()[i..], sip, dip, sport, dport)
        decreases |tcbs| - i
      {
        ExactRest(Views(), i, sip, dip, sport, dport);
        if t.sip == sip && t.dip == dip && t.sport == sport && t.dport == dport {
          return;
        }
        NextOf(i);
        t, i := t.next, i + 1;
      }
    }

    /** Lines 1631-1637: the walk for a listener. */
    method FindListener(dport: nat) returns (t: Tcb?, ghost i: nat)
      requires Valid()
      ensures t == At(ListenerFrom(Views(), dport))
      ensures i == ListenerFrom(Views(), dport)
    {
      t, i := head, 0;
      assert Views()[0..] == Views();
      while t != null
        invariant 0 <= i <= |tcbs| && t == if i < |tcbs| then tcbs[i] else null
        invariant ListenerFrom(Views(), dport) == i + ListenerFrom(Views()[i..], dport)
        decreases |tcbs| - i
      {
        ListenerRest(Views(), i, dport);
        if t.dport == dport && t.status == Listen {
          return;
        }
        NextOf(i);
        t, i := t.next, i + 1;
      }
    }

    /** Lines 1617-1640. */
    method Find(sip: nat, dip: nat, sport: nat, dport: nat) returns (t: Tcb?, ghost i: nat)
      requires Valid()
      ensures t == At(Search(Views(), sip, dip, sport, dport))
      ensures i == Search(Views(), sip, dip, sport, dport)
    {
      t, i := FindExact(sip, dip, sport, dport);
      if t == null {
        t, i := FindListener(dport);
      }
    }

    /** Lines 905-932, for descriptors of TCP sockets. */
    method FindFd(fd: int) returns (t: Tcb?, ghost i: nat)
      requires Valid()
      ensures t == At(FromFd(Views(), fd))
      ensures i == FromFd(Views(), fd)
    {
      t, i := head, 0;
      while t != null
        invariant 0 <= i <= |tcbs| && t == if i < |tcbs| then tcbs[i] else null
        invariant FromFd(Views(), fd) == i + FromFd(Views()[i..], fd)
        decreases |tcbs| - i
      {
        if t.fd == fd {
          return;
        }
        assert Views()[i..][1..] == Views()[i + 1..];
        NextOf(i);
        t, i := t.next, i + 1;
      }
    }

    /** Lines 892-903. */
    method FindAcceptable(dport: nat) returns (t: Tcb?, ghost i: nat)
      requires Valid()
      ensures t == At(Acceptable(Views(), dport))
      ensures i == Acceptable(Views(), dport)
    {
      t, i := head, 0;
      while t != null
        invariant 0 <= i <= |tcbs| && t == if i < |tcbs| then tcbs[i] else null
        invariant Acceptable(Views(), dport) == i + Acceptable(Views()[i..], dport)
        decreases |tcbs| - i
      {
        if t.dport == dport && t.fd == -1 {
          return;
        }
        assert Views()[i..][1..] == Views()[i + 1..];
        NextOf(i);
        t, i := t.next, i + 1;
      }
    }
  }

  /** struct ng_tcp_table, the ARP table, the descriptors and the output ring. */
  class Stack {
    const list: TcbList
    const fds: FdTable

    var arp: seq<nat>
    var arpCount: nat
    var rings: set<string>  // the names that rte_ring_create knows
    var out: seq<OutPacket>
    ghost var wire: seq<OutPacket>
    var running: bool

    constructor ()
      ensures Valid() && State() == BOOT
      ensures fresh(list) && fresh(fds.used) && list.tcbs == []
    {
      list := new TcbList();
      fds := new FdTable();
      arp, arpCount, rings, out, wire, running := [], 0, {}, [], [], true;
    }

    ghost predicate Valid()
      reads this, list, list.tcbs
    {
      list.Valid() && fds.Valid()
    }

    ghost function State(): Net
      reads this, list, list.tcbs, fds.used
    {
      Net(list.Views(), arp, arpCount, fds.Fds(), rings, out, wire, running)
    }

    /** Lines 205-219: the walk along the ARP table, with the counter as a bound. */
    method ArpLookup(ip: nat) returns (found: bool)
      ensures found == ArpFind(arp, arpCount, ip)
    {
      var i, count := 0, arpCount;
      while count != 0 && i < |arp|
        invariant 0 <= i <= |arp| && 0 <= count && ArpFind(arp, arpCount, ip) == ArpFind(arp[i..], count, ip)
        decreases |arp| - i
      {
        if arp[i] == ip {
          return true;
        }
        assert arp[i..][1..] == arp[i + 1..];
        i, count := i + 1, count - 1;
      }
      found := false;
    }

    /** Lines 221-247. */
    method ArpLearn(ip: nat)
      modifies this`arp, this`arpCount
      ensures State() == ArpInsert(old(State()), ip)
    {
      var found := ArpLookup(ip);
      if !found {
        arp, arpCount := [ip] + arp, arpCount + 1;
      }
    }

    /** rte_ring_create: false when there is a ring of this name. */
    method CreateRing(name: string) returns (made: bool)
      modifies this`rings
      ensures made <==> name !in old(rings)
      ensures rings == old(rings) + {name}
    {
      made := name !in rings;
      rings := rings + {name};
    }

    method AddConnection(p: Packet, seed: nat)
      requires Valid()
      modifies list, list.tcbs
      ensures Valid() && State() == old(State()).(tcbs := [Created(p, seed)] + old(State()).tcbs)
      ensures forall t :: t in list.tcbs ==> t in old(list.tcbs) || fresh(t)
    {
      var t := new Tcb.Passive(p, seed);
      list.Add(t);
    }

    /** Lines 1687-1732: without its rings the enqueue for a new connection ends the program. */
    method OnListen(p: Packet, seed: nat)
      requires Valid()
      modifies this`rings, this`running, list, list.tcbs
      ensures Valid() && State() == if p.flags.syn then Connect(old(State()), p, seed) else old(State())
      ensures forall t :: t in list.tcbs ==> t in old(list.tcbs) || fresh(t)
    {
      if p.flags.syn {
        var made := CreateRing(RingName(p.sip, p.sport));
        if !made {
          assert rings == old(rings);
          running := false;
          return;
        }
        AddConnection(p, seed);
      }
    }

    /** Lines 1748-1752: the search that ends the program when it finds nothing. */
    method LookForListener(dport: nat)
      requires Valid()
      modifies this`running
      ensures State() == old(State()).(running := Search(State().tcbs, 0, 0, 0, dport) < |State().tcbs|)
    {
      var l, j := list.Find(0, 0, 0, dport);
      running := l != null;
    }

    /** Lines 1735-1763: the listener on the port is looked up, and a missing one ends the program. */
    method OnSynRcvd(t: Tcb, ghost i: nat, p: Packet)
      requires Valid() && i < |list.tcbs| && list.tcbs[i] == t
      modifies this`running, t
      ensures Valid()
      ensures !p.flags.ack ==> State() == old(State())
      ensures var now := old(State()).tcbs[i := old(t.View()).(status := Established)];
              p.flags.ack ==>
                State() == old(State()).(tcbs := now, running := Search(now, 0, 0, 0, old(t.dport)) < |now|)
    {
      if p.flags.ack {
        list.Mark(t, i, Established);
        LookForListener(t.dport);
      }
    }

    method Drop(t: Tcb, ghost i: nat)
      requires Valid() && i < |list.tcbs| && list.tcbs[i] == t
      modifies list, list.tcbs
      ensures Valid() && State() == old(State()).(tcbs := Without(old(State()).tcbs, i))
      ensures forall t :: t in list.tcbs ==> t in old(list.tcbs) || fresh(t)
    {
      list.Remove(t, i);
    }

    /** Lines 2012-2021. */
    method Free(t: Tcb, ghost i: nat)
      requires Valid() && i < |list.tcbs| && list.tcbs[i] == t
      modifies this`rings, list, list.tcbs
      ensures Valid()
      ensures State() == old(State()).(tcbs := Without(old(State()).tcbs, i),
                                       rings := old(rings) - {NameOf(old(State()).tcbs[i])})
      ensures forall t :: t in list.tcbs ==> t in old(list.tcbs) || fresh(t)
    {
      var name := if t.passive then RingName(t.sip, t.sport) else SOCKET_RING;
      assert name == NameOf(t.View());
      rings := rings - {name};
      Drop(t, i);
    }

    /** Lines 2031-2106. */
    method ProcessPacket(p: Packet, seed: nat)
      requires Valid()
      modifies this`running, this`rings, list, list.tcbs
      ensures Valid() && State() == Process(old(State()), p, seed)
      ensures forall t :: t in list.tcbs ==> t in old(list.tcbs) || fresh(t)
    {
      if !p.sumOk {
        return;
      }
      var t, i := list.Find(p.sip, p.dip, p.sport, p.dport);
      if t == null {
        return;
      }
      match t.status
      case Listen => OnListen(p, seed);
      case SynRcvd => OnSynRcvd(t, i, p);
      case Established =>
        t.OnEstablished(p);
        list.Updated(i);
      case LastAck =>
        if p.flags.ack {
          Free(t, i);
        }
      case CloseWait =>
      case Closed =>
    }

    /** The turn of the stream at place i of an output pass that started with `before` and `ring`. */
    method Turn(t: Tcb, ghost i: nat, ghost before: seq<Stream>, ghost ring: seq<OutPacket>)
      requires Valid() && i < |list.tcbs| == |before| && list.tcbs[i] == t && t.View() == before[i]
      requires out == OutRing(before[..i], arp, arpCount, ring)
      modifies this`out, t
      ensures Valid() && out == OutRing(before[..i + 1], arp, arpCount, ring)
      ensures list.Views()
           == old(list.Views())[i := OutTurn(before[i], arp, arpCount, OutRing(before[..i], arp, arpCount, ring)).0]
    {
      var known := ArpLookup(t.sip);
      out := t.TakeTurn(known, arp, arpCount, out);
      list.Updated(i);
      assert before[..i + 1][..i] == before[..i];
    }

    /** Lines 2191-2232: one turn for every stream. */
    method OutputPass()
      requires Valid()
      modifies this`out, list.tcbs
      ensures Valid() && State() == OutPass(old(State()))
    {
      ghost var before, ring := list.Views(), out;
      var t := list.head;
      ghost var i := 0;
      while t != null
        invariant 0 <= i <= |list.tcbs| == |before| && Valid()
        invariant t == if i < |list.tcbs| then list.tcbs[i] else null
        invariant out == OutRing(before[..i], arp, arpCount, ring)
        invariant forall k :: 0 <= k < |before| ==>
          list.Views()[k] ==
            if k < i then OutTurn(before[k], arp, arpCount, OutRing(before[..k], arp, arpCount, ring)).0 else before[k]
        decreases |list.tcbs| - i
      {
        Turn(t, i, before, ring);
        list.NextOf(i);
        t, i := t.next, i + 1;
      }
      assert before[..i] == before;
      assert list.Views() == OutPass(old(State())).tcbs;
    }

    /** Lines 718-742 and the UDP output: packets of other parts. */
    method OthersOut(k: nat)
      modifies this`out
      ensures State() == old(State()).(out := PutOthers(old(out), k))
    {
      var i := 0;
      while i < k
        invariant 0 <= i <= k && out == PutOthers(old(out), i)
      {
        if |out| < RING_ROOM {
          out := out + [OtherPacket];
        }
        i := i + 1;
      }
    }

    /** Lines 1182-1216. */
    method AddSocket(fd: int)
      requires Valid()
      modifies list, list.tcbs
      ensures Valid() && State() == old(State()).(tcbs := [NewSocket(fd)] + old(State()).tcbs)
      ensures forall t :: t in list.tcbs ==> t in old(list.tcbs) || fresh(t)
    {
      var t := new Tcb.Socket(fd);
      list.Add(t);
    }

    method MakeSocket(fd: int) returns (made: bool)
      requires Valid()
      modifies this`rings, list, list.tcbs
      ensures Valid() && (made <==> SOCKET_RING !in old(rings))
      ensures State() == if SOCKET_RING in old(rings) then old(State())
                         else old(State()).(tcbs := [NewSocket(fd)] + old(State()).tcbs,
                                            rings := old(rings) + {SOCKET_RING})
      ensures forall t :: t in list.tcbs ==> t in old(list.tcbs) || fresh(t)
    {
      made := CreateRing(SOCKET_RING);
      if made {
        AddSocket(fd);
      } else {
        assert rings == old(rings);
      }
    }

    /** Lines 1138-1221 for SOCK_STREAM; -1 when the rings cannot be made. */
    method Socket() returns (fd: int)
      requires Valid()
      modifies this`rings, list, list.tcbs, fds.used
      ensures Valid() && State() == NSocket(old(State()))
      ensures fd == if SOCKET_RING in old(rings) then -1 else FreeFd(old(State()).fds, FIRST_FD)
      ensures forall t :: t in list.tcbs ==> t in old(list.tcbs) || fresh(t)
    {
      fd := fds.Take();
      var made := MakeSocket(fd);
      if !made {
        fd := -1;
      }
    }

    /** Lines 1239-1246. */
    method Bind(fd: int, ip: nat, port: nat)
      requires Valid()
      modifies list.tcbs
      ensures Valid() && State() == NBind(old(State()), fd, ip, port)
    {
      var t, i := list.FindFd(fd);
      if t != null {
        t.SetAddress(ip, port);
        list.Updated(i);
      }
    }

    /** Lines 1255-1267. */
    method Listening(fd: int)
      requires Valid()
      modifies list.tcbs
      ensures Valid() && State() == NListen(old(State()), fd)
    {
      var t, i := list.FindFd(fd);
      if t != null {
        list.Mark(t, i, Listen);
      }
    }

    method GiveFd(a: Tcb, ghost j: nat) returns (fd': int)
      requires Valid() && j < |list.tcbs| && list.tcbs[j] == a
      modifies fds.used, a
      ensures Valid() && fd' == FreeFd(old(State()).fds, FIRST_FD)
      ensures State() == old(State()).(tcbs := old(State()).tcbs[j := old(a.View()).(fd := fd')],
                                       fds := if fd' >= 0 then old(State()).fds + {fd'} else old(State()).fds)
    {
      fd' := fds.Take();
      a.SetFd(fd');
      list.Updated(j);
    }

    method AcceptOn(dport: nat) returns (conn: Option<int>)
      requires Valid()
      modifies fds.used, list.tcbs
      ensures Valid()
      ensures var n := old(State()); var a, fd' := Acceptable(n.tcbs, dport), FreeFd(n.fds, FIRST_FD);
              if a < |n.tcbs| then
                && conn == Some(fd')
                && State() == n.(tcbs := n.tcbs[a := n.tcbs[a].(fd := fd')],
                                 fds := if fd' >= 0 then n.fds + {fd'} else n.fds)
              else conn == None && State() == n
    {
      conn := None;
      var a, j := list.FindAcceptable(dport);
      if a != null {
        var fd' := GiveFd(a, j);
        conn := Some(fd');
      }
    }

    /** Lines 1270-1296, without the wait: None when the call would block or the socket is unknown. */
    method Accept(fd: int) returns (conn: Option<int>)
      requires Valid()
      modifies fds.used, list.tcbs
      ensures Valid() && State() == NAccept(old(State()), fd)
      ensures var n := old(State()); var i := FromFd(n.tcbs, fd);
              conn == if i < |n.tcbs| && Acceptable(n.tcbs, n.tcbs[i].dport) < |n.tcbs|
                      then Some(FreeFd(n.fds, FIRST_FD)) else None
    {
      conn := None;
      var t, i := list.FindFd(fd);
      if t != null {
        conn := AcceptOn(t.dport);
      }
    }

    /** Lines 1299-1345. */
    method SendTo(fd: int, buf: seq<Byte>)
      requires Valid()
      modifies list.tcbs
      ensures Valid() && State() == NSend(old(State()), fd, buf)
    {
      var t, i := list.FindFd(fd);
      if t != null {
        t.Enqueue(Fragment(t.dport, t.sport, t.sndNxt, t.rcvNxt, Flags(false, true, true, false), buf));
        list.Updated(i);
      }
    }

    /** Lines 1349-1403, without the wait: None when the call would block or the socket is unknown. */
    method RecvFrom(fd: int, len: nat) returns (r: Option<(seq<Byte>, nat)>)
      requires Valid()
      modifies list.tcbs
      ensures Valid() && State() == NRecv(old(State()), fd, len)
      ensures var n := old(State()); var i := FromFd(n.tcbs, fd);
              if i < |n.tcbs| && n.tcbs[i].rcvbuf != [] then
                var s := n.tcbs[i];
                r == Some((s.rcvbuf[0][..Min(len, |s.rcvbuf[0]|)], RecvLength(s, len)))
              else r == None
    {
      r := None;
      var t, i := list.FindFd(fd);
      if t != null && t.rcvbuf != [] {
        var buf, length := t.Recv(len);
        list.Updated(i);
        r := Some((buf, length));
      }
    }

    /** Lines 1518-1542. */
    method Finish(t: Tcb, ghost i: nat, fd: int)
      requires Valid() && i < |list.tcbs| && list.tcbs[i] == t
      modifies t, fds.used
      ensures Valid()
      ensures State() == old(State()).(tcbs := old(State()).tcbs[i := CloseStream(old(t.View()))],
                                       fds := if fd >= 0 then old(State()).fds - {fd} else old(State()).fds)
    {
      t.SendFin();
      list.Updated(i);
      if fd >= 0 {
        fds.Release(fd);
      }
    }

    /** Lines 1494-1555 for TCP. */
    method CloseFd(fd: int)
      requires Valid()
      modifies list, list.tcbs, fds.used
      ensures Valid() && State() == NClose(old(State()), fd)
      ensures forall t :: t in list.tcbs ==> t in old(list.tcbs) || fresh(t)
    {
      var t, i := list.FindFd(fd);
      if t != null {
        if t.status != Listen {
          Finish(t, i, fd);
        } else {
          Drop(t, i);
        }
      }
    }

    /** A call of the application. */
    method Call(e: Event)
      requires Valid() && running && !(e.Arrive? || e.Other? || e.Out? || e.Others? || e.Drain?)
      modifies this`rings, list, list.tcbs, fds.used
      ensures Valid() && State() == Next(old(State()), e)
      ensures forall t :: t in list.tcbs ==> t in old(list.tcbs) || fresh(t)
    {
      match e
      case Socket => var fd := Socket();
      case Bind(fd, ip, port) => Bind(fd, ip, port);
      case Listening(fd) => Listening(fd);
      case Accept(fd) => var conn := Accept(fd);
      case Sending(fd, buf) => SendTo(fd, buf);
      case Receiving(fd, len) => var r := RecvFrom(fd, len);
      case Close(fd) => CloseFd(fd);
    }

    /** One step of the transition system, done in place. */
    method Step(e: Event)
      requires Valid()
      modifies this, list, list.tcbs, fds.used
      ensures Valid() && State() == Next(old(State()), e)
      ensures forall t :: t in list.tcbs ==> t in old(list.tcbs) || fresh(t)
    {
      if running {
        match e
        case Arrive(p, seed) =>
          ArpLearn(p.sip);
          ProcessPacket(p, seed);
        case Other(sip) => ArpLearn(sip);
        case Out => OutputPass();
        case Others(k) => OthersOut(k);
        case Drain =>
          var k := Min(BURST_SIZE, |out|);
          out, wire := out[k..], wire + out[..k];
        case _ => Call(e);
      }
    }

    method StepAt(events: seq<Event>, i: nat)
      requires Valid() && i < |events| && State() == After(events[..i])
      modifies this, list, list.tcbs, fds.used
      ensures Valid() && State() == After(events[..i + 1])
      ensures forall t :: t in list.tcbs ==> t in old(list.tcbs) || fresh(t)
    {
      Step(events[i]);
      AfterStep(events[..i], events[i]);
      assert events[..i + 1] == events[..i] + [events[i]];
    }

    /** The stack driven by any sequence of events is the transition system's run. */
    method Run(events: seq<Event>)
      requires Valid() && State() == BOOT
      modifies this, list, list.tcbs, fds.used
      ensures Valid() && State() == After(events)
    {
      var i := 0;
      while i < |events|
        invariant 0 <= i <= |events| && Valid() && State() == After(events[..i])
        invariant forall k :: 0 <= k < |list.tcbs| ==> list.tcbs[k] in old(list.tcbs) || fresh(list.tcbs[k])
      {
        ghost var before := list.tcbs;
        assert forall t :: t in before ==> t in old(list.tcbs) || fresh(t);
        StepAt(events, i);
        assert forall k :: 0 <= k < |list.tcbs| ==> list.tcbs[k] in list.tcbs;
        i := i + 1;
      }
      assert events[..i] == events;
    }
  }
}

/** Packet buffers as the harness uses them: a chain of segments, each with a fixed data room of
    which the first `dataLen` bytes are in use, and a packet length kept in the head. */
module Mbuf {
  import opened Bytes

  datatype Segment = Segment(dataLen: nat, room: seq<Byte>)

  type Seg = s: Segment | s.dataLen <= |s.room| witness Segment(0, [])

  datatype Chain = Chain(pktLen: nat, segs: seq<Seg>)

  /** The used bytes of the segments, in chain order. */
  function Used(segs: seq<Seg>): seq<Byte> {
    if segs == [] then [] else segs[0].room[..segs[0].dataLen] + Used(segs[1..])
  }

  /** The packet a reader sees: as many used bytes as the packet length announces. */
  predicate Readable(c: Chain) { c.pktLen <= |Used(c.segs)| }

  function Packet(c: Chain): (p: seq<Byte>)
    requires Readable(c)
    ensures |p| == c.pktLen
  {
    Used(c.segs)[..c.pktLen]
  }

  /** All segments have the same room, as the ones of one pool have. */
  predicate Uniform(segs: seq<Seg>, segSz: nat) {
    forall i :: 0 <= i < |segs| ==> |segs[i].room| == segSz
  }

  predicate Full(segs: seq<Seg>) {
    forall i :: 0 <= i < |segs| ==> segs[i].dataLen == |segs[i].room|
  }

  /** Lines 173-179: all lengths of an output chain are set back to the whole room. */
  function Reset(c: Chain, segSz: nat): (r: Chain)
    ensures Full(r.segs) && |r.segs| == |c.segs| && r.pktLen == segSz * |c.segs|
    ensures forall n: nat :: Uniform(c.segs, n) ==> Uniform(r.segs, n)
  {
    Chain(segSz * |c.segs|,
          seq(|c.segs|, i requires 0 <= i < |c.segs| => Segment(|c.segs[i].room|, c.segs[i].room)))
  }

  /** The device stores `data` from the start of the chain, filling one room after the other. */
  function Store(segs: seq<Seg>, data: seq<Byte>): (r: seq<Seg>)
    ensures |r| == |segs|
    ensures forall i :: 0 <= i < |segs| ==> |r[i].room| == |segs[i].room| && r[i].dataLen == segs[i].dataLen
  {
    if segs == [] then []
    else
      var n := Min(|segs[0].room|, |data|);
      [Segment(segs[0].dataLen, data[..n] + segs[0].room[n..])] + Store(segs[1..], data[n..])
  }

  /** Lines 261-273: `remaining` bytes are shared out, at most segSz to a segment. */
  function SetLengths(segs: seq<Seg>, remaining: nat, segSz: nat): (r: seq<Seg>)
    requires Uniform(segs, segSz)
    ensures |r| == |segs| && Uniform(r, segSz)
  {
    if segs == [] || remaining == 0 then segs
    else
      var n := Min(remaining, segSz);
      [Segment(n, segs[0].room)] + SetLengths(segs[1..], remaining - n, segSz)
  }

  lemma {:induction false} FullLength(segs: seq<Seg>, segSz: nat)
    requires Uniform(segs, segSz) && Full(segs)
    ensures |Used(segs)| == segSz * |segs|
  {
    if segs == [] {
    } else {
      FullLength(segs[1..], segSz);
      assert |Used(segs)| == segSz + segSz * (|segs| - 1);
    }
  }

  lemma PrefixOfSum(a: seq<Byte>, b: seq<Byte>, k: nat)
    requires k <= |b|
    ensures (a + b)[..|a| + k] == a + b[..k]
  {
  }

  lemma PrefixInHead(a: seq<Byte>, b: seq<Byte>, k: nat)
    requires k <= |a|
    ensures (a + b)[..k] == a[..k]
  {
  }

  lemma HeadThenRest(r: seq<Seg>, data: seq<Byte>, n: nat)
    requires r != [] && n <= |data| && r[0].dataLen == n <= |r[0].room| && r[0].room[..n] == data[..n]
    requires |data| - n <= |Used(r[1..])|
    requires Used(r[1..])[..|data| - n] == data[n..]
    ensures |data| <= |Used(r)| && Used(r)[..|data|] == data
  {
    assert Used(r) == data[..n] + Used(r[1..]);
    PrefixOfSum(data[..n], Used(r[1..]), |data| - n);
  }

  /** What the device stored in a reset chain is what a read of that many bytes returns. */
  lemma {:induction false} StoreThenRead(segs: seq<Seg>, data: seq<Byte>)
    requires Full(segs) && |data| <= |Used(segs)|
    ensures |Used(Store(segs, data))| == |Used(segs)|
    ensures Used(Store(segs, data))[..|data|] == data
  {
    if segs == [] {
    } else {
      var n := Min(|segs[0].room|, |data|);
      var r := Store(segs, data);
      var head, rest := r[0].room, Used(r[1..]);
      assert r[1..] == Store(segs[1..], data[n..]);
      StoreThenRead(segs[1..], data[n..]);
      assert head[..r[0].dataLen] == head;
      assert Used(r) == head + rest;
      if n < |data| {
        HeadThenRest(r, data, n);
      } else {
        PrefixInHead(head, rest, |data|);
      }
    }
  }

  /** After the lengths are set to what was produced, the packet is exactly the stored data. */
  lemma {:induction false} StoreThenSetLengths(segs: seq<Seg>, data: seq<Byte>, segSz: nat)
    requires Uniform(segs, segSz) && Full(segs) && |data| <= |Used(segs)|
    ensures Uniform(Store(segs, data), segSz)
    ensures var r := SetLengths(Store(segs, data), |data|, segSz);
            |data| <= |Used(r)| && Used(r)[..|data|] == data
  {
    if segs == [] || data == [] {
    } else {
      var n := Min(segSz, |data|);
      var stored := Store(segs, data);
      assert stored[1..] == Store(segs[1..], data[n..]);
      StoreThenSetLengths(segs[1..], data[n..], segSz);
      var r := SetLengths(stored, |data|, segSz);
      assert r[1..] == SetLengths(stored[1..], |data| - n, segSz);
      HeadThenRest(r, data, n);
    }
  }

  lemma TakeSegment(segs: seq<Seg>, k: nat, left: nat)
    requires k <= |segs| && 0 < left <= |Used(segs[k..])|
    ensures k < |segs|
    ensures var copy := Min(segs[k].dataLen, left);
      && left - copy <= |Used(segs[k + 1..])|
      && Used(segs[k..])[..left] == segs[k].room[..copy] + Used(segs[k + 1..])[..left - copy]
  {
    assert segs[k..][1..] == segs[k + 1..];
    assert Used(segs[k..]) == segs[k].room[..segs[k].dataLen] + Used(segs[k + 1..]);
  }

  /** rte_pktmbuf_read with offset 0: the head's bytes when they suffice, nothing when the packet
      is too short, and otherwise a copy gathered segment by segment. */
  method PktmbufRead(c: Chain, len: nat) returns (r: Option<seq<Byte>>)
    requires c.segs != [] && (len <= c.pktLen ==> len <= |Used(c.segs)|)
    ensures r.None? <==> c.segs[0].dataLen < len && c.pktLen < len
    ensures r.Some? ==> len <= |Used(c.segs)| && r.value == Used(c.segs)[..len]
  {
    if len <= c.segs[0].dataLen {
      assert Used(c.segs)[..len] == c.segs[0].room[..len];
      return Some(c.segs[0].room[..len]);
    }
    if c.pktLen < len {
      return None;
    }
    var buf: seq<Byte>, k := [], 0;
    var left: nat := len;
    assert c.segs[0..] == c.segs;
    while left > 0
      invariant 0 <= k <= |c.segs| && left <= |Used(c.segs[k..])|
      invariant len - left == |buf| && buf + Used(c.segs[k..])[..left] == Used(c.segs)[..len]
      decreases |c.segs| - k
    {
      var copy := Min(c.segs[k].dataLen, left);
      TakeSegment(c.segs, k, left);
      Assoc(buf, c.segs[k].room[..copy], Used(c.segs[k + 1..])[..left - copy]);
      buf := buf + c.segs[k].room[..copy];
      left := left - copy;
      k := k + 1;
    }
    return Some(buf);
  }

  lemma {:induction false} UsedAppend(segs: seq<Seg>, last: Seg)
    ensures Used(segs + [last]) == Used(segs) + last.room[..last.dataLen]
  {
    if segs == [] {
      assert segs + [last] == [last];
      assert Used([last]) == last.room[..last.dataLen] + Used([]);
    } else {
      assert (segs + [last])[1..] == segs[1..] + [last];
      UsedAppend(segs[1..], last);
    }
  }

  /** The packets of a row of chains, one after the other. */
  function Packets(chains: seq<Chain>): seq<Byte>
    requires forall i :: 0 <= i < |chains| ==> Readable(chains[i])
  {
    if chains == [] then []
    else Packets(chains[..|chains| - 1]) + Packet(chains[|chains| - 1])
  }
}

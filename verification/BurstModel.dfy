/** What one pass of the compression harness over its buffers keeps, step by step. */
module BurstModel {
  import opened Bytes
  import opened Mbuf

  ghost predicate NoDup(s: seq<nat>) {
    forall i, j :: 0 <= i < j < |s| ==> s[i] != s[j]
  }

  /** 0, 1, ..., n - 1. */
  function Iota(n: nat): (s: seq<nat>)
    ensures |s| == n && forall i :: 0 <= i < n ==> s[i] == i
  {
    seq(n, i => i)
  }

  function AllOps(n: nat): set<nat> { set i: nat | i in Iota(n) }

  lemma {:induction false} AllOpsSize(n: nat)
    ensures |AllOps(n)| == n
  {
    if n == 0 {
    } else {
      forall i: nat ensures i in AllOps(n) <==> i in AllOps(n - 1) || i == n - 1 {
        assert i < n <==> i in Iota(n) by { if i < n { assert Iota(n)[i] == i; } }
        assert i < n - 1 <==> i in Iota(n - 1) by { if i < n - 1 { assert Iota(n - 1)[i] == i; } }
      }
      assert AllOps(n) == AllOps(n - 1) + {n - 1};
      AllOpsSize(n - 1);
    }
  }

  // ---------------------------------------------------------------- the state of one pass

  /** What stays fixed during a pass: buffer i is to become produced[i], in a chain of nbSegs[i]
      segments of segSz bytes. */
  datatype Job = Job(segSz: nat, nbSegs: seq<nat>, produced: seq<seq<Byte>>, gather: bool, last: bool) {
    function Total(): nat { |produced| }

    predicate Proper() { 0 < segSz && |nbSegs| == |produced| && forall i :: 0 <= i < |nbSegs| ==> 0 < nbSegs[i] }

    predicate Fits(i: nat)
      requires i < |produced| == |nbSegs|
    {
      |produced[i]| <= segSz * nbSegs[i]
    }

    /** The results of the first k buffers, one after the other. */
    function Flat(k: nat): seq<Byte>
      requires k <= |produced|
    {
      if k == 0 then [] else Flat(k - 1) + produced[k - 1]
    }
  }

  /** The moving parts.  `bufs[x]` is the buffer that operation x points at. */
  datatype Pass = Pass(
    inflight: seq<nat>,   // operations the device has, oldest first
    leftover: seq<nat>,   // operations refused by the last burst
    free: set<nat>,       // the operation pool
    bufs: seq<nat>,
    chains: seq<Chain>,   // the output buffers
    enq: nat, deq: nat,   // total_enq_ops, total_deq_ops
    submitted: seq<nat>,  // buffers in the order the device took them
    written: seq<Byte>)   // output_data so far
  {
    function Held(): seq<nat> { inflight + leftover }
  }

  /** The pool: every operation is free or held once, and the j-th held one points at the
      buffer due in its turn. */
  ghost predicate Pool(p: Pass, total: nat) {
    && |p.bufs| == total
    && NoDup(p.Held())
    && |p.free| + |p.Held()| == total
    && (forall x :: x in p.free ==> x < total)
    && (forall j :: 0 <= j < |p.Held()| ==>
        p.Held()[j] < total && p.Held()[j] !in p.free && p.bufs[p.Held()[j]] == p.deq + j)
  }

  predicate Shaped(c: Chain, n: nat, segSz: nat) { |c.segs| == n && Uniform(c.segs, segSz) }

  /** A chain as it is handed to the device. */
  predicate Ready(c: Chain, segSz: nat) { Full(c.segs) && c.pktLen == segSz * |c.segs| }

  ghost predicate Delivered(c: Chain, data: seq<Byte>) { Readable(c) && Packet(c) == data }

  ghost predicate Chains(j: Job, p: Pass)
    requires j.Proper()
  {
    && |p.chains| == j.Total() && p.enq + |p.leftover| <= j.Total() && p.deq <= p.enq
    && (forall i :: 0 <= i < j.Total() ==> Shaped(p.chains[i], j.nbSegs[i], j.segSz))
    && (forall i :: p.deq <= i < p.enq + |p.leftover| ==> Ready(p.chains[i], j.segSz))
    && (j.gather || j.last ==> forall i :: 0 <= i < p.deq ==> j.Fits(i))
    && (j.last ==> forall i :: 0 <= i < p.deq ==> Delivered(p.chains[i], j.produced[i]))
    && (j.gather ==> p.written == j.Flat(p.deq))
  }

  ghost predicate Good(j: Job, p: Pass) {
    && j.Proper() && Pool(p, j.Total())
    && p.enq == p.deq + |p.inflight|
    && Chains(j, p)
    && p.submitted == Iota(p.enq)
  }

  /** Lines 154-189 for one operation x of the pool. */
  function Attach(j: Job, p: Pass, x: nat): Pass
    requires |p.chains| > p.enq + |p.leftover| && x < |p.bufs|
  {
    var buf := p.enq + |p.leftover|;
    p.(free := p.free - {x}, leftover := p.leftover + [x], bufs := p.bufs[x := buf],
       chains := p.chains[buf := Reset(p.chains[buf], j.segSz)])
  }

  lemma AttachPool(j: Job, p: Pass, x: nat)
    requires Pool(p, j.Total()) && p.enq == p.deq + |p.inflight|
    requires |p.chains| > p.enq + |p.leftover| && x in p.free
    ensures Pool(Attach(j, p, x), j.Total())
  {
    assert Attach(j, p, x).Held() == p.Held() + [x];
  }

  lemma AttachGood(j: Job, p: Pass, x: nat)
    requires Good(j, p) && p.enq + |p.leftover| < j.Total() && x in p.free
    ensures Good(j, Attach(j, p, x))
  {
    AttachPool(j, p, x);
  }

  /** The buffers that these operations point at. */
  function BufsOf(ops: seq<nat>, bufs: seq<nat>): seq<nat>
    requires forall i :: 0 <= i < |ops| ==> ops[i] < |bufs|
  {
    seq(|ops|, i requires 0 <= i < |ops| => bufs[ops[i]])
  }

  /** Lines 194-209: the device takes the first k leftovers. */
  function Accept(p: Pass, k: nat): Pass
    requires k <= |p.leftover| && forall i :: 0 <= i < k ==> p.leftover[i] < |p.bufs|
  {
    p.(inflight := p.inflight + p.leftover[..k], leftover := p.leftover[k..], enq := p.enq + k,
       submitted := p.submitted + BufsOf(p.leftover[..k], p.bufs))
  }

  lemma LeftoverBufs(p: Pass, total: nat)
    requires Pool(p, total) && p.enq == p.deq + |p.inflight|
    ensures forall i :: 0 <= i < |p.leftover| ==>
              p.leftover[i] < total && p.bufs[p.leftover[i]] == p.enq + i
  {
    forall i | 0 <= i < |p.leftover|
      ensures p.leftover[i] < total && p.bufs[p.leftover[i]] == p.enq + i
    {
      assert p.Held()[|p.inflight| + i] == p.leftover[i];
    }
  }

  lemma AcceptGood(j: Job, p: Pass, k: nat)
    requires Good(j, p) && k <= |p.leftover|
    ensures forall i :: 0 <= i < |p.leftover| ==> p.leftover[i] < |p.bufs|
    ensures Good(j, Accept(p, k)) && Accept(p, k).Held() == p.Held()
  {
    LeftoverBufs(p, j.Total());
    assert Accept(p, k).Held() == p.Held();
  }

  /** Lines 217-278 for the oldest operation: its buffer has become c, and it goes back. */
  function Collect(j: Job, p: Pass, c: Chain): Pass
    requires p.inflight != [] && p.deq < |p.chains| && p.deq < |j.produced|
  {
    p.(inflight := p.inflight[1..], free := p.free + {p.inflight[0]}, deq := p.deq + 1,
       chains := p.chains[p.deq := c], written := if j.gather then p.written + j.produced[p.deq] else p.written)
  }

  lemma CollectPool(j: Job, p: Pass, c: Chain)
    requires Pool(p, j.Total()) && p.inflight != [] && p.deq < |p.chains| && p.deq < |j.produced|
    ensures Pool(Collect(j, p, c), j.Total())
    ensures p.inflight[0] < j.Total() && p.bufs[p.inflight[0]] == p.deq
  {
    assert p.Held()[0] == p.inflight[0];
    assert Collect(j, p, c).Held() == p.Held()[1..];
  }

  lemma CollectChains(j: Job, p: Pass, c: Chain)
    requires j.Proper() && Chains(j, p) && p.inflight != [] && p.enq == p.deq + |p.inflight|
    requires Shaped(c, j.nbSegs[p.deq], j.segSz)
    requires j.gather || j.last ==> j.Fits(p.deq)
    requires j.last ==> Delivered(c, j.produced[p.deq])
    ensures Chains(j, Collect(j, p, c))
  {
  }

  lemma CollectGood(j: Job, p: Pass, c: Chain)
    requires Good(j, p) && p.inflight != []
    requires Shaped(c, j.nbSegs[p.deq], j.segSz)
    requires j.gather || j.last ==> j.Fits(p.deq)
    requires j.last ==> Delivered(c, j.produced[p.deq])
    ensures Good(j, Collect(j, p, c))
    ensures p.bufs[p.inflight[0]] == p.deq
  {
    CollectPool(j, p, c);
    CollectChains(j, p, c);
  }

  /** Between two passes the counters start again; the pool is as it was left. */
  function Restart(p: Pass): Pass { p.(enq := 0, deq := 0, submitted := []) }

  lemma RestartGood(j: Job, p: Pass, last: bool)
    requires Good(j, p) && p.Held() == [] && !j.gather
    ensures Good(j.(last := last), Restart(p))
  {
  }

  predicate FitUpTo(j: Job, k: nat)
    requires j.Proper() && k <= j.Total()
  {
    forall i :: 0 <= i < k ==> j.Fits(i)
  }

  predicate AllFit(j: Job)
    requires j.Proper()
  {
    FitUpTo(j, j.Total())
  }

  /** The output area holds whatever can be written before a buffer turns out too small. */
  ghost predicate Roomy(j: Job, room: nat)
    requires j.Proper()
  {
    j.gather ==> forall k | 0 <= k <= j.Total() :: FitUpTo(j, k) ==> |j.Flat(k)| <= room
  }

  /** What the next collected operation needs to know. */
  lemma NextDue(j: Job, p: Pass, room: nat)
    requires Good(j, p) && p.inflight != [] && Roomy(j, room)
    ensures p.deq < j.Total() == |p.bufs| == |p.chains|
    ensures p.inflight[0] < |p.bufs| && p.bufs[p.inflight[0]] == p.deq
    ensures Shaped(p.chains[p.deq], j.nbSegs[p.deq], j.segSz) && Ready(p.chains[p.deq], j.segSz)
    ensures j.gather && j.Fits(p.deq) ==> |p.written| + |j.produced[p.deq]| <= room
  {
    CollectPool(j, p, Chain(0, []));
    if j.gather && j.Fits(p.deq) {
      assert |j.Flat(p.deq + 1)| <= room;
    }
  }

  lemma SameFit(j: Job, last: bool)
    requires j.Proper()
    ensures AllFit(j.(last := last)) <==> AllFit(j)
  {
    forall i | 0 <= i < j.Total() ensures j.(last := last).Fits(i) <==> j.Fits(i) {
    }
  }
}

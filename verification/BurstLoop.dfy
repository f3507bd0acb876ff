/** The burst loop of the compression harness (main_loop of the verify and the benchmark test).

    The device is an adversary: it accepts any part of a burst and gives back any part of what it
    holds, oldest first. */
module BurstLoop {
  import opened Bytes
  import opened Script
  import opened Mbuf
  import opened BurstModel

  /** A queue pair.  `script` holds its answers to come. */
  class Device {
    var inflight: seq<nat>  // operations, oldest first
    var script: seq<nat>
    ghost var seen: seq<nat>  // the buffers of all operations it ever accepted, in order

    constructor (script: seq<nat>)
      ensures inflight == [] && this.script == script && seen == []
    {
      inflight, this.script, seen := [], script, [];
    }

    /** `bufs` says at which buffer each operation points. */
    method EnqueueBurst(ops: array<nat>, n: nat, ghost bufs: seq<nat>) returns (k: nat)
      requires n <= ops.Length && forall i :: 0 <= i < n ==> ops[i] < |bufs|
      modifies this
      ensures k <= n && inflight == old(inflight) + ops[..k]
      ensures seen == old(seen) + BufsOf(ops[..k], bufs)
      ensures |script| <= |old(script)| && (k < n ==> |script| < |old(script)|)
    {
      var reply := Answer(script, n);
      k, script := reply.k, reply.rest;
      inflight := inflight + ops[..k];
      seen := seen + BufsOf(ops[..k], bufs);
    }

    method DequeueBurst(limit: nat) returns (burst: seq<nat>)
      modifies this
      ensures |burst| <= limit && burst + inflight == old(inflight) && seen == old(seen)
      ensures |script| <= |old(script)|
      ensures burst == [] && 0 < limit && inflight != [] ==> |script| < |old(script)|
    {
      var reply := Answer(script, Min(limit, |inflight|));
      burst, inflight, script := inflight[..reply.k], inflight[reply.k..], reply.rest;
    }
  }

  /** Lines 261-273 of the verify test. */
  method SetChainLengths(segs: seq<Seg>, produced: nat, segSz: nat) returns (r: seq<Seg>)
    requires 0 < segSz && Uniform(segs, segSz) && produced <= segSz * |segs|
    ensures r == SetLengths(segs, produced, segSz)
  {
    var done: seq<Seg>, rest := [], segs;
    var remaining: nat := produced;
    while remaining > 0
      invariant Uniform(rest, segSz) && remaining <= segSz * |rest|
      invariant done + SetLengths(rest, remaining, segSz) == SetLengths(segs, produced, segSz)
      decreases |rest|
    {
      var n := Min(remaining, segSz);
      assert segSz * |rest| == segSz * (|rest| - 1) + segSz;
      done := done + [Segment(n, rest[0].room)];
      rest := rest[1..];
      remaining := remaining - n;
    }
    r := done + rest;
  }

  /** All buffers, in order, n times over. */
  function Passes(n: nat, total: nat): seq<nat> {
    if n == 0 then [] else Passes(n - 1, total) + Iota(total)
  }

  /** The local state of main_loop.  `ops` is the burst being assembled, `pending` what is left to
      look at of the burst just given back (deq_ops). */
  class Run {
    const burst: nat
    const segSz: nat
    const gather: bool                          // the verify test copies the results out
    const codec: (nat, seq<Byte>) -> seq<Byte>  // what the device makes of a buffer's data
    const src: seq<Chain>
    const total: nat
    const room: nat                             // size of the output area
    const dev: Device
    const ops: array<nat>

    var last: bool           // lengths are set in the last iteration only
    var free: set<nat>       // the operation pool
    var drawn: nat           // allocated
    var bufs: seq<nat>       // the buffer each operation points at
    var chains: seq<Chain>   // the output buffers
    var base: nat            // index of the first leftover in ops (num_enq)
    var unused: nat
    var pending: seq<nat>
    var totalEnq: nat
    var totalDeq: nat
    var written: seq<Byte>   // the output area up to output_data_ptr
    ghost var mark: seq<nat>       // what the device had accepted before this pass
    ghost var submitted: seq<nat>  // and what it has accepted in it
    ghost var job: Job

    constructor (burst: nat, segSz: nat, gather: bool, codec: (nat, seq<Byte>) -> seq<Byte>, dev: Device,
                 src: seq<Chain>, dst: seq<Chain>, room: nat, last: bool, ghost job: Job)
      requires 0 < burst && dev.inflight == [] && |src| == |dst| == job.Total()
      requires job.Proper() && job.segSz == segSz && job.gather == gather && job.last == last
      requires Roomy(job, room)
      requires forall i :: 0 <= i < |src| ==> Readable(src[i]) && codec(i, Packet(src[i])) == job.produced[i]
      requires forall i :: 0 <= i < |dst| ==> Shaped(dst[i], job.nbSegs[i], segSz)
      ensures Valid() && pending == [] && unused == 0 && submitted == []
      ensures fresh(ops) && this.dev == dev && this.job == job && this.room == room && total == job.Total()
    {
      this.burst, this.segSz, this.gather, this.codec, this.dev := burst, segSz, gather, codec, dev;
      this.src, this.room, this.last, this.job, total := src, room, last, job, |src|;
      ops := new nat[|src|];
      chains, bufs, free := dst, seq(|src|, _ => 0), AllOps(|src|);
      drawn, base, unused, totalEnq, totalDeq, pending, written, submitted := 0, 0, 0, 0, 0, [], [], [];
      mark := dev.seen;
      new;
      AllOpsSize(|src|);
    }

    /** What the methods below leave alone: the options, the inputs and the codec's results. */
    ghost predicate Fixed()
      reads this`job, this`last
    {
      && 0 < burst && job.Proper() && job.segSz == segSz && job.gather == gather && job.last == last
      && |src| == total == job.Total() && Roomy(job, room)
      && (forall i :: 0 <= i < total ==> Readable(src[i]) && codec(i, Packet(src[i])) == job.produced[i])
    }

    /** The leftovers lie inside `ops`. */
    ghost predicate Laid()
      reads this`base, this`unused
    {
      base + unused <= total == ops.Length
    }

    ghost function View(): Pass
      reads this, dev, ops
      requires Laid()
    {
      Pass(pending + dev.inflight, ops[base..base + unused],
           free, bufs, chains, totalEnq, totalDeq, submitted, written)
    }

    /** Lines 146-151: the leftovers move to the front, in order. */
    method MoveLeftovers()
      requires Laid()
      modifies this`base, ops
      ensures Laid() && base == 0 && View() == old(View())
    {
      ghost var before := View();
      if unused > 0 && base > 0 {
        forall i | 0 <= i < unused {
          ops[i] := ops[base + i];
        }
      }
      base := 0;
      assert ops[0..unused] == before.leftover;
    }

    /** Lines 154-163 for one operation: it is taken from the pool to the end of the burst. */
    method Allocate() returns (op: nat)
      requires Laid() && base == 0 && unused < total && free != {}
      modifies this`free, this`unused, this`drawn, ops
      ensures Laid() && op in old(free) && unused == old(unused) + 1 && drawn == old(drawn) + 1
      ensures View() == old(View()).(free := old(free) - {op}, leftover := old(View()).leftover + [op])
    {
      op :| op in free;
      ops[unused] := op;
      free, unused, drawn := free - {op}, unused + 1, drawn + 1;
      assert ops[0..unused] == old(ops[0..unused]) + [op];
    }

    /** Lines 165-189 for one operation: it is attached to its buffer, which is reset. */
    method AttachBuffer(op: nat, buf: nat)
      requires Laid() && op < |bufs| && buf < |chains|
      modifies this`bufs, this`chains
      ensures View() == old(View()).(bufs := old(bufs)[op := buf],
                                     chains := old(chains)[buf := Reset(old(chains)[buf], segSz)])
    {
      chains := chains[buf := Reset(chains[buf], segSz)];
      bufs := bufs[op := buf];
    }

    /** Lines 154-189 for one operation: it is taken from the pool and attached to the next buffer. */
    method AddOp() returns (ghost x: nat)
      requires Laid() && base == 0 && segSz == job.segSz && |chains| == |bufs| == total
      requires totalEnq + unused < total && free != {} && forall y :: y in free ==> y < total
      modifies this`free, this`unused, this`drawn, this`bufs, this`chains, ops
      ensures Laid() && unused == old(unused) + 1 && drawn == old(drawn) + 1
      ensures x in old(free) && View() == Attach(job, old(View()), x)
    {
      var buf := totalEnq + unused;
      var op := Allocate();
      x := op;
      AttachBuffer(op, buf);
    }

    /** Lines 194-209. */
    method Submit() returns (k: nat)
      requires Laid() && base == 0 && pending == []
      requires forall i :: 0 <= i < |View().leftover| ==> View().leftover[i] < |bufs|
      requires dev.seen == mark + submitted
      modifies this`base, this`unused, this`totalEnq, this`submitted, dev
      ensures k <= |old(View()).leftover| && forall i :: 0 <= i < k ==> old(View()).leftover[i] < |old(bufs)|
      ensures Laid() && View() == Accept(old(View()), k) && dev.seen == mark + submitted
      ensures |dev.script| <= |old(dev.script)|
      ensures k == 0 < old(unused) ==> |dev.script| < |old(dev.script)|
    {
      ghost var before := View();
      assert before.leftover == ops[..unused];
      k := dev.EnqueueBurst(ops, unused, bufs);
      assert ops[..k] == before.leftover[..k];
      ghost var more := BufsOf(ops[..k], bufs);
      Assoc(mark, submitted, more);
      submitted := submitted + more;
      base, unused, totalEnq := k, unused - k, totalEnq + k;
      assert ops[base..base + unused] == before.leftover[k..];
    }

    /** The part of lines 217-274 that concerns one buffer: the device has stored `data`, the
        verify test copies it out, the last iteration sets the lengths. */
    method FinishBuffer(c0: Chain, data: seq<Byte>) returns (ok: bool, c: Chain)
      requires 0 < segSz && c0.segs != [] && Uniform(c0.segs, segSz) && Ready(c0, segSz)
      requires gather && |data| <= segSz * |c0.segs| ==> |written| + |data| <= room
      modifies this`written
      ensures ok <==> |data| <= segSz * |c0.segs| || !(gather || last)
      ensures ok ==> Shaped(c, |c0.segs|, segSz) && (last ==> Delivered(c, data))
      ensures ok && gather ==> written == old(written) + data && |written| <= room
      ensures !gather ==> written == old(written)
    {
      c := c0;
      FullLength(c0.segs, segSz);
      if segSz * |c0.segs| < |data| {
        return !(gather || last), c0;
      }
      StoreThenRead(c0.segs, data);
      StoreThenSetLengths(c0.segs, data, segSz);
      c := Chain(c0.pktLen, Store(c0.segs, data));
      if gather {
        var r := PktmbufRead(c, |data|);
        written := written + r.value;
      }
      if last {
        var lens := SetChainLengths(c.segs, |data|, segSz);
        c := Chain(|data|, lens);
      }
      ok := true;
    }

    /** Lines 276-278 for one operation: it goes back to the pool. */
    method Retire(c: Chain)
      requires Laid() && pending != [] && totalDeq < |chains| && 0 < drawn
      modifies this`free, this`drawn, this`pending, this`totalDeq, this`chains
      ensures pending == old(pending)[1..] && drawn == old(drawn) - 1
      ensures View() == old(View()).(inflight := old(View()).inflight[1..],
                                     free := old(free) + {old(View()).inflight[0]},
                                     deq := old(totalDeq) + 1,
                                     chains := old(chains)[old(totalDeq) := c])
    {
      assert (pending + dev.inflight)[1..] == pending[1..] + dev.inflight;
      chains := chains[totalDeq := c];
      free, drawn, pending, totalDeq := free + {pending[0]}, drawn - 1, pending[1..], totalDeq + 1;
    }

    /** Lines 217-278 for one operation of deq_ops.  False when the device ran out of space in
        the buffer and the run looks at the status. */
    method HarvestNext() returns (ok: bool, ghost c: Chain)
      requires Laid() && pending != [] && totalDeq < total == |chains| == |src| == job.Total()
      requires job.Proper() && job.segSz == segSz && job.gather == gather && job.last == last
      requires Readable(src[totalDeq]) && codec(totalDeq, Packet(src[totalDeq])) == job.produced[totalDeq]
      requires pending[0] < |bufs| && bufs[pending[0]] == totalDeq && 0 < drawn
      requires Shaped(chains[totalDeq], job.nbSegs[totalDeq], segSz) && Ready(chains[totalDeq], segSz)
      requires gather && job.Fits(totalDeq) ==> |written| + |job.produced[totalDeq]| <= room
      modifies this`free, this`drawn, this`pending, this`totalDeq, this`written, this`chains
      ensures ok <==> job.Fits(old(totalDeq)) || !(gather || last)
      ensures ok ==> pending == old(pending)[1..] && drawn == old(drawn) - 1
      ensures ok && gather ==> |written| <= room
      ensures ok ==> Shaped(c, job.nbSegs[old(totalDeq)], segSz)
      ensures ok && last ==> Delivered(c, job.produced[old(totalDeq)])
      ensures ok ==> View() == Collect(job, old(View()), c)
    {
      var b := bufs[pending[0]];
      var data := codec(b, Packet(src[b]));
      var chain: Chain;
      ok, chain := FinishBuffer(chains[b], data);
      c := chain;
      if ok {
        Retire(chain);
      }
    }

    ghost predicate Valid()
      reads this, dev, ops
    {
      Fixed() && Laid() && Good(job, View()) && drawn == |View().Held()| && dev.seen == mark + submitted
    }

    /** One operation of deq_ops, with everything the pass keeps. */
    method HarvestStep() returns (ok: bool)
      requires Valid() && pending != []
      modifies this`free, this`drawn, this`pending, this`totalDeq, this`written, this`chains
      ensures ok ==> Valid() && pending == old(pending)[1..] && totalDeq == old(totalDeq) + 1
      ensures !ok ==> (gather || last) && !AllFit(job)
    {
      ghost var v := View();
      assert v.inflight[0] == pending[0];
      NextDue(job, v, room);
      ghost var c;
      ok, c := HarvestNext();
      if ok {
        CollectGood(job, v, c);
      } else {
        assert !job.Fits(v.deq);
      }
    }

    /** Line 211. */
    method Receive()
      requires Laid() && pending == []
      modifies this`pending, dev
      ensures Laid() && View() == old(View()) && |dev.script| <= |old(dev.script)| && dev.seen == old(dev.seen)
      ensures pending == [] && 0 < burst && dev.inflight != [] ==> |dev.script| < |old(dev.script)|
    {
      pending := dev.DequeueBurst(burst);
    }

    /** Lines 217-278: everything received is dealt with, unless a buffer is too small. */
    method DealWithPending() returns (ok: bool)
      requires Valid()
      modifies this`free, this`drawn, this`pending, this`totalDeq, this`written, this`chains
      ensures ok ==> Valid() && pending == [] && totalDeq == old(totalDeq) + |old(pending)|
      ensures !ok ==> (gather || last) && !AllFit(job)
    {
      while pending != []
        invariant Valid() && totalDeq + |pending| == old(totalDeq) + |old(pending)|
        decreases |pending|
      {
        ok := HarvestStep();
        if !ok {
          return;
        }
      }
      ok := true;
    }

    method CollectBurst() returns (ok: bool)
      requires Valid() && pending == []
      modifies this`free, this`drawn, this`pending, this`totalDeq, this`written, this`chains, dev
      ensures ok ==> Valid() && pending == [] && old(totalDeq) <= totalDeq
      ensures !ok ==> (gather || last) && !AllFit(job)
      ensures |dev.script| <= |old(dev.script)|
      ensures ok && totalDeq == old(totalDeq) && dev.inflight != [] ==> |dev.script| < |old(dev.script)|
    {
      Receive();
      ok := DealWithPending();
    }

    /** One operation added, with everything the pass keeps.  The pool cannot be empty. */
    method AddStep()
      requires Valid() && base == 0 && totalEnq + unused < total
      modifies this`free, this`unused, this`drawn, this`bufs, this`chains, ops
      ensures Valid() && unused == old(unused) + 1
    {
      ghost var v := View();
      assert |free| > 0;
      ghost var x := AddOp();
      AttachGood(job, v, x);
    }

    /** Lines 138-189: the burst of numOps operations is completed from the pool. */
    method Refill(numOps: nat)
      requires Valid() && unused <= numOps && totalEnq + numOps <= total
      modifies this`base, this`free, this`unused, this`drawn, this`bufs, this`chains, ops
      ensures Valid() && base == 0 && unused == numOps
    {
      MoveLeftovers();
      while unused < numOps
        invariant Valid() && base == 0 && unused <= numOps
      {
        AddStep();
      }
    }

    /** Lines 194-209, with everything the pass keeps. */
    method SubmitStep()
      requires Valid() && base == 0 && pending == []
      modifies this`base, this`unused, this`totalEnq, this`submitted, dev
      ensures Valid() && totalEnq + unused == old(totalEnq + unused) && old(totalEnq) <= totalEnq
      ensures |dev.script| <= |old(dev.script)|
      ensures totalEnq == old(totalEnq) && 0 < old(unused) ==> |dev.script| < |old(dev.script)|
    {
      AcceptGood(job, View(), unused);
      ghost var v := View();
      var k := Submit();
      AcceptGood(job, v, k);
    }

    /** The counters of a pass agree with one another. */
    lemma Counters()
      requires Valid()
      ensures totalDeq + |pending| + |dev.inflight| == totalEnq && totalEnq + unused <= total
      ensures drawn == totalEnq + unused - totalDeq && |free| + drawn == total
      ensures submitted == Iota(totalEnq)
      ensures gather || last ==> forall i :: 0 <= i < totalDeq ==> job.Fits(i)
    {
      assert |View().leftover| == unused;
    }

    /** Lines 138-209: the burst is completed and offered. */
    method SubmitBurst()
      requires Valid() && pending == [] && unused <= burst && totalEnq < total
      modifies this`base, this`free, this`unused, this`drawn, this`bufs, this`chains, this`totalEnq,
        this`submitted, ops, dev
      ensures Valid() && unused <= burst && old(totalEnq) <= totalEnq <= total
      ensures |dev.script| <= |old(dev.script)|
      ensures totalEnq == old(totalEnq) ==> |dev.script| < |old(dev.script)|
    {
      Counters();
      Refill(Min(total - totalEnq, burst));
      SubmitStep();
      Counters();
    }

    /** Lines 137-279: one round of the submitting loop. */
    method Round() returns (ok: bool)
      requires Valid() && pending == [] && unused <= burst && totalEnq < total
      modifies this`base, this`free, this`unused, this`drawn, this`bufs, this`chains, this`totalEnq,
        this`submitted, this`pending, this`totalDeq, this`written, ops, dev
      ensures ok ==> Valid() && pending == [] && unused <= burst
      ensures !ok ==> (gather || last) && !AllFit(job)
      ensures ok ==> old(totalEnq) <= totalEnq <= total && |dev.script| <= |old(dev.script)|
      ensures ok && totalEnq == old(totalEnq) ==> |dev.script| < |old(dev.script)|
    {
      SubmitBurst();
      ok := CollectBurst();
    }

    /** Lines 137-279. */
    method SubmitAll() returns (ok: bool)
      requires Valid() && pending == [] && unused <= burst
      modifies this`base, this`free, this`unused, this`drawn, this`bufs, this`chains, this`totalEnq,
        this`submitted, this`pending, this`totalDeq, this`written, ops, dev
      ensures ok ==> Valid() && pending == [] && totalEnq == total
      ensures !ok ==> (gather || last) && !AllFit(job)
    {
      Counters();
      while totalEnq < total
        invariant Valid() && pending == [] && unused <= burst && totalEnq <= total
        decreases total - totalEnq + |dev.script|
      {
        ok := Round();
        if !ok {
          return;
        }
      }
      ok := true;
    }

    /** Lines 282-363. */
    method Drain() returns (ok: bool)
      requires Valid() && pending == [] && totalEnq == total
      modifies this`free, this`drawn, this`pending, this`totalDeq, this`written, this`chains, dev
      ensures ok ==> Valid() && pending == [] && totalDeq == total
      ensures !ok ==> (gather || last) && !AllFit(job)
    {
      Counters();
      while totalDeq < total
        invariant Valid() && pending == [] && totalDeq <= total
        decreases total - totalDeq + |dev.script|
      {
        Counters();
        ok := CollectBurst();
        if !ok {
          return;
        }
        Counters();
      }
      ok := true;
    }

    /** Lines 126-363: one iteration over all buffers.

        In every completed iteration the device has accepted each buffer exactly once, in order, and
        has given every operation back; the pool is full again. */
    method Iterate() returns (ok: bool)
      requires Valid() && pending == [] && unused == 0
      modifies this`base, this`free, this`unused, this`drawn, this`bufs, this`chains, this`totalEnq,
        this`submitted, this`pending, this`totalDeq, this`written, ops, dev
      ensures ok <==> !(gather || last) || AllFit(job)
      ensures ok ==> Valid() && pending == [] && dev.inflight == [] && unused == 0
      ensures ok ==> submitted == Iota(total) && totalEnq == totalDeq == total
      ensures ok ==> dev.seen == mark + Iota(total)
      ensures ok ==> drawn == 0 && |free| == total
    {
      ok := SubmitAll();
      if ok {
        ok := Drain();
      }
      if ok {
        Counters();
      }
    }

    /** Lines 125-131 of the benchmark: the counters start again, the pool is as it was left. */
    method NextIteration(isLast: bool)
      requires Valid() && pending == [] && dev.inflight == [] && unused == 0 && !gather
      modifies this`last, this`job, this`totalEnq, this`totalDeq, this`submitted, this`mark, this`base
      ensures mark == dev.seen
      ensures Valid() && totalEnq == totalDeq == 0 && last == isLast && job == old(job).(last := isLast)
    {
      assert View().Held() == [];
      RestartGood(job, View(), isLast);
      ghost var p := View();
      last, base, totalEnq, totalDeq, submitted, mark := isLast, 0, 0, 0, [], dev.seen;
      job := job.(last := isLast);
      assert View() == Restart(p);
    }

    /** One turn of the outer loop, lines 124-298 of the benchmark. */
    method Again(isLast: bool) returns (ok: bool)
      requires Valid() && pending == [] && dev.inflight == [] && unused == 0 && !gather
      modifies this, ops, dev
      ensures ok <==> !isLast || AllFit(old(job))
      ensures ok ==> Valid() && pending == [] && dev.inflight == [] && unused == 0
      ensures ok ==> drawn == 0 && |free| == total && totalDeq == total
      ensures ok ==> job == old(job).(last := isLast) && last == isLast
      ensures ok ==> dev.seen == old(dev.seen) + Iota(total)
    {
      SameFit(job, isLast);
      NextIteration(isLast);
      ok := Iterate();
    }

    /** main_loop of the benchmark: the same pass over and over, one pool, one `allocated`.  `ok` says
        that the loop ran to its end; the source leaves it for a failed status without an error. */
    method Benchmark(numIter: nat) returns (ok: bool)
      requires Valid() && pending == [] && dev.inflight == [] && unused == 0 && !gather
      modifies this, ops, dev
      ensures ok <==> numIter == 0 || AllFit(old(job))
      ensures ok ==> drawn == 0 && |free| == total && dev.inflight == []
      ensures ok ==> dev.seen == old(dev.seen) + Passes(numIter, total)
      ensures ok && 0 < numIter ==> |chains| == total == |old(job).produced|
      ensures ok && 0 < numIter ==> forall i :: 0 <= i < total ==> Delivered(chains[i], old(job).produced[i])
    {
      Counters();
      ok := true;
      var iter := 0;
      while iter < numIter
        invariant 0 <= iter <= numIter && Valid() && pending == [] && dev.inflight == [] && unused == 0
        invariant drawn == 0 && |free| == total
        invariant dev.seen == old(dev.seen) + Passes(iter, total)
        invariant job == old(job).(last := job.last)
        invariant iter == numIter > 0 ==> last && totalDeq == total && AllFit(job)
      {
        SameFit(old(job), job.last);
        ok := Again(iter == numIter - 1);
        if !ok {
          return;
        }
        Assoc(old(dev.seen), Passes(iter, total), Iota(total));
        iter := iter + 1;
      }
      SameFit(old(job), last);
    }
  }

  /** What the device makes of every input chain. */
  function Results(codec: (nat, seq<Byte>) -> seq<Byte>, src: seq<Chain>): (r: seq<seq<Byte>>)
    requires forall i :: 0 <= i < |src| ==> Readable(src[i])
    ensures |r| == |src| && forall i :: 0 <= i < |src| ==> r[i] == codec(i, Packet(src[i]))
  {
    seq(|src|, i requires 0 <= i < |src| => codec(i, Packet(src[i])))
  }

  function SegCounts(chains: seq<Chain>): (r: seq<nat>)
    ensures |r| == |chains| && forall i :: 0 <= i < |chains| ==> r[i] == |chains[i].segs|
  {
    seq(|chains|, i requires 0 <= i < |chains| => |chains[i].segs|)
  }

  function PassJob(codec: (nat, seq<Byte>) -> seq<Byte>, src: seq<Chain>, dst: seq<Chain>, segSz: nat): Job
    requires forall i :: 0 <= i < |src| ==> Readable(src[i])
  {
    Job(segSz, SegCounts(dst), Results(codec, src), true, true)
  }

  /** main_loop of the verify test.  For every burst size and whatever parts of the bursts the device
      takes and gives back, the pass succeeds exactly when every result fits its buffer, and then
      the output area holds all results in order and every output chain reads as its own. */
  method VerifyPass(burst: nat, segSz: nat, codec: (nat, seq<Byte>) -> seq<Byte>, script: seq<nat>,
                    src: seq<Chain>, dst: seq<Chain>, room: nat)
    returns (ok: bool, output: seq<Byte>, results: seq<Chain>)
    requires 0 < burst && 0 < segSz && |src| == |dst|
    requires forall i :: 0 <= i < |src| ==> Readable(src[i])
    requires forall i :: 0 <= i < |dst| ==> 0 < |dst[i].segs| && Uniform(dst[i].segs, segSz)
    requires Roomy(PassJob(codec, src, dst, segSz), room)
    ensures ok <==> forall i :: 0 <= i < |src| ==> |codec(i, Packet(src[i]))| <= segSz * |dst[i].segs|
    ensures ok ==> output == PassJob(codec, src, dst, segSz).Flat(|src|) && |output| <= room
    ensures ok ==> |results| == |src|
    ensures ok ==> forall i :: 0 <= i < |src| ==> Delivered(results[i], codec(i, Packet(src[i])))
  {
    ghost var job := PassJob(codec, src, dst, segSz);
    assert AllFit(job) <==>
           forall i :: 0 <= i < |src| ==> |codec(i, Packet(src[i]))| <= segSz * |dst[i].segs| by {
      assert forall i :: 0 <= i < |src| ==>
        (job.Fits(i) <==> |codec(i, Packet(src[i]))| <= segSz * |dst[i].segs|);
    }
    var dev := new Device(script);
    var run := new Run(burst, segSz, true, codec, dev, src, dst, room, true, job);
    ok := run.Iterate();
    output, results := run.written, run.chains;
  }
}

/** comp_perf_test_common.c: how many buffers an input needs and how it is cut into chains. */
module PrepareBufs {
  import opened Bytes
  import opened Mbuf

  const U16 := 0x1_0000

  /** Line 17. */
  function DivCeil(a: nat, b: nat): (q: nat)
    requires b > 0
    ensures b * q >= a && (q > 0 ==> b * (q - 1) < a)
    ensures a == 0 <==> q == 0
  {
    if a % b != 0 then a / b + 1 else a / b
  }

  /** Lines 106 and 133; the segment count is kept in 32 bits. */
  function TotalSegs(size: nat, segSz: nat): nat
    requires segSz > 0
  {
    DivCeil(size, segSz) % U32
  }

  function TotalBufs(size: nat, segSz: nat, maxSgl: nat): nat
    requires segSz > 0 && maxSgl > 0
  {
    DivCeil(TotalSegs(size, segSz), maxSgl)
  }

  /** A segment with room for segSz bytes of which the first ones are `data`. */
  predicate Holding(s: Seg, data: seq<Byte>, segSz: nat) {
    |s.room| == segSz && s.dataLen == |data| && s.room[..s.dataLen] == data
  }

  /** rte_pktmbuf_alloc, rte_pktmbuf_append and the copy: a segment taken from a pool. */
  method Append(data: seq<Byte>, segSz: nat) returns (s: Seg)
    requires |data| <= segSz
    ensures Holding(s, data, segSz)
  {
    s := Segment(|data|, data + seq(segSz - |data|, _ => 0));
  }

  function SegCount(chains: seq<Chain>): nat {
    if chains == [] then 0 else SegCount(chains[..|chains| - 1]) + |chains[|chains| - 1].segs|
  }

  /** A chain whose packet length is the sum of its segments. */
  predicate Exact(c: Chain) { c.pktLen == |Used(c.segs)| }

  /** An output chain: n segments of the output size, all of it in use. */
  predicate OutputChain(c: Chain, n: nat, outSegSz: nat) {
    |c.segs| == n && Uniform(c.segs, outSegSz) && Full(c.segs)
  }

  /** Every segment holds data, and only the last segment of the last chain may be short. */
  predicate Packed(segs: seq<Seg>, segSz: nat) {
    forall k :: 0 <= k < |segs| ==> segs[k].dataLen == segSz
  }

  predicate PackedButLast(segs: seq<Seg>, segSz: nat) {
    segs != [] && Packed(segs[..|segs| - 1], segSz) && 0 < segs[|segs| - 1].dataLen <= segSz
  }

  lemma MulMono(a: nat, b: nat, c: nat)
    ensures a <= b ==> c * a <= c * b && a * c <= b * c
  {
  }

  lemma MulStep(n: nat, c: nat)
    ensures (n + 1) * c == n * c + c && c * (n + 1) == c * n + c
  {
  }

  lemma DivCeilUnique(a: nat, b: nat, q: nat)
    requires b > 0 && q > 0 && b * (q - 1) < a <= b * q
    ensures DivCeil(a, b) == q
  {
    var p := DivCeil(a, b);
    MulMono(p, q - 1, b);
    if p > 0 {
      MulMono(q, p - 1, b);
    }
  }

  lemma PacketsAppend(chains: seq<Chain>, c: Chain)
    requires forall i :: 0 <= i < |chains| ==> Readable(chains[i])
    requires Readable(c)
    ensures Packets(chains + [c]) == Packets(chains) + Packet(c)
    ensures SegCount(chains + [c]) == SegCount(chains) + |c.segs|
  {
    assert (chains + [c])[..|chains|] == chains;
  }

  /** `segs` hold `data`; all are full but the last, which has lastSz bytes. */
  ghost predicate Filling(segs: seq<Seg>, data: seq<Byte>, lastSz: nat, segSz: nat) {
    && segs != [] && Used(segs) == data && Uniform(segs, segSz)
    && Packed(segs[..|segs| - 1], segSz) && segs[|segs| - 1].dataLen == lastSz <= segSz
    && |data| == (|segs| - 1) * segSz + lastSz
  }

  lemma FillingStart(first: Seg, data: seq<Byte>, segSz: nat)
    requires Holding(first, data, segSz)
    ensures Filling([first], data, |data|, segSz)
  {
    UsedAppend([], first);
    assert [] + [first] == [first];
  }

  lemma PackedAll(segs: seq<Seg>, segSz: nat)
    requires segs != [] && Packed(segs[..|segs| - 1], segSz) && segs[|segs| - 1].dataLen == segSz
    ensures Packed(segs, segSz)
  {
    forall k | 0 <= k < |segs| ensures segs[k].dataLen == segSz {
      assert k < |segs| - 1 ==> segs[k] == segs[..|segs| - 1][k];
    }
  }

  lemma PackedAppend(segs: seq<Seg>, next: Seg, segSz: nat)
    requires segs != [] && Packed(segs[..|segs| - 1], segSz) && segs[|segs| - 1].dataLen == segSz
    ensures Packed((segs + [next])[..|segs|], segSz)
  {
    PackedAll(segs, segSz);
    assert (segs + [next])[..|segs|] == segs;
  }

  lemma FillingStep(segs: seq<Seg>, data: seq<Byte>, next: Seg, more: seq<Byte>, segSz: nat)
    requires Filling(segs, data, segSz, segSz) && Holding(next, more, segSz)
    ensures Filling(segs + [next], data + more, |more|, segSz)
  {
    UsedAppend(segs, next);
    PackedAppend(segs, next, segSz);
    MulStep(|segs| - 1, segSz);
  }

  lemma FillingSize(segs: seq<Seg>, data: seq<Byte>, segSz: nat)
    requires Filling(segs, data, segSz, segSz)
    ensures |data| == |segs| * segSz
  {
    MulStep(|segs| - 1, segSz);
  }

  /** The shape of a chain made of `size` of the `remaining` bytes: full if input is left after it,
      otherwise full up to a last segment of lastSz bytes. */
  ghost predicate Filled(segs: seq<Seg>, remaining: nat, size: nat, lastSz: nat, segSz: nat, maxSgl: nat) {
    && 0 < |segs| <= maxSgl
    && (size < remaining ==> |segs| == maxSgl && Packed(segs, segSz) && size == maxSgl * segSz)
    && (0 < size == remaining ==> PackedButLast(segs, segSz))
    && (0 < size == remaining ==> 0 < lastSz <= segSz && size == (|segs| - 1) * segSz + lastSz)
  }

  lemma FillingDone(segs: seq<Seg>, data: seq<Byte>, lastSz: nat, segSz: nat, maxSgl: nat, remaining: nat)
    requires Filling(segs, data, lastSz, segSz) && |data| <= remaining && |segs| <= maxSgl
    requires |segs| == maxSgl || |data| == remaining
    requires (|data| < remaining ==> lastSz == segSz) && (0 < remaining ==> 0 < lastSz)
    ensures Filled(segs, remaining, |data|, lastSz, segSz, maxSgl)
    ensures Exact(Chain(|data|, segs)) && Packet(Chain(|data|, segs)) == data
  {
    MulStep(|segs| - 1, segSz);
    if lastSz == segSz {
      PackedAll(segs, segSz);
    }
  }

  /** Lines 234-254: one more segment with the next bytes. */
  method NextSegment(input: seq<Byte>, pos: nat, size: nat, remaining: nat, segSz: nat, ghost segs: seq<Seg>)
    returns (next: Seg, more: nat)
    requires 0 < segSz && size < remaining && pos + remaining <= |input|
    requires Filling(segs, input[pos..pos + size], segSz, segSz)
    ensures more == Min(remaining - size, segSz)
    ensures Filling(segs + [next], input[pos..pos + (size + more)], more, segSz)
  {
    more := Min(remaining - size, segSz);
    var data := input[pos + size..pos + size + more];
    next := Append(data, segSz);
    FillingStep(segs, input[pos..pos + size], next, data, segSz);
    assert input[pos..pos + size] + data == input[pos..pos + (size + more)];
  }

  /** Lines 207-262: one input chain is drawn from the pool and filled from input[pos..]. */
  method FillChain(input: seq<Byte>, pos: nat, remaining: nat, segSz: nat, maxSgl: nat, avail: nat)
    returns (ok: bool, chain: Chain, size: nat, lastSz: nat)
    requires 0 < segSz && 0 < maxSgl && pos + remaining <= |input|
    ensures ok <== 0 < avail && remaining <= avail * segSz
    ensures ok ==> size <= remaining && |chain.segs| <= avail
    ensures ok ==> Exact(chain) && Uniform(chain.segs, segSz) && Packet(chain) == input[pos..pos + size]
    ensures ok ==> Filled(chain.segs, remaining, size, lastSz, segSz, maxSgl)
  {
    chain, size, lastSz := Chain(0, []), 0, 0;
    if avail == 0 {
      return false, chain, size, lastSz;
    }
    lastSz := Min(remaining, segSz);
    var first := Append(input[pos..pos + lastSz], segSz);
    var segs := [first];
    size := lastSz;
    FillingStart(first, input[pos..pos + lastSz], segSz);
    while |segs| < maxSgl && size < remaining
      invariant |segs| <= maxSgl && |segs| <= avail && size <= remaining
      invariant Filling(segs, input[pos..pos + size], lastSz, segSz)
      invariant (size < remaining ==> lastSz == segSz) && (0 < remaining ==> 0 < lastSz)
    {
      if |segs| == avail {
        FillingSize(segs, input[pos..pos + size], segSz);
        return false, chain, size, lastSz;
      }
      var next, more := NextSegment(input, pos, size, remaining, segSz, segs);
      segs, lastSz, size := segs + [next], more, size + more;
    }
    FillingDone(segs, input[pos..pos + size], lastSz, segSz, maxSgl, remaining);
    return true, Chain(size, segs), size, lastSz;
  }

  /** Lines 264-302: an output chain with as many segments. */
  method OutputFor(n: nat, outSegSz: nat) returns (c: Chain)
    ensures OutputChain(c, n, outSegSz)
  {
    var room: seq<Byte> := seq(outSegSz, _ => 0);
    c := Chain(outSegSz * n, seq(n, _ => Segment(outSegSz, room)));
  }

  datatype Info = Info(segsPerLastBuf: nat, lastSegSz: nat)

  ghost predicate AllExact(chains: seq<Chain>, segSz: nat) {
    forall i :: 0 <= i < |chains| ==>
      Exact(chains[i]) && Uniform(chains[i].segs, segSz) && chains[i].segs != []
  }

  /** Chains before the last one carry maxSgl full segments. */
  ghost predicate FullChains(chains: seq<Chain>, segSz: nat, maxSgl: nat) {
    forall i :: 0 <= i < |chains| ==> |chains[i].segs| == maxSgl && Packed(chains[i].segs, segSz)
  }

  ghost predicate LastChain(c: Chain, segSz: nat, maxSgl: nat) {
    |c.segs| <= maxSgl && PackedButLast(c.segs, segSz)
  }

  ghost predicate Outputs(comp: seq<Chain>, decomp: seq<Chain>, outSegSz: nat) {
    && |comp| == |decomp|
    && forall i :: 0 <= i < |comp| ==> OutputChain(comp[i], |decomp[i].segs|, outSegSz)
  }

  lemma SmallTotal(size: nat, segSz: nat)
    requires 0 < segSz
    ensures size < U32 ==> TotalSegs(size, segSz) == DivCeil(size, segSz)
  {
    var q := DivCeil(size, segSz);
    if q > 0 {
      MulMono(1, segSz, q - 1);
    }
  }

  /** While input is left, so are segments and buffers. */
  lemma SegmentsLeft(size: nat, segSz: nat, maxSgl: nat, bufs: nat, used: nat, pos: nat)
    requires 0 < segSz && 0 < maxSgl && size < U32
    requires used == bufs * maxSgl && pos == used * segSz && pos < size
    ensures var total := TotalSegs(size, segSz);
            used < total && size - pos <= (total - used) * segSz
    ensures bufs < TotalBufs(size, segSz, maxSgl)
  {
    SmallTotal(size, segSz);
    var total := DivCeil(size, segSz);
    MulMono(total, used, segSz);
    assert (total - used) * segSz == total * segSz - used * segSz;
    MulMono(DivCeil(total, maxSgl), bufs, maxSgl);
  }

  /** The last chain completes the count of segments and of buffers. */
  lemma LastCount(size: nat, segSz: nat, maxSgl: nat, bufs: nat, used: nat, segs: nat, lastSz: nat)
    requires 0 < segSz && 0 < maxSgl && size < U32 && 0 < segs <= maxSgl && 0 < lastSz <= segSz
    requires used == bufs * maxSgl && size == used * segSz + (segs - 1) * segSz + lastSz
    ensures used + segs == TotalSegs(size, segSz)
    ensures bufs + 1 == TotalBufs(size, segSz, maxSgl)
    ensures (used + segs - 1) * segSz + lastSz == size
  {
    var total := used + segs;
    assert (total - 1) * segSz == used * segSz + (segs - 1) * segSz;
    MulStep(total - 1, segSz);
    DivCeilUnique(size, segSz, total);
    SmallTotal(size, segSz);
    MulStep(bufs, maxSgl);
    DivCeilUnique(total, maxSgl, bufs + 1);
  }

  datatype Plan = Plan(size: nat, segSz: nat, outSegSz: nat, maxSgl: nat, totalSegs: nat, totalBufs: nat)

  /** What comp_perf_allocate_memory and the head of prepare_bufs compute from the options. */
  function PlanFor(inputSize: nat, segSz: nat, outSegSz: nat, maxSgl: nat): Plan
    requires 0 < segSz && 0 < maxSgl
  {
    Plan(inputSize % U32, segSz, outSegSz, maxSgl, TotalSegs(inputSize, segSz), TotalBufs(inputSize, segSz, maxSgl))
  }

  ghost predicate PlanOf(p: Plan, inputSize: nat) {
    && 0 < p.segSz && 0 < p.maxSgl
    && p == PlanFor(inputSize, p.segSz, p.outSegSz, p.maxSgl)
  }

  /** Where the outer loop stands when `pos` bytes have been cut, for inputs below 2^32 bytes. */
  ghost predicate Cut(decomp: seq<Chain>, p: Plan, pos: nat, drawn: nat, info: Info) {
    && pos <= p.size
    && (pos < p.size ==>
        drawn == |decomp| * p.maxSgl && pos == drawn * p.segSz && FullChains(decomp, p.segSz, p.maxSgl))
    && (pos == p.size ==> drawn == p.totalSegs && |decomp| == p.totalBufs)
    && (pos == p.size && decomp != [] ==>
        && FullChains(decomp[..|decomp| - 1], p.segSz, p.maxSgl)
        && LastChain(decomp[|decomp| - 1], p.segSz, p.maxSgl)
        && info.segsPerLastBuf == |decomp[|decomp| - 1].segs|
        && (p.totalSegs - 1) * p.segSz + info.lastSegSz == p.size)
  }

  lemma CutStep(decomp: seq<Chain>, p: Plan, pos: nat, drawn: nat, info: Info,
                chain: Chain, more: nat, lastSz: nat)
    requires pos < p.size && more <= p.size - pos
    requires Cut(decomp, p, pos, drawn, info)
    requires Filled(chain.segs, p.size - pos, more, lastSz, p.segSz, p.maxSgl)
    requires pos + more == p.size ==>
               && drawn + |chain.segs| == p.totalSegs && |decomp| + 1 == p.totalBufs
               && (p.totalSegs - 1) * p.segSz + lastSz == p.size
    ensures Cut(decomp + [chain], p, pos + more, drawn + |chain.segs|, Info(|chain.segs|, lastSz))
  {
    MulStep(|decomp|, p.maxSgl);
    assert (drawn + p.maxSgl) * p.segSz == drawn * p.segSz + p.maxSgl * p.segSz;
    assert (decomp + [chain])[..|decomp|] == decomp;
  }

  /** The chains built so far hold the first `pos` bytes and have used `drawn` segments of each pool. */
  ghost predicate Progress(input: seq<Byte>, p: Plan, small: bool, decomp: seq<Chain>, comp: seq<Chain>,
                           pos: nat, drawn: nat, info: Info) {
    && AllExact(decomp, p.segSz) && Outputs(comp, decomp, p.outSegSz)
    && pos <= p.size <= |input| && Packets(decomp) == input[..pos]
    && SegCount(decomp) == drawn <= p.totalSegs
    && (small ==> Cut(decomp, p, pos, drawn, info))
  }

  lemma CutNext(decomp: seq<Chain>, p: Plan, pos: nat, drawn: nat, info: Info,
                chain: Chain, more: nat, lastSz: nat, inputSize: nat)
    requires PlanOf(p, inputSize) && inputSize < U32 && pos < p.size && more <= p.size - pos
    requires Cut(decomp, p, pos, drawn, info)
    requires Filled(chain.segs, p.size - pos, more, lastSz, p.segSz, p.maxSgl)
    ensures Cut(decomp + [chain], p, pos + more, drawn + |chain.segs|, Info(|chain.segs|, lastSz))
  {
    if pos + more == p.size {
      LastCount(p.size, p.segSz, p.maxSgl, |decomp|, drawn, |chain.segs|, lastSz);
    }
    CutStep(decomp, p, pos, drawn, info, chain, more, lastSz);
  }

  lemma ProgressStep(input: seq<Byte>, p: Plan, small: bool, decomp: seq<Chain>, comp: seq<Chain>,
                     pos: nat, drawn: nat, info: Info, chain: Chain, out: Chain, more: nat, next: Info)
    requires Progress(input, p, small, decomp, comp, pos, drawn, info)
    requires more <= p.size - pos && |chain.segs| <= p.totalSegs - drawn
    requires Exact(chain) && Uniform(chain.segs, p.segSz) && Packet(chain) == input[pos..pos + more]
    requires chain.segs != [] && OutputChain(out, |chain.segs|, p.outSegSz)
    requires small ==> Cut(decomp + [chain], p, pos + more, drawn + |chain.segs|, next)
    ensures Progress(input, p, small, decomp + [chain], comp + [out], pos + more, drawn + |chain.segs|, next)
  {
    PacketsAppend(decomp, chain);
    assert input[..pos] + input[pos..pos + more] == input[..pos + more];
  }

  /** A new round finds a segment to draw, and all it needs if the input fits the counter. */
  lemma ProgressLeft(input: seq<Byte>, p: Plan, decomp: seq<Chain>, comp: seq<Chain>,
                     pos: nat, drawn: nat, info: Info)
    requires PlanOf(p, |input|)
    requires Progress(input, p, |input| < U32, decomp, comp, pos, drawn, info)
    ensures |input| < U32 ==>
              && p.size == |input|
              && (pos < p.size <==> |decomp| != p.totalBufs)
              && (pos < p.size ==> drawn < p.totalSegs && p.size - pos <= (p.totalSegs - drawn) * p.segSz)
              && |decomp| <= p.totalBufs
  {
    if |input| < U32 {
      if pos < |input| {
        SegmentsLeft(|input|, p.segSz, p.maxSgl, |decomp|, drawn, pos);
      }
    }
  }

  /** The cutting of an input: all of it, in full chains of full segments but for the end. */
  ghost predicate ExactCut(inputSize: nat, decomp: seq<Chain>, info: Info, segSz: nat, maxSgl: nat)
    requires 0 < segSz && 0 < maxSgl
  {
    && |decomp| == TotalBufs(inputSize, segSz, maxSgl)
    && SegCount(decomp) == DivCeil(inputSize, segSz)
    && (decomp != [] ==>
        && FullChains(decomp[..|decomp| - 1], segSz, maxSgl)
        && LastChain(decomp[|decomp| - 1], segSz, maxSgl)
        && info.segsPerLastBuf == |decomp[|decomp| - 1].segs|
        && (DivCeil(inputSize, segSz) - 1) * segSz + info.lastSegSz == inputSize)
  }

  lemma CutIsExact(p: Plan, decomp: seq<Chain>, drawn: nat, info: Info, inputSize: nat)
    requires PlanOf(p, inputSize) && inputSize < U32
    requires Cut(decomp, p, p.size, drawn, info) && SegCount(decomp) == drawn
    ensures ExactCut(inputSize, decomp, info, p.segSz, p.maxSgl)
  {
    SmallTotal(inputSize, p.segSz);
  }

  /** Lines 207-303 for one buffer: its chain, cut from the input, and its output chain. */
  method NextBuffer(input: seq<Byte>, p: Plan, pos: nat, drawn: nat,
                    ghost decomp: seq<Chain>, ghost comp: seq<Chain>, ghost info: Info)
    returns (filled: bool, chain: Chain, out: Chain, more: nat, next: Info)
    requires PlanOf(p, |input|) && |decomp| < p.totalBufs
    requires Progress(input, p, |input| < U32, decomp, comp, pos, drawn, info)
    ensures |input| < U32 ==> filled
    ensures filled ==> Progress(input, p, |input| < U32, decomp + [chain], comp + [out], pos + more,
                                drawn + |chain.segs|, next)
  {
    ProgressLeft(input, p, decomp, comp, pos, drawn, info);
    var lastSz: nat;
    filled, chain, more, lastSz := FillChain(input, pos, p.size - pos, p.segSz, p.maxSgl, p.totalSegs - drawn);
    next := Info(|chain.segs|, lastSz);
    if filled {
      out := OutputFor(|chain.segs|, p.outSegSz);
      if |input| < U32 {
        CutNext(decomp, p, pos, drawn, info, chain, more, lastSz, |input|);
      }
      ProgressStep(input, p, |input| < U32, decomp, comp, pos, drawn, info, chain, out, more, next);
    } else {
      out := chain;
    }
  }

  lemma Finished(input: seq<Byte>, p: Plan, decomp: seq<Chain>, comp: seq<Chain>, pos: nat, drawn: nat, info: Info)
    requires PlanOf(p, |input|) && |decomp| >= p.totalBufs
    requires Progress(input, p, |input| < U32, decomp, comp, pos, drawn, info)
    ensures Packets(decomp) == input <==> |input| < U32
    ensures |input| < U32 ==> ExactCut(|input|, decomp, info, p.segSz, p.maxSgl)
  {
    ProgressLeft(input, p, decomp, comp, pos, drawn, info);
    if |input| < U32 {
      CutIsExact(p, decomp, drawn, info, |input|);
      assert input[..pos] == input;
    }
  }

  /** Lines 197-309.  `ok` is false when a pool runs empty.

      For every input that fits the 32-bit byte counter the cutting is exact, uses every segment
      of both pools and never finds them empty; a larger input is not copied as a whole. */
  method Prepare(input: seq<Byte>, segSz: nat, outSegSz: nat, maxSgl: nat)
    returns (ok: bool, decomp: seq<Chain>, comp: seq<Chain>, info: Info)
    requires 0 < segSz && 0 < maxSgl
    ensures AllExact(decomp, segSz) && Outputs(comp, decomp, outSegSz)
    ensures ok ==> (Packets(decomp) == input <==> |input| < U32)
    ensures |Packets(decomp)| <= |input| && SegCount(decomp) <= TotalSegs(|input|, segSz)
    ensures forall i :: 0 <= i < |decomp| ==> decomp[i].segs != []
    ensures |input| < U32 ==> ok && ExactCut(|input|, decomp, info, segSz, maxSgl)
  {
    var p := PlanFor(|input|, segSz, outSegSz, maxSgl);
    var pos: nat, drawn: nat := 0, 0;
    ok, decomp, comp, info := true, [], [], Info(0, 0);
    SmallTotal(|input|, segSz);
    while |decomp| < p.totalBufs
      invariant ok && Progress(input, p, |input| < U32, decomp, comp, pos, drawn, info)
    {
      var filled, chain, out, more, next := NextBuffer(input, p, pos, drawn, decomp, comp, info);
      if !filled {
        ok := false;
        return;
      }
      decomp, comp, info := decomp + [chain], comp + [out], next;
      pos, drawn := pos + more, drawn + |chain.segs|;
    }
    Finished(input, p, decomp, comp, pos, drawn, info);
  }

  /** Line 353: the total that print_test_dynamics prints.  The number of segments is kept in
      sixteen bits and the sum is printed in thirty-two. */
  function ReportedTotal(totalSegs: nat, segSz: nat, lastSz: nat): nat {
    ((totalSegs % U16 - 1) * segSz + lastSz) % U32
  }

  lemma WrapExact(size: nat, shown: int, k: nat)
    requires size < U32 && size == shown + U16 * k
    ensures shown % U32 == size <==> k % U16 == 0
  {
    var q, r := shown / U32, shown % U32;
    assert size - r == U16 * (U16 * q + k);
    if r == size {
      assert k == U16 * -q;
    }
    if k % U16 == 0 {
      assert size - r == U32 * (q + k / U16);
    }
  }

  /** The printed total is the input size exactly when the part of the segment count that the
      sixteen bits lose, times the segment size, is a multiple of 2^16. */
  lemma ReportedTotalExact(size: nat, segSz: nat, lastSz: nat)
    requires 0 < size < U32 && 0 < segSz < U16
    requires (DivCeil(size, segSz) - 1) * segSz + lastSz == size
    ensures ReportedTotal(DivCeil(size, segSz), segSz, lastSz) == size
            <==> DivCeil(size, segSz) / U16 * segSz % U16 == 0
  {
    var total := DivCeil(size, segSz);
    var lost, kept := total / U16, total % U16;
    assert total - 1 == (kept - 1) + U16 * lost;
    assert (total - 1) * segSz == (kept - 1) * segSz + U16 * (lost * segSz);
    var shown := (kept - 1) * segSz + lastSz;
    assert size == shown + U16 * (lost * segSz);
    WrapExact(size, shown, lost * segSz);
  }

  /** 65536 segments of eight bytes are reported as no bytes at all. */
  lemma ReportedTotalWrong()
    ensures DivCeil(524288, 8) == 65536
    ensures ReportedTotal(65536, 8, 8) == 0
  {
  }
}

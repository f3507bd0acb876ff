/** The verify test as a whole: cut the input, compress it, decompress it, compare. */
module VerifyRun {
  import opened Bytes
  import opened Mbuf
  import opened BurstModel
  import opened BurstLoop
  import opened PrepareBufs

  /** The results of a prefix of the buffers, in the area of the compress pass (lines 149-154). */
  lemma {:induction false} FlatBounded(j: Job, k: nat, decomp: seq<Chain>)
    requires j.Proper() && k <= j.Total() == |decomp|
    requires forall i :: 0 <= i < k ==> j.Fits(i) && j.nbSegs[i] == |decomp[i].segs|
    ensures |j.Flat(k)| <= j.segSz * SegCount(decomp[..k])
  {
    if k == 0 {
    } else {
      FlatBounded(j, k - 1, decomp);
      assert decomp[..k][..k - 1] == decomp[..k - 1];
      assert j.segSz * SegCount(decomp[..k])
          == j.segSz * SegCount(decomp[..k - 1]) + j.segSz * j.nbSegs[k - 1];
    }
  }

  lemma {:induction false} SegCountPrefix(chains: seq<Chain>, k: nat)
    requires k <= |chains|
    ensures SegCount(chains[..k]) <= SegCount(chains)
    decreases |chains|
  {
    if k < |chains| {
      assert chains[..|chains| - 1][..k] == chains[..k];
      SegCountPrefix(chains[..|chains| - 1], k);
    } else {
      assert chains[..k] == chains;
    }
  }

  /** When every result is the packet of a chain, the results in order are the packets in order. */
  lemma {:induction false} FlatIsPackets(j: Job, k: nat, chains: seq<Chain>)
    requires k <= j.Total() == |chains|
    requires forall i :: 0 <= i < |chains| ==> Readable(chains[i])
    requires forall i :: 0 <= i < k ==> j.produced[i] == Packet(chains[i])
    ensures j.Flat(k) == Packets(chains[..k])
  {
    if k == 0 {
    } else {
      FlatIsPackets(j, k - 1, chains);
      assert chains[..k][..k - 1] == chains[..k - 1];
    }
  }

  lemma {:induction false} PacketsPrefix(chains: seq<Chain>, k: nat)
    requires k <= |chains|
    requires forall i :: 0 <= i < |chains| ==> Readable(chains[i])
    ensures |Packets(chains[..k])| <= |Packets(chains)|
    decreases |chains|
  {
    if k < |chains| {
      assert chains[..|chains| - 1][..k] == chains[..k];
      PacketsPrefix(chains[..|chains| - 1], k);
    } else {
      assert chains[..k] == chains;
    }
  }

  /** A chain's packet fits the chain. */
  lemma {:induction false} UsedBounded(segs: seq<Seg>, segSz: nat)
    requires Uniform(segs, segSz)
    ensures |Used(segs)| <= segSz * |segs|
  {
    if segs == [] {
    } else {
      UsedBounded(segs[1..], segSz);
      assert segSz * |segs| == segSz + segSz * (|segs| - 1);
    }
  }

  function Max(a: nat, b: nat): nat { if a < b then b else a }

  /** compressed_data has room for whatever the compress pass may write. */
  lemma CompressRoomy(compress: (nat, seq<Byte>) -> seq<Byte>, decomp: seq<Chain>, comp: seq<Chain>,
                      outSegSz: nat, totalSegs: nat)
    requires 0 < outSegSz && SegCount(decomp) <= totalSegs && Outputs(comp, decomp, outSegSz)
    requires forall i :: 0 <= i < |decomp| ==> Readable(decomp[i]) && decomp[i].segs != []
    ensures Roomy(PassJob(compress, decomp, comp, outSegSz), Max(outSegSz * totalSegs, 8))
  {
    var j := PassJob(compress, decomp, comp, outSegSz);
    forall k | 0 <= k <= j.Total() && FitUpTo(j, k)
      ensures |j.Flat(k)| <= outSegSz * totalSegs
    {
      FlatBounded(j, k, decomp);
      SegCountPrefix(decomp, k);
      MulMono(SegCount(decomp[..k]), totalSegs, outSegSz);
    }
  }

  /** decompressed_data, which is as long as the input, has room for the decompress pass. */
  lemma DecompressRoomy(decompress: (nat, seq<Byte>) -> seq<Byte>, results: seq<Chain>, decomp: seq<Chain>,
                        segSz: nat, room: nat)
    requires 0 < segSz && |results| == |decomp| && AllExact(decomp, segSz) && |Packets(decomp)| <= room
    requires forall i :: 0 <= i < |results| ==>
               Readable(results[i]) && decompress(i, Packet(results[i])) == Packet(decomp[i])
    ensures Roomy(PassJob(decompress, results, decomp, segSz), room)
    ensures PassJob(decompress, results, decomp, segSz).Flat(|decomp|) == Packets(decomp)
    ensures forall i :: 0 <= i < |decomp| ==> |Packet(decomp[i])| <= segSz * |decomp[i].segs|
  {
    var j := PassJob(decompress, results, decomp, segSz);
    forall k | 0 <= k <= j.Total()
      ensures |j.Flat(k)| <= room
    {
      FlatIsPackets(j, k, decomp);
      PacketsPrefix(decomp, k);
    }
    FlatIsPackets(j, |decomp|, decomp);
    assert decomp[..|decomp|] == decomp;
    forall i | 0 <= i < |decomp| ensures |Packet(decomp[i])| <= segSz * |decomp[i].segs| {
      UsedBounded(decomp[i].segs, segSz);
    }
  }

  datatype Outcome = NotPrepared | Failure | Success

  /** cperf_verify_test_constructor and cperf_verify_test_runner, with a device that undoes its own
      compression buffer by buffer.

      Whatever the burst size, the segment size, the chain length and the parts in which the device
      takes and returns the bursts of both passes: if every compressed buffer fits its chain, the
      decompressed data and its length are the input, so the comparison succeeds.  The run succeeds
      in no other case. */
  method Run(input: seq<Byte>, segSz: nat, outSegSz: nat, maxSgl: nat, burst: nat,
             compress: (nat, seq<Byte>) -> seq<Byte>, decompress: (nat, seq<Byte>) -> seq<Byte>,
             compressScript: seq<nat>, decompressScript: seq<nat>)
    returns (outcome: Outcome, decompressed: seq<Byte>, decomp: seq<Chain>)
    requires 0 < segSz && 0 < outSegSz && 0 < maxSgl && 0 < burst
    requires forall i: nat, x: seq<Byte> :: decompress(i, compress(i, x)) == x
    ensures AllExact(decomp, segSz)
    ensures |input| < U32 ==> Packets(decomp) == input
    ensures outcome == Success <==>
              |input| < U32 && forall i :: 0 <= i < |decomp| ==>
                |compress(i, Packet(decomp[i]))| <= outSegSz * |decomp[i].segs|
    ensures outcome == Success ==> decompressed == input
  {
    decompressed := [];
    var ok, comp, info;
    ok, decomp, comp, info := Prepare(input, segSz, outSegSz, maxSgl);
    if !ok {
      return NotPrepared, [], decomp;
    }
    CompressRoomy(compress, decomp, comp, outSegSz, TotalSegs(|input|, segSz));
    var compressed, results;
    ok, compressed, results := VerifyPass(burst, outSegSz, compress, compressScript, decomp, comp,
                                          Max(outSegSz * TotalSegs(|input|, segSz), 8));
    if !ok {
      return Failure, [], decomp;
    }
    DecompressRoomy(decompress, results, decomp, segSz, |input|);
    var restored;
    ok, decompressed, restored := VerifyPass(burst, segSz, decompress, decompressScript, results, decomp, |input|);
    if !ok {
      return Failure, [], decomp;
    }
    if |decompressed| != |input| {
      return Failure, decompressed, decomp;
    }
    outcome := if decompressed == input then Success else Failure;
  }
}

/** The throughput runner: operations that the device refuses stay in `ops` and go into the next
    burst, behind the ones drawn freshly from the pool. */
module Throughput {
  import opened Bytes
  import opened CryptoDevice

  /** Every operation of the pool is free, in the device or left over, and in one place only. */
  ghost predicate Conserved(all: multiset<nat>, free: multiset<nat>, inflight: multiset<nat>, leftover: seq<nat>) {
    all == free + inflight + multiset(leftover)
  }

  lemma ConservedSizes(all: multiset<nat>, free: multiset<nat>, inflight: multiset<nat>, leftover: seq<nat>)
    requires Conserved(all, free, inflight, leftover)
    ensures |all| == |free| + |inflight| + |leftover|
  {
  }

  /** When the pool starts as a set of operations, conservation keeps them apart. */
  lemma ConservedApart(pool: set<nat>, free: multiset<nat>, inflight: multiset<nat>, leftover: seq<nat>, x: nat)
    requires Conserved(multiset(pool), free, inflight, leftover)
    ensures free[x] + inflight[x] + multiset(leftover)[x] == if x in pool then 1 else 0
  {
    assert multiset(pool)[x] == (free + inflight + multiset(leftover))[x];
  }

  lemma AllFree(all: multiset<nat>, free: multiset<nat>, inflight: multiset<nat>, leftover: seq<nat>)
    requires Conserved(all, free, inflight, leftover) && inflight == multiset{} && leftover == []
    ensures free == all
  {
  }

  function Times(rounds: nat, total: nat): nat {
    if rounds == 0 then 0 else Times(rounds - 1, total) + total
  }

  lemma {:induction false} TimesIs(rounds: nat, total: nat)
    ensures Times(rounds, total) == rounds * total
  {
    if rounds == 0 {
    } else {
      TimesIs(rounds - 1, total);
      assert rounds * total == (rounds - 1) * total + total;
    }
  }

  predicate Fitting(sizes: seq<nat>, n: nat, max: nat) {
    n <= |sizes| && forall i :: 0 <= i < n ==> sizes[i] <= max
  }

  lemma OneMoreFits(sizes: seq<nat>, n: nat, max: nat)
    requires Fitting(sizes, n, max) && n < |sizes| && sizes[n] <= max
    ensures Fitting(sizes, n + 1, max)
  {
  }

  class Runner {
    const ops: array<nat>
    const dev: Device
    const total: nat      // total_ops
    ghost const all: multiset<nat>

    var free: multiset<nat>    // the pool
    var enqd: nat         // accepted from the last burst
    var unused: nat       // refused from it: ops[enqd..enqd + unused]
    var enqTotal: nat
    var deqTotal: nat

    constructor (maxBurst: nat, total: nat, pool: multiset<nat>, dev: Device)
      requires dev.Valid() && dev.inflight == multiset{} && 0 < dev.capacity
      ensures Valid() && AtRest() && this.dev == dev && this.total == total && all == pool && ops.Length == maxBurst
      ensures fresh(ops)
    {
      ops := new nat[maxBurst];
      this.dev, this.total, all, free := dev, total, pool, pool;
      enqd, unused, enqTotal, deqTotal := 0, 0, 0, 0;
    }

    ghost predicate Laid()
      reads this
    {
      enqd + unused <= ops.Length
    }

    ghost function Leftover(): seq<nat>
      reads this, ops
      requires Laid()
    {
      ops[enqd..enqd + unused]
    }

    ghost predicate Valid()
      reads this, ops, dev
    {
      Laid() && Conserved(all, free, dev.inflight, Leftover()) && dev.Valid()
    }

    /** Operations that were not returned yet, and the device's questions that its script answers:
        what a turn makes smaller. */
    ghost function Left(): nat
      reads this, dev
      requires enqTotal <= total && deqTotal <= total
    {
      (total - enqTotal) + (total - deqTotal) + |dev.script|
    }

    /** Between rounds the whole pool is free, and the device has given back what it accepted. */
    ghost predicate AtRest()
      reads this, dev
    {
      unused == 0 && dev.inflight == multiset{} && free == all && dev.given == dev.taken
    }

    method DrawAt(i: nat) returns (ghost x: nat)
      requires i < ops.Length && Laid() && (unused > 0 ==> i < enqd) && |free| > 0
      modifies this`free, ops
      ensures old(free) == free + multiset{x}
      ensures ops[..i + 1] == old(ops[..i]) + [x] && Leftover() == old(Leftover())
    {
      var op :| op in free;
      x := op;
      ops[i] := op;
      free := free - multiset{op};
    }

    /** Lines 155-156: `needed` operations from the pool fill the front of `ops`; false, with
        nothing changed, when the pool has too few.  What lies behind them stays. */
    method GetBulk(needed: nat) returns (ok: bool, ghost drawn: seq<nat>)
      requires needed <= ops.Length && Laid() && (unused > 0 ==> needed <= enqd)
      modifies this`free, ops
      ensures ok <==> needed <= |old(free)|
      ensures !ok ==> free == old(free) && ops[..] == old(ops[..])
      ensures ok ==> |drawn| == needed && old(free) == free + multiset(drawn)
      ensures ok ==> ops[..needed] == drawn && Leftover() == old(Leftover())
    {
      drawn := [];
      if |free| < needed {
        return false, drawn;
      }
      var i := 0;
      while i < needed
        invariant 0 <= i <= needed && |drawn| == i && old(free) == free + multiset(drawn)
        invariant ops[..i] == drawn && Leftover() == old(Leftover())
      {
        ghost var x := DrawAt(i);
        drawn, i := drawn + [x], i + 1;
      }
      ok := true;
    }

    /** Lines 177-183: the leftovers move down behind the drawn operations when there is a gap. */
    method CloseGap(needed: nat)
      requires Laid() && (unused > 0 ==> needed <= enqd) && needed + unused <= ops.Length
      modifies ops
      ensures ops[..needed + unused] == old(ops[..needed]) + old(Leftover())
    {
      if enqd > needed {
        forall i | 0 <= i < unused {
          ops[needed + i] := ops[enqd + i];
        }
      }
    }

    /** Lines 152-183: the drawn operations and behind them every leftover.  The pool writes over
        the front of `ops` before the leftovers move, but never over a leftover. */
    method Fill(needed: nat) returns (ok: bool, ghost drawn: seq<nat>)
      requires Laid() && (unused > 0 ==> needed <= enqd) && needed + unused <= ops.Length
      modifies this`free, ops
      ensures ok <==> needed <= |old(free)|
      ensures !ok ==> free == old(free) && ops[..] == old(ops[..])
      ensures ok ==> |drawn| == needed && old(free) == free + multiset(drawn)
      ensures ok ==> ops[..needed + unused] == drawn + old(Leftover())
    {
      ok, drawn := GetBulk(needed);
      if ok {
        CloseGap(needed);
      }
    }

    /** Lines 146-183: the next burst is made of freshly drawn operations and behind them all
        leftovers of the last one.  False when the pool has too few operations. */
    method Assemble(size: nat) returns (ok: bool, ghost drawn: seq<nat>)
      requires Valid() && 0 < size <= ops.Length && enqTotal < total
      requires unused <= Min(size, total - enqTotal)
      requires unused > 0 ==> Min(size, total - enqTotal) <= enqd + unused
      modifies this`free, ops, this`enqd, this`unused
      ensures ok <==> Min(size, total - enqTotal) - old(unused) <= |old(free)|
      ensures ok ==> Laid() && enqd == 0 && unused == Min(size, total - enqTotal)
      ensures ok ==> Leftover() == drawn + old(Leftover())
      ensures ok ==> |drawn| == unused - old(unused) && old(free) == free + multiset(drawn)
      ensures ok ==> Valid()
    {
      var burst := if enqTotal + size <= total then size else total - enqTotal;
      ghost var leftover := Leftover();
      ok, drawn := Fill(burst - unused);
      if ok {
        enqd, unused := 0, burst;
        assert Leftover() == drawn + leftover;
      }
    }

    /** Lines 197-207. */
    method Submit()
      requires Valid() && enqd == 0
      modifies this`enqd, this`unused, this`enqTotal, dev
      ensures Valid() && enqd + unused == old(unused) && enqTotal == old(enqTotal) + enqd
      ensures Leftover() == old(Leftover())[enqd..]
      ensures |dev.inflight| == |old(dev.inflight)| + enqd && |dev.taken| == |old(dev.taken)| + enqd
      ensures old(dev.taken) <= dev.taken && dev.given == old(dev.given)
      ensures |dev.script| <= |old(dev.script)|
      ensures enqd == 0 < unused ==> |dev.inflight| == dev.capacity || |dev.script| < |old(dev.script)|
    {
      ghost var burst := Leftover();
      var k := dev.EnqueueBurst(ops[..unused]);
      SplitBurst(burst, k);
      enqd, unused, enqTotal := k, unused - k, enqTotal + k;
      assert Leftover() == burst[k..];
    }

    /** Lines 211-219 and 238-246: what the device gives back is free again. */
    method Collect(size: nat)
      requires Valid() && 0 < size
      modifies this`free, this`deqTotal, dev
      ensures Valid() && deqTotal + |dev.inflight| == old(deqTotal + |dev.inflight|) && old(deqTotal) <= deqTotal
      ensures dev.taken == old(dev.taken) && old(dev.given) <= dev.given
      ensures |dev.script| <= |old(dev.script)|
      ensures deqTotal == old(deqTotal) && |dev.inflight| > 0 ==> |dev.script| < |old(dev.script)|
    {
      var back := dev.DequeueBurst(size);
      free, deqTotal := free + multiset(back), deqTotal + |back|;
    }

    /** What the head of the enqueue loop knows for bursts of `size`. */
    ghost predicate Going(size: nat)
      reads this, ops, dev
    {
      && Valid() && 0 < size <= ops.Length && 0 < dev.capacity && enqTotal <= total
      && deqTotal + |dev.inflight| == enqTotal
      && unused <= Min(size, total - enqTotal)
      && (unused > 0 ==> Min(size, total - enqTotal) <= enqd + unused)
    }

    /** The pool has the operations for the next burst. */
    ghost predicate Enough(size: nat)
      reads this
      requires enqTotal <= total
    {
      Min(size, total - enqTotal) <= |free| + unused
    }

    /** It has, when it is as large as total_ops, or as what the device can hold and one burst. */
    lemma EnoughFree(size: nat)
      requires Going(size) && (total <= |all| || dev.capacity + size <= |all|)
      ensures Enough(size)
    {
      ConservedSizes(all, free, dev.inflight, Leftover());
    }

    /** Lines 185-229: the burst is offered, and what the device has finished is taken back. */
    method Exchange(size: nat)
      requires Valid() && 0 < size <= ops.Length && enqTotal < total && deqTotal + |dev.inflight| == enqTotal
      requires enqd == 0 && unused == Min(size, total - enqTotal) && 0 < dev.capacity
      modifies this`free, this`enqd, this`unused, this`enqTotal, this`deqTotal, dev
      ensures Going(size) && old(enqTotal) <= enqTotal && Left() < old(Left())
      ensures old(dev.taken) <= dev.taken && old(dev.given) <= dev.given
      ensures |dev.taken| - |old(dev.taken)| == enqTotal - old(enqTotal)
    {
      Submit();
      Collect(size);
    }

    /** Lines 146-229: one turn of the enqueue loop, which fails exactly when the pool does not have
        the operations for the burst. */
    method Turn(size: nat) returns (ok: bool)
      requires Going(size) && enqTotal < total
      modifies this`free, this`enqd, this`unused, this`enqTotal, this`deqTotal, ops, dev
      ensures ok <==> old(Enough(size))
      ensures ok ==> Going(size) && old(enqTotal) <= enqTotal && Left() < old(Left())
      ensures ok ==> old(dev.taken) <= dev.taken && old(dev.given) <= dev.given
      ensures ok ==> |dev.taken| - |old(dev.taken)| == enqTotal - old(enqTotal)
    {
      ghost var drawn;
      ok, drawn := Assemble(size);
      if ok {
        Exchange(size);
      }
    }

    /** Lines 144-229: everything is enqueued. */
    method EnqueueAll(size: nat) returns (ok: bool)
      requires Going(size)
      modifies this`free, this`enqd, this`unused, this`enqTotal, this`deqTotal, ops, dev
      ensures ok ==> Going(size) && enqTotal == total && old(dev.taken) <= dev.taken
      ensures ok ==> |dev.taken| - |old(dev.taken)| == total - old(enqTotal)
      ensures total <= |all| || dev.capacity + size <= |all| ==> ok
    {
      while enqTotal < total
        invariant Going(size) && old(dev.taken) <= dev.taken
        invariant |dev.taken| - |old(dev.taken)| == enqTotal - old(enqTotal)
        decreases Left()
      {
        if total <= |all| || dev.capacity + size <= |all| {
          EnoughFree(size);
        }
        ok := Turn(size);
        if !ok {
          return;
        }
      }
      ok := true;
    }

    /** Lines 233-247: the device is emptied. */
    method DrainAll(size: nat)
      requires Going(size) && enqTotal == total
      modifies this`free, this`deqTotal, dev
      ensures Valid() && AtRest() && deqTotal == total
      ensures dev.taken == old(dev.taken)
    {
      while deqTotal < total
        invariant Going(size) && enqTotal == total && dev.taken == old(dev.taken)
        decreases total - deqTotal + |dev.script|
      {
        Collect(size);
      }
      assert dev.inflight == multiset{} && Leftover() == [];
      AllFree(all, free, dev.inflight, Leftover());
    }

    /** Lines 135-247: one round for one burst size.  Every round that finds enough operations, as
        every round does with as many operations as total_ops, or as the device can hold and one
        burst, ends with no leftover and the whole pool free, and the device has accepted exactly
        total_ops operations in it and given the same ones back. */
    method Round(size: nat) returns (ok: bool)
      requires Valid() && AtRest() && 0 < size <= ops.Length && 0 < dev.capacity
      modifies this`free, this`enqd, this`unused, this`enqTotal, this`deqTotal, ops, dev
      ensures ok ==> Valid() && AtRest() && enqTotal == deqTotal == total
      ensures ok ==> old(dev.taken) <= dev.taken && |dev.taken| == |old(dev.taken)| + total
      ensures total <= |all| || dev.capacity + size <= |all| ==> ok
    {
      enqd, enqTotal, deqTotal := 0, 0, 0;
      assert Leftover() == old(Leftover()) == [];
      ok := EnqueueAll(size);
      if ok {
        DrainAll(size);
      }
    }

    /** Lines 134-314: one round for each burst size up to the first that is too large.  The device
        accepts total_ops operations in every round and gives them back. */
    method Run(sizes: seq<nat>) returns (ok: bool, rounds: nat)
      requires Valid() && AtRest() && 0 < dev.capacity && forall i :: 0 <= i < |sizes| ==> 0 < sizes[i]
      modifies this`free, this`enqd, this`unused, this`enqTotal, this`deqTotal, ops, dev
      ensures ok ==> Valid() && AtRest()
      ensures ok ==> Fitting(sizes, rounds, ops.Length)
      ensures ok ==> rounds == |sizes| || sizes[rounds] > ops.Length
      ensures ok ==> old(dev.taken) <= dev.taken && |dev.taken| == |old(dev.taken)| + rounds * total
      ensures total <= |all| ==> ok
    {
      ok, rounds := true, 0;
      while rounds < |sizes| && sizes[rounds] <= ops.Length
        invariant 0 <= rounds && ok && Valid() && AtRest() && Fitting(sizes, rounds, ops.Length)
        invariant old(dev.taken) <= dev.taken && |dev.taken| == |old(dev.taken)| + Times(rounds, total)
      {
        ok := Round(sizes[rounds]);
        if !ok {
          return;
        }
        OneMoreFits(sizes, rounds, ops.Length);
        rounds := rounds + 1;
      }
      TimesIs(rounds, total);
    }
  }
}

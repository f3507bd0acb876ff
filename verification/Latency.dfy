/** The latency runner: every accepted operation gets a result slot of its own, and its return
    stamps that slot. */
module Latency {
  import opened Bytes
  import opened CryptoDevice

  /** Slots [0, next) have been given out.  `owner` maps the slots still waiting for their operation
      to it; the operations of `out` point at exactly these slots.  stamps[i] counts how often slot
      i was stamped. */
  ghost predicate Linked(out: multiset<nat>, slotOf: map<nat, nat>, owner: map<nat, nat>,
                         stamps: seq<nat>, next: nat) {
    && next <= |stamps|
    && (forall i :: i in owner ==> i < next && owner[i] in out && owner[i] in slotOf && slotOf[owner[i]] == i)
    && (forall x :: x in out ==> x in slotOf && slotOf[x] in owner && owner[slotOf[x]] == x)
    && (forall i :: 0 <= i < |stamps| ==> stamps[i] == if i < next && i !in owner then 1 else 0)
  }

  lemma LinkAssign(out: multiset<nat>, slotOf: map<nat, nat>, owner: map<nat, nat>,
                   stamps: seq<nat>, next: nat, x: nat)
    requires Linked(out, slotOf, owner, stamps, next) && x !in out && next < |stamps|
    ensures Linked(out + multiset{x}, slotOf[x := next], owner[next := x], stamps, next + 1)
  {
  }

  lemma LinkStamp(out: multiset<nat>, slotOf: map<nat, nat>, owner: map<nat, nat>,
                  stamps: seq<nat>, next: nat, x: nat)
    requires Linked(out, slotOf, owner, stamps, next) && out[x] == 1
    ensures slotOf[x] < next && stamps[slotOf[x]] == 0
    ensures Linked(out - multiset{x}, slotOf, owner - {slotOf[x]}, stamps[slotOf[x] := stamps[slotOf[x]] + 1], next)
  {
  }

  /** Operations in flight never share a slot, though the objects are used again and again. */
  lemma SlotsDiffer(out: multiset<nat>, slotOf: map<nat, nat>, owner: map<nat, nat>,
                    stamps: seq<nat>, next: nat, x: nat, y: nat)
    requires Linked(out, slotOf, owner, stamps, next) && x in out && y in out && x != y
    ensures slotOf[x] != slotOf[y] && slotOf[x] < next && stamps[slotOf[x]] == 0
  {
  }

  lemma AllStamped(slotOf: map<nat, nat>, owner: map<nat, nat>, stamps: seq<nat>, next: nat)
    requires Linked(multiset{}, slotOf, owner, stamps, next) && next == |stamps|
    ensures forall i :: 0 <= i < |stamps| ==> stamps[i] == 1
  {
  }

  /** Slots from..to got the value x, and no other slot changed. */
  predicate Filled(before: seq<int>, after: seq<int>, from: nat, to: nat, x: int) {
    |after| == |before|
    && forall i :: 0 <= i < |after| ==> after[i] == if from <= i < to then x else before[i]
  }

  /** The slots stamped since `before` got the value x, and no other slot changed. */
  predicate Marked(before: seq<nat>, stamps: seq<nat>, was: seq<int>, now: seq<int>, x: int) {
    |before| == |stamps| == |was| == |now|
    && forall i :: 0 <= i < |stamps| ==>
      before[i] <= stamps[i] && now[i] == if before[i] < stamps[i] then x else was[i]
  }

  lemma FillStep(before: seq<int>, after: seq<int>, from: nat, to: nat, x: int)
    requires Filled(before, after, from, to, x) && from <= to < |after|
    ensures Filled(before, after[to := x], from, to + 1, x)
  {
  }

  lemma MarkStep(before: seq<nat>, stamps: seq<nat>, was: seq<int>, now: seq<int>, x: int, slot: nat)
    requires Marked(before, stamps, was, now, x) && slot < |stamps| && stamps[slot] == 0
    ensures Marked(before, stamps[slot := 1], was, now[slot := x], x)
  {
  }

  lemma Moved(all: multiset<nat>, free: multiset<nat>, before: multiset<nat>, taken: seq<nat>, refused: seq<nat>,
              after: multiset<nat>, back: seq<nat>)
    requires all == free + before + (multiset(taken) + multiset(refused))
    requires before + multiset(taken) == after + multiset(back)
    ensures all == (free + multiset(refused)) + (after + multiset(back))
  {
    assert free + before + (multiset(taken) + multiset(refused))
        == (free + multiset(refused)) + (before + multiset(taken));
  }

  lemma Counted(before: multiset<nat>, taken: seq<nat>, after: multiset<nat>, back: seq<nat>)
    requires before + multiset(taken) == after + multiset(back)
    ensures |before| + |taken| == |after| + |back|
  {
    assert |before + multiset(taken)| == |after + multiset(back)|;
  }

  lemma NextIsNew(burst: seq<nat>, i: nat, pending: multiset<nat>)
    requires i < |burst| && forall x :: (pending + multiset(burst))[x] <= 1
    ensures burst[i] !in pending + multiset(burst[..i])
    ensures pending + multiset(burst[..i]) + multiset{burst[i]} == pending + multiset(burst[..i + 1])
  {
    assert burst == burst[..i] + [burst[i]] + burst[i + 1..];
    assert burst[..i + 1] == burst[..i] + [burst[i]];
    assert (pending + multiset(burst))[burst[i]] <= 1;
  }

  lemma NextIsOut(back: seq<nat>, i: nat, rest: multiset<nat>)
    requires i < |back| && forall x :: (rest + multiset(back))[x] <= 1
    ensures (rest + multiset(back[i..]))[back[i]] == 1
    ensures rest + multiset(back[i..]) - multiset{back[i]} == rest + multiset(back[i + 1..])
  {
    assert back == back[..i] + back[i..];
    assert back[i..] == [back[i]] + back[i + 1..];
    assert (rest + multiset(back))[back[i]] <= 1;
  }

  class Runner {
    const ops: array<nat>
    const dev: Device
    const total: nat
    const starts: array<int>   // res[i].tsc_start
    const ends: array<int>     // res[i].tsc_end
    const clock: nat -> int    // the time stamp counter at its n-th reading
    ghost const all: set<nat>

    var free: multiset<nat>
    var slotOf: map<nat, nat>  // the result an operation's private data points at
    var ticks: nat
    var tscIdx: nat
    var enqTotal: nat
    var deqTotal: nat
    ghost var owner: map<nat, nat>
    ghost var stamps: seq<nat>

    constructor (maxBurst: nat, total: nat, pool: set<nat>, dev: Device, clock: nat -> int)
      requires dev.Valid() && |dev.inflight| == 0 && 0 < dev.capacity && forall m, n :: m <= n ==> clock(m) <= clock(n)
      ensures Shape() && Balanced() && dev.inflight == multiset{}
      ensures fresh(ops) && fresh(starts) && fresh(ends) && this.dev == dev && this.total == total
    {
      ops := new nat[maxBurst];
      starts := new int[total];
      ends := new int[total];
      this.dev, this.total, all, this.clock, free := dev, total, pool, clock, multiset(pool);
      slotOf, ticks, tscIdx, enqTotal, deqTotal := map[], 0, 0, 0, 0;
      owner, stamps := map[], seq(total, _ => 0);
    }

    ghost predicate Shape()
    {
      starts.Length == ends.Length == total && starts != ends && 0 < dev.capacity
      && forall m, n :: m <= n ==> clock(m) <= clock(n)
    }

    ghost predicate Balanced()
      reads this`free, dev
    {
      multiset(all) == free + dev.inflight && dev.Valid()
    }

    /** Operations that were not returned yet, and the device's questions that its script answers:
        what a turn makes smaller. */
    ghost function Left(): nat
      reads this`enqTotal, this`deqTotal, dev
      requires enqTotal <= total && deqTotal <= total
    {
      (total - enqTotal) + (total - deqTotal) + |dev.script|
    }

    /** The operations in the device point at the slots that are not stamped yet. */
    ghost predicate Pointed()
      reads this`slotOf, this`owner, this`stamps, this`tscIdx, dev
    {
      Linked(dev.inflight, slotOf, owner, stamps, tscIdx)
    }

    /** Every given slot started in the past, and every stamped one ended after it started. */
    ghost predicate Timed()
      reads this`ticks, this`stamps, this`tscIdx, starts, ends
      requires Shape()
    {
      && |stamps| == total && tscIdx <= total
      && (forall i :: 0 <= i < tscIdx ==> starts[i] <= clock(ticks))
      && (forall i :: 0 <= i < tscIdx && stamps[i] == 1 ==> starts[i] <= ends[i])
    }

    ghost predicate Going(size: nat)
      reads this, dev, starts, ends
    {
      && Shape() && Balanced() && Pointed() && Timed()
      && 0 < size <= ops.Length && tscIdx == enqTotal <= total
      && deqTotal + |dev.inflight| == enqTotal
    }

    /** rte_rdtsc_precise. */
    method ReadClock() returns (t: int)
      requires Shape() && Timed()
      modifies this`ticks
      ensures Timed() && t == clock(ticks) && ticks == old(ticks) + 1
    {
      ticks := ticks + 1;
      t := clock(ticks);
    }

    /** Lines 191-192. */
    method GetBulk(n: nat) returns (ok: bool)
      requires n <= ops.Length
      modifies this`free, ops
      ensures ok <==> n <= |old(free)|
      ensures !ok ==> free == old(free)
      ensures ok ==> old(free) == free + multiset(ops[..n])
    {
      if |free| < n {
        return false;
      }
      var i := 0;
      while i < n
        invariant 0 <= i <= n && old(free) == free + multiset(ops[..i])
      {
        var x :| x in free;
        ghost var before := ops[..i];
        ops[i] := x;
        assert ops[..i + 1] == before + [x];
        free := free - multiset{x};
        i := i + 1;
      }
      ok := true;
    }

    /** Lines 238-245 for one operation: it gets the next slot. */
    method AssignOne(x: nat, start: int, ghost out: multiset<nat>)
      requires Shape() && Timed() && tscIdx < total && start <= clock(ticks)
      requires Linked(out, slotOf, owner, stamps, tscIdx) && x !in out
      modifies this`slotOf, this`owner, this`tscIdx, starts
      ensures tscIdx == old(tscIdx) + 1 && Timed()
      ensures starts[..] == old(starts[..])[old(tscIdx) := start]
      ensures Linked(out + multiset{x}, slotOf, owner, stamps, tscIdx)
    {
      LinkAssign(out, slotOf, owner, stamps, tscIdx, x);
      starts[tscIdx] := start;
      slotOf := slotOf[x := tscIdx];
      owner := owner[tscIdx := x];
      tscIdx := tscIdx + 1;
    }

    /** Lines 237-246: the accepted operations get the next slots, one each. */
    method AssignSlots(burst: seq<nat>, start: int, ghost pending: multiset<nat>)
      requires Shape() && Timed() && tscIdx + |burst| <= total && start <= clock(ticks)
      requires Linked(pending, slotOf, owner, stamps, tscIdx)
      requires forall x :: (pending + multiset(burst))[x] <= 1
      modifies this`slotOf, this`owner, this`tscIdx, starts
      ensures tscIdx == old(tscIdx) + |burst| && Timed()
      ensures Filled(old(starts[..]), starts[..], old(tscIdx), tscIdx, start)
      ensures Linked(pending + multiset(burst), slotOf, owner, stamps, tscIdx)
    {
      var i := 0;
      assert burst[..0] == [];
      while i < |burst|
        invariant 0 <= i <= |burst| && tscIdx == old(tscIdx) + i && Timed()
        invariant Filled(old(starts[..]), starts[..], old(tscIdx), tscIdx, start)
        invariant Linked(pending + multiset(burst[..i]), slotOf, owner, stamps, tscIdx)
      {
        NextIsNew(burst, i, pending);
        FillStep(old(starts[..]), starts[..], old(tscIdx), tscIdx, start);
        AssignOne(burst[i], start, pending + multiset(burst[..i]));
        i := i + 1;
      }
      assert burst[..i] == burst;
    }

    /** Lines 114-122: the returned operation stamps the slot it points at. */
    method StampOne(x: nat, end: int, ghost out: multiset<nat>)
      requires Shape() && Timed() && end == clock(ticks)
      requires Linked(out, slotOf, owner, stamps, tscIdx) && out[x] == 1
      modifies this`owner, this`stamps, ends
      ensures Timed() && Linked(out - multiset{x}, slotOf, owner, stamps, tscIdx)
      ensures slotOf[x] < total && stamps == old(stamps)[slotOf[x] := 1] && ends[..] == old(ends[..])[slotOf[x] := end]
    {
      LinkStamp(out, slotOf, owner, stamps, tscIdx, x);
      var slot := slotOf[x];
      ends[slot] := end;
      stamps := stamps[slot := stamps[slot] + 1];
      owner := owner - {slot};
    }

    /** Lines 250-251 and 280-281. */
    method StampAll(back: seq<nat>, end: int, ghost rest: multiset<nat>)
      requires Shape() && Timed() && end == clock(ticks)
      requires Linked(rest + multiset(back), slotOf, owner, stamps, tscIdx)
      requires forall x :: (rest + multiset(back))[x] <= 1
      modifies this`owner, this`stamps, ends
      ensures Timed() && Linked(rest, slotOf, owner, stamps, tscIdx)
      ensures Marked(old(stamps), stamps, old(ends[..]), ends[..], end)
    {
      var i := 0;
      assert back[0..] == back;
      while i < |back|
        invariant 0 <= i <= |back| && Timed()
        invariant Marked(old(stamps), stamps, old(ends[..]), ends[..], end)
        invariant Linked(rest + multiset(back[i..]), slotOf, owner, stamps, tscIdx)
      {
        NextIsOut(back, i, rest);
        LinkStamp(rest + multiset(back[i..]), slotOf, owner, stamps, tscIdx, back[i]);
        MarkStep(old(stamps), stamps, old(ends[..]), ends[..], end, slotOf[back[i]]);
        StampOne(back[i], end, rest + multiset(back[i..]));
        i := i + 1;
      }
    }

    lemma InFlightOnce(free: multiset<nat>, out: multiset<nat>)
      requires multiset(all) == free + out
      ensures forall x :: out[x] <= 1
    {
      forall x ensures out[x] <= 1 {
        assert multiset(all)[x] == (free + out)[x];
      }
    }

    /** Lines 273-276. */
    method TakeBack(size: nat) returns (back: seq<nat>, end: int)
      requires Shape() && Balanced() && Pointed() && Timed() && 0 < size
      modifies this`ticks, dev
      ensures Timed() && end == clock(ticks) && ticks == old(ticks) + 1
      ensures old(dev.inflight) == dev.inflight + multiset(back) && dev.taken == old(dev.taken)
      ensures multiset(all) == free + (dev.inflight + multiset(back))
      ensures forall x :: (dev.inflight + multiset(back))[x] <= 1
      ensures dev.Valid() && |dev.script| <= |old(dev.script)|
      ensures back == [] && |dev.inflight| > 0 ==> |dev.script| < |old(dev.script)|
    {
      back := dev.DequeueBurst(size);
      end := ReadClock();
      InFlightOnce(free, dev.inflight + multiset(back));
    }

    /** Lines 257-258 and 283-284. */
    method GiveBack(back: seq<nat>)
      requires dev.Valid() && multiset(all) == free + (dev.inflight + multiset(back))
      modifies this`free, this`deqTotal
      ensures Balanced() && deqTotal == old(deqTotal) + |back|
    {
      free := free + multiset(back);
      deqTotal := deqTotal + |back|;
    }

    /** Lines 268-290: the device is emptied. */
    method CollectAndStamp(size: nat)
      requires Going(size)
      modifies this`owner, this`stamps, this`free, this`deqTotal, this`ticks, ends, dev
      ensures Going(size) && old(deqTotal) <= deqTotal && |dev.script| <= |old(dev.script)|
      ensures dev.taken == old(dev.taken)
      ensures deqTotal == old(deqTotal) && |dev.inflight| > 0 ==> |dev.script| < |old(dev.script)|
      ensures Marked(old(stamps), stamps, old(ends[..]), ends[..], clock(old(ticks) + 1))
    {
      var back, end := TakeBack(size);
      StampAll(back, end, dev.inflight);
      GiveBack(back);
    }

    /** Lines 222-235: a burst is offered, the device may return operations at once, even ones of
        this burst, and what it refused goes back to the pool. */
    method Exchange(size: nat, burst: nat) returns (taken: seq<nat>, back: seq<nat>)
      requires burst <= ops.Length && 0 < size && dev.Valid() && 0 < dev.capacity
      requires multiset(all) == free + dev.inflight + multiset(ops[..burst])
      modifies this`free, dev
      ensures |taken| <= burst && dev.inflight + multiset(back) == old(dev.inflight) + multiset(taken)
      ensures dev.taken == old(dev.taken) + multiset(taken)
      ensures multiset(all) == free + (dev.inflight + multiset(back))
      ensures |dev.script| <= |old(dev.script)| && dev.Valid()
      ensures taken == [] && back == [] && burst > 0 ==> |dev.script| < |old(dev.script)|
    {
      var offered := ops[..burst];
      ghost var before := dev.inflight;
      var k := dev.EnqueueBurst(offered);
      taken := offered[..k];
      back := dev.DequeueBurst(size);
      ghost var pool := free;
      free := free + multiset(offered[k..]);
      SplitBurst(offered, k);
      Moved(multiset(all), pool, before, taken, offered[k..], dev.inflight, back);
    }

    /** Lines 208-227: the exchange between two readings of the clock. */
    method Offer(size: nat, burst: nat) returns (taken: seq<nat>, back: seq<nat>, start: int, end: int)
      requires Shape() && Timed() && burst <= ops.Length && 0 < size && dev.Valid()
      requires multiset(all) == free + dev.inflight + multiset(ops[..burst])
      modifies this`free, this`ticks, dev
      ensures Timed() && start <= clock(ticks) == end
      ensures start == clock(old(ticks) + 1) && ticks == old(ticks) + 2
      ensures |taken| <= burst && dev.inflight + multiset(back) == old(dev.inflight) + multiset(taken)
      ensures dev.taken == old(dev.taken) + multiset(taken)
      ensures multiset(all) == free + (dev.inflight + multiset(back))
      ensures |dev.script| <= |old(dev.script)| && dev.Valid()
      ensures taken == [] && back == [] && burst > 0 ==> |dev.script| < |old(dev.script)|
    {
      start := ReadClock();
      taken, back := Exchange(size, burst);
      end := ReadClock();
    }

    /** Lines 237-259: slots for the accepted operations first, then the stamps of the returned. */
    method Record(taken: seq<nat>, back: seq<nat>, start: int, end: int, ghost before: multiset<nat>)
      requires Shape() && Timed() && start <= clock(ticks) == end && tscIdx + |taken| <= total
      requires Linked(before, slotOf, owner, stamps, tscIdx)
      requires before + multiset(taken) == dev.inflight + multiset(back)
      requires multiset(all) == free + (dev.inflight + multiset(back))
      modifies this`slotOf, this`owner, this`stamps, this`tscIdx, starts, ends
      ensures Timed() && Pointed() && tscIdx == old(tscIdx) + |taken|
      ensures Filled(old(starts[..]), starts[..], old(tscIdx), tscIdx, start)
      ensures Marked(old(stamps), stamps, old(ends[..]), ends[..], end)
    {
      InFlightOnce(free, before + multiset(taken));
      AssignSlots(taken, start, before);
      StampAll(back, end, dev.inflight);
    }

    /** The pool has the operations for the next burst. */
    ghost predicate Enough(size: nat)
      reads this`free, this`enqTotal
      requires enqTotal <= total
    {
      Min(size, total - enqTotal) <= |free|
    }

    /** It has, when it is as large as total_ops, or as what the device can hold and one burst. */
    lemma EnoughFree(size: nat)
      requires Balanced() && enqTotal <= total && deqTotal + |dev.inflight| == enqTotal
      requires total <= |all| || dev.capacity + size <= |all|
      ensures Enough(size)
    {
      assert |multiset(all)| == |free + dev.inflight|;
    }

    /** Lines 229-264: what the exchange brought is recorded and counted. */
    method Settle(size: nat, taken: seq<nat>, back: seq<nat>, start: int, end: int, ghost before: multiset<nat>)
      requires Shape() && Timed() && start <= clock(ticks) == end && 0 < size <= ops.Length
      requires Linked(before, slotOf, owner, stamps, tscIdx)
      requires before + multiset(taken) == dev.inflight + multiset(back)
      requires multiset(all) == free + (dev.inflight + multiset(back)) && dev.Valid()
      requires tscIdx == enqTotal && deqTotal + |before| == enqTotal && enqTotal + |taken| <= total
      modifies this`free, this`slotOf, this`owner, this`stamps, this`tscIdx, this`enqTotal, this`deqTotal, starts, ends
      ensures Going(size) && enqTotal == old(enqTotal) + |taken| && deqTotal == old(deqTotal) + |back|
      ensures Filled(old(starts[..]), starts[..], old(tscIdx), tscIdx, start)
      ensures Marked(old(stamps), stamps, old(ends[..]), ends[..], end)
    {
      Counted(before, taken, dev.inflight, back);
      Record(taken, back, start, end, before);
      GiveBack(back);
      enqTotal := enqTotal + |taken|;
    }

    /** Lines 208-265: the burst that was drawn is offered, and what comes back is recorded. */
    method Work(size: nat, burst: nat)
      requires Shape() && Pointed() && Timed() && 0 < size <= ops.Length
      requires 0 < burst <= total - enqTotal && burst <= ops.Length
      requires multiset(all) == free + dev.inflight + multiset(ops[..burst]) && dev.Valid()
      requires tscIdx == enqTotal && deqTotal + |dev.inflight| == enqTotal
      modifies this`free, this`slotOf, this`owner, this`stamps, this`tscIdx, this`ticks,
        this`enqTotal, this`deqTotal, starts, ends, dev
      ensures Going(size) && old(enqTotal) <= enqTotal && Left() < old(Left())
      ensures old(dev.taken) <= dev.taken && |dev.taken| - |old(dev.taken)| == enqTotal - old(enqTotal)
      ensures Filled(old(starts[..]), starts[..], old(tscIdx), tscIdx, clock(old(ticks) + 1))
      ensures Marked(old(stamps), stamps, old(ends[..]), ends[..], clock(old(ticks) + 2))
    {
      ghost var before := dev.inflight;
      var taken, back, start, end := Offer(size, burst);
      Settle(size, taken, back, start, end, before);
    }

    /** Lines 184-265: one turn of the enqueue loop, which fails exactly when the pool does not have
        the operations for the burst. */
    method Turn(size: nat) returns (ok: bool)
      requires Going(size) && enqTotal < total
      modifies this`free, this`slotOf, this`owner, this`stamps, this`tscIdx, this`ticks,
        this`enqTotal, this`deqTotal, ops, starts, ends, dev
      ensures ok <==> old(Enough(size))
      ensures ok ==> Going(size) && old(enqTotal) <= enqTotal && Left() < old(Left())
      ensures ok ==> old(dev.taken) <= dev.taken && |dev.taken| - |old(dev.taken)| == enqTotal - old(enqTotal)
      ensures ok ==> Filled(old(starts[..]), starts[..], old(tscIdx), tscIdx, clock(old(ticks) + 1))
      ensures ok ==> Marked(old(stamps), stamps, old(ends[..]), ends[..], clock(old(ticks) + 2))
    {
      var burst := if enqTotal + size <= total then size else total - enqTotal;
      ok := GetBulk(burst);
      if ok {
        Work(size, burst);
      }
    }

    /** Lines 174-290: one round for one burst size.  Every round that finds enough operations gives
        out each result slot once, and each is stamped by exactly one return, after its start. */
    method Round(size: nat) returns (ok: bool)
      requires Shape() && Balanced() && |dev.inflight| == 0 && 0 < size <= ops.Length
      modifies this`free, this`slotOf, this`owner, this`stamps, this`tscIdx, this`ticks,
        this`enqTotal, this`deqTotal, ops, starts, ends, dev
      ensures total <= |all| || dev.capacity + size <= |all| ==> ok
      ensures ok ==> Shape() && Balanced() && |dev.inflight| == 0 && dev.given == dev.taken
      ensures ok ==> old(dev.taken) <= dev.taken && |dev.taken| == |old(dev.taken)| + total
      ensures ok ==> tscIdx == enqTotal == deqTotal == total == |stamps|
      ensures ok ==> forall i :: 0 <= i < total ==> stamps[i] == 1 && starts[i] <= ends[i]
    {
      tscIdx, enqTotal, deqTotal := 0, 0, 0;
      owner, stamps := map[], seq(total, _ => 0);
      assert dev.inflight == multiset{};
      while enqTotal < total
        invariant Going(size) && old(dev.taken) <= dev.taken && |dev.taken| == |old(dev.taken)| + enqTotal
        decreases Left()
      {
        if total <= |all| || dev.capacity + size <= |all| {
          EnoughFree(size);
        }
        ok := Turn(size);
        if !ok {
          return;
        }
      }
      while deqTotal < total
        invariant Going(size) && enqTotal == total
        invariant old(dev.taken) <= dev.taken && |dev.taken| == |old(dev.taken)| + total
        decreases total - deqTotal + |dev.script|
      {
        CollectAndStamp(size);
      }
      assert dev.inflight == multiset{};
      AllStamped(slotOf, owner, stamps, tscIdx);
      ok := true;
    }
  }
}

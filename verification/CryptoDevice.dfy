/** The crypto device and the operation pool as both crypto runners meet them.  The device is an
    adversary: it accepts any part of a burst and returns any of the operations it holds, in any
    order. */
module CryptoDevice {
  import opened Bytes
  import opened Script

  /** `script` holds the device's answers to come. */
  class Device {
    const capacity: nat            // how many operations it can hold

    var inflight: multiset<nat>
    var script: seq<nat>
    ghost var taken: multiset<nat>  // every operation it ever accepted, as often as it did
    ghost var given: multiset<nat>  // every operation it ever gave back

    constructor (capacity: nat, script: seq<nat>)
      ensures Valid() && inflight == multiset{} && this.capacity == capacity && this.script == script
    {
      inflight, this.capacity, this.script := multiset{}, capacity, script;
      taken, given := multiset{}, multiset{};
    }

    /** It holds what it accepted and has not given back. */
    ghost predicate Valid()
      reads this
    {
      |inflight| <= capacity && taken == given + inflight
    }

    method EnqueueBurst(ops: seq<nat>) returns (k: nat)
      requires Valid()
      modifies this
      ensures Valid() && k <= |ops| && inflight == old(inflight) + multiset(ops[..k])
      ensures taken == old(taken) + multiset(ops[..k]) && given == old(given)
      ensures |script| <= |old(script)|
      ensures k < |ops| ==> |inflight| == capacity || |script| < |old(script)|
    {
      var reply := Answer(script, Min(|ops|, capacity - |inflight|));
      k, script := reply.k, reply.rest;
      inflight, taken := inflight + multiset(ops[..k]), taken + multiset(ops[..k]);
    }

    method Draw(n: nat) returns (drawn: seq<nat>)
      requires n <= |inflight|
      modifies this`inflight
      ensures |drawn| == n && old(inflight) == inflight + multiset(drawn)
    {
      drawn := [];
      while |drawn| < n
        invariant |drawn| <= n && old(inflight) == inflight + multiset(drawn)
      {
        var x :| x in inflight;
        drawn, inflight := drawn + [x], inflight - multiset{x};
      }
    }

    method DequeueBurst(limit: nat) returns (burst: seq<nat>)
      requires Valid()
      modifies this
      ensures Valid() && |burst| <= limit && old(inflight) == inflight + multiset(burst)
      ensures given == old(given) + multiset(burst) && taken == old(taken)
      ensures |script| <= |old(script)|
      ensures burst == [] && 0 < limit && |inflight| > 0 ==> |script| < |old(script)|
    {
      var reply := Answer(script, Min(limit, |inflight|));
      script := reply.rest;
      burst := Draw(reply.k);
      given := given + multiset(burst);
    }
  }

  lemma SplitBurst(burst: seq<nat>, k: nat)
    requires k <= |burst|
    ensures multiset(burst) == multiset(burst[..k]) + multiset(burst[k..])
  {
    assert burst == burst[..k] + burst[k..];
  }
}

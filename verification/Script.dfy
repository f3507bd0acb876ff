/** The answers of a device.  A run that ends asks only finitely many questions, and after the script
    the device takes and gives whatever it can. */
module Script {
  import opened Bytes

  datatype Reply = Reply(k: nat, rest: seq<nat>)

  function Answer(script: seq<nat>, limit: nat): (r: Reply)
    ensures r.k <= limit && |r.rest| <= |script| && (r.k < limit ==> |r.rest| < |script|)
  {
    if script == [] then Reply(limit, []) else Reply(Min(script[0], limit), script[1..])
  }
}

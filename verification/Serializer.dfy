/**
  The promise-chain lock (utils/serialize.js). A call is known by its number; `after` says whose
  settlement it waits for, `last` is the end of the chain the next call will hang on.
 */
module Serializer {
  import opened Wrappers

  datatype Chain = Chain(after: seq<Option<nat>>, last: Option<nat>)

  /** `run = chain.then(fn)`, then `chain = run.catch(...)`, which settles when the run does, either way. */
  function Append(c: Chain): Chain {
    Chain(c.after + [c.last], Some(|c.after|))
  }

  class Lock {
    var after: seq<Option<nat>>
    var chain: Option<nat>

    function State(): Chain
      reads this
    {
      Chain(after, chain)
    }

    constructor ()
      ensures State() == Chain([], None)
    {
      after, chain := [], None;
    }

    method WithLock() returns (run: nat)
      modifies this
      ensures run == |old(State()).after|
      ensures State() == Append(old(State()))
    {
      run := |after|;
      after := after + [chain];
      chain := Some(run);
    }
  }

  /** In a chain built by the lock every call waits for the call before it. */
  predicate IsQueue(c: Chain) {
    && c.last == (if c.after == [] then None else Some(|c.after| - 1))
    && forall i :: 0 <= i < |c.after| ==> c.after[i] == if i == 0 then None else Some(i - 1)
  }
}

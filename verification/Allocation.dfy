/** Allocation outcomes: request number `t` of the process fails exactly when `exhausted(t)`. */
module Allocation {
  class Memory {
    var clock: nat
    const exhausted: nat -> bool

    constructor (exhausted: nat -> bool)
      ensures clock == 0 && this.exhausted == exhausted
    {
      clock := 0;
      this.exhausted := exhausted;
    }

    ghost predicate Unlimited() {
      forall t :: !exhausted(t)
    }

    /** No request from number `from` up to number `to` fails. */
    ghost predicate Quiet(from: nat, to: nat) {
      forall u :: from <= u < to ==> !exhausted(u)
    }

    /** Request `t` is the first to fail from request `from` on. */
    ghost predicate FirstFailure(from: nat, t: nat) {
      from <= t && exhausted(t) && Quiet(from, t)
    }

    method Allocate() returns (ok: bool)
      modifies this
      ensures clock == old(clock) + 1
      ensures ok <==> !exhausted(old(clock))
    {
      ok := !exhausted(clock);
      clock := clock + 1;
    }
  }
}

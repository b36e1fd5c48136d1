/** The auction deadline: a signal that every poll may find raised, and that stays raised. */
module Contexts {
  import opened Options

  class Context {
    /** The first poll that finds the context cancelled; None when it never is. */
    const cancelledFrom: Option<nat>
    var polls: nat

    constructor (cancelledFrom: Option<nat>)
      ensures this.cancelledFrom == cancelledFrom && polls == 0
    {
      this.cancelledFrom := cancelledFrom;
      polls := 0;
    }

    /** Whether some poll so far has found the context cancelled. */
    ghost predicate Fired()
      reads this
    {
      cancelledFrom.Some? && cancelledFrom.value < polls
    }

    method Cancelled() returns (r: bool)
      modifies this
      ensures polls == old(polls) + 1
      ensures r <==> Fired()
      ensures old(Fired()) ==> r
    {
      r := cancelledFrom.Some? && cancelledFrom.value <= polls;
      polls := polls + 1;
    }
  }
}

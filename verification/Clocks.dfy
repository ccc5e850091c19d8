/** The clock that waiting code reads and waits on, and the contexts that may end its waits. */
module Clocks {

  /** A clock in nanoseconds that never goes backwards. */
  class Clock {
    var now: int
    /** Whether a context has been seen to end. */
    ghost var interrupted: bool

    method Now() returns (t: int)
      modifies this`now
      ensures t == now >= old(now)
    {
      var passed :| 0 <= passed;
      now := now + passed;
      return now;
    }

    /** Whether a context has ended. */
    method Ended() returns (ended: bool)
      modifies this`interrupted
      ensures interrupted == (old(interrupted) || ended)
    {
      ended := *;
      interrupted := interrupted || ended;
    }

    /** A wait that ends early, because its context does, reports failure. */
    method Wait(delay: int) returns (ok: bool)
      modifies this
      ensures now >= old(now) && (ok ==> now >= old(now) + delay)
      ensures interrupted == (old(interrupted) || !ok)
    {
      var passed :| 0 <= passed;
      now := now + passed;
      ok := passed >= delay;
      interrupted := interrupted || !ok;
    }
  }
}

/** The polling strategies a waiter can be configured with, and the ticker
    that drives one wait. The ticker's timing (sleeps, wall-clock deadlines)
    is abstracted to a finite budget of further rounds. */
module Poller {

  /** A span of time, in milliseconds. */
  datatype Duration = Millis(ms: nat)

  /** How repeated attempts are spaced. */
  datatype ElementPoller =
    | NoWait
    | FixedCount(interval: Duration, maxAttempts: nat)
    | TimeoutWithInterval(timeout: Duration, interval: Duration)

  /** The number of further rounds a fresh ticker for `poller` grants after
      the first one. For the timed strategy that number depends on the wall
      clock, so it is the input `clock`. */
  function Allowance(poller: ElementPoller, clock: nat): (n: nat)
    ensures poller.NoWait? ==> n == 0
    ensures poller.FixedCount? ==> n == poller.maxAttempts
  {
    match poller
    case NoWait => 0
    case FixedCount(_, maxAttempts) => maxAttempts
    case TimeoutWithInterval(_, _) => clock
  }

  /** A single-use cursor over a poller's schedule. */
  class Ticker {
    const poller: ElementPoller
    /** Further rounds this ticker will still grant. */
    var remaining: nat

    constructor (poller: ElementPoller, clock: nat)
      ensures this.poller == poller
      ensures remaining == Allowance(poller, clock)
    {
      this.poller := poller;
      remaining := Allowance(poller, clock);
    }

    /** Asks for another round. A granted round uses up one unit of the
        budget; once a tick is refused, every later tick is refused too. */
    method Tick() returns (more: bool)
      modifies this
      ensures more <==> old(remaining) > 0
      ensures remaining == if more then old(remaining) - 1 else old(remaining)
      ensures !more ==> remaining == 0
    {
      more := remaining > 0;
      if more {
        remaining := remaining - 1;
      }
    }
  }
}

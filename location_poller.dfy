/**
 * The location poll of the component: `updateLocation()` once when the effect
 * runs, then again on every tick of `setInterval(updateLocation, 5000)`, until the
 * effect's cleanup calls `clearInterval`. Time is a parameter (milliseconds);
 * the geolocation request itself is only counted.
 */
module LocationPoller {

  /** The `setInterval` period, in milliseconds. */
  const Interval: nat := 5000

  /**
   * Requests issued by time `now` by a poll started at `start` that is still
   * running: the immediate one plus one per whole interval elapsed.
   */
  function RequestsBy(start: int, now: int): (n: nat)
    requires start <= now
    ensures n >= 1
    ensures start + (n - 1) * Interval <= now < start + n * Interval
  {
    1 + (now - start) / Interval
  }

  /** k whole intervals after the start (and less than one more), k + 1 requests have been issued. */
  lemma Schedule(start: int, k: nat, r: nat)
    requires r < Interval
    ensures RequestsBy(start, start + k * Interval + r) == k + 1
  {
  }

  class Poller {
    /** The effect has run: the first request is out and the interval is set. */
    var started: bool
    /** The cleanup has run and the interval is cleared. */
    var cancelled: bool
    /** Location requests issued so far. */
    var requestsIssued: nat
    /** When the effect ran. */
    var startedAt: int
    /** When the interval was cleared. */
    var cancelledAt: int
    /** The latest time the event loop has reached. */
    var clock: int

    /** Every interval that has come due while the poll was running has issued its request. */
    ghost predicate Valid()
      reads this
    {
      (!started ==> !cancelled && requestsIssued == 0) &&
      (started ==>
        startedAt <= clock &&
        (cancelled ==> startedAt <= cancelledAt <= clock && requestsIssued == RequestsBy(startedAt, cancelledAt)) &&
        (!cancelled ==> requestsIssued == RequestsBy(startedAt, clock)))
    }

    constructor (now: int)
      ensures Valid()
      ensures !started && !cancelled && requestsIssued == 0 && clock == now
    {
      started, cancelled, requestsIssued := false, false, 0;
      startedAt, cancelledAt, clock := now, now, now;
    }

    /** The effect body: one location request at once, then a repeating 5000 ms interval. */
    method Start()
      requires Valid() && !started
      modifies this
      ensures Valid()
      ensures started && !cancelled && requestsIssued == 1
      ensures startedAt == clock == old(clock)
    {
      started, startedAt := true, clock;
      requestsIssued := 1;
    }

    /**
     * The event loop reaches time `now` and runs every interval callback that has
     * come due; once the interval is cleared nothing runs.
     */
    method Tick(now: int)
      requires Valid() && clock <= now
      modifies this
      ensures Valid() && clock == now
      ensures started == old(started) && cancelled == old(cancelled)
      ensures startedAt == old(startedAt) && cancelledAt == old(cancelledAt)
      ensures requestsIssued == if started && !cancelled then RequestsBy(startedAt, now) else old(requestsIssued)
    {
      if started && !cancelled {
        // each callback that has come due issues one request
        var issued := requestsIssued;
        var due := startedAt + issued * Interval;
        while due <= now
          invariant issued >= 1
          invariant due == startedAt + issued * Interval
          invariant startedAt + (issued - 1) * Interval <= now
          decreases now - due
        {
          issued := issued + 1;
          due := due + Interval;
        }
        Schedule(startedAt, issued - 1, now - (startedAt + (issued - 1) * Interval));
        requestsIssued := issued;
      }
      clock := now;
    }

    /** The effect's cleanup clears the interval; clearing it twice is harmless. */
    method Cancel()
      requires Valid() && started
      modifies this
      ensures Valid() && cancelled
      ensures started && clock == old(clock) && startedAt == old(startedAt)
      ensures requestsIssued == old(requestsIssued)
      ensures cancelledAt == if old(cancelled) then old(cancelledAt) else clock
    {
      if !cancelled {
        cancelled, cancelledAt := true, clock;
      }
    }
  }

  /**
   * A poll started at time 0: one request at once, one more at 5000 ms; cleared
   * at 6000 ms, it issues nothing at 10000 ms.
   */
  method PollThenCancel() returns (issuedAt5000: nat, issuedAt10000: nat)
    ensures issuedAt5000 == 2 && issuedAt10000 == 2
  {
    var poller := new Poller(0);
    poller.Start();
    assert poller.requestsIssued == 1;
    poller.Tick(4999);
    assert poller.requestsIssued == 1;
    poller.Tick(5000);
    issuedAt5000 := poller.requestsIssued;
    poller.Tick(6000);
    poller.Cancel();
    poller.Tick(10000);
    issuedAt10000 := poller.requestsIssued;
  }
}

/** pkg/http/circuit_breaker.go as code. */
module CircuitBreakerClient {
  // doRequest and isCircuitOpen of one request, with the other requests let in between any two of its atomic
  // operations.

  import opened CircuitBreaker

  datatype Answer = Rejected | Answered(err: Error, statusCode: int)

  /** A change of recentFailures: one more, after the write own and with known writes made so far, or back to 0. */
  datatype Count = Counted(own: nat, known: nat) | Reset

  function FailuresOf(counts: seq<Count>): nat {
    if counts == [] || counts[|counts| - 1].Reset? then 0 else FailuresOf(counts[..|counts| - 1]) + 1
  }

  /** A failure is counted when its own store is among the writes. */
  predicate CountedAfterStore(writes: seq<Write>, count: Count) {
    count.Counted? ==> count.own < count.known <= |writes| && writes[count.own].ByFailure?
  }

  class Client {
    const settings: Settings
    var recentFailures: int
    var nextRetryAt: int
    var writes: seq<Write>   // the history of nextRetryAt; no request reads it
    var counts: seq<Count>   // the history of recentFailures; no request reads it

    /** What the shared integers keep to at any moment. */
    ghost predicate Shared()
      reads this
    {
      && recentFailures == FailuresOf(counts)
      && (forall count <- counts :: CountedAfterStore(writes, count))
      && (recentFailures > 0 ==> writes != [])
      && nextRetryAt == Awaited(writes, |writes| - 1)
      && forall w <- writes :: WriteInv(settings, w)
    }

    constructor (settings: Settings)
      ensures Shared() && this.settings == settings && writes == [] && counts == []
    {
      this.settings, recentFailures, nextRetryAt, writes, counts := settings, 0, 0, [], [];
    }

    method Now() returns (now: int) {
      now := *;
    }

    // ---- the atomic operations

    method StoreNextRetryAt(value: int, reading: int)
      requires Shared() && value == Ms(reading + settings.retryDelay)
      modifies this`nextRetryAt, this`writes
      ensures Shared() && writes == old(writes) + [ByFailure(value, reading)]
    {
      nextRetryAt := value;
      writes := writes + [ByFailure(value, reading)];
    }

    method CompareAndSwapNextRetryAt(expected: int, value: int, now: int) returns (swapped: bool)
      requires Shared() && value == Ms(now) + Ms(settings.retryDelay)
      modifies this`nextRetryAt, this`writes
      ensures Shared() && swapped == (old(nextRetryAt) == expected)
      ensures writes == if swapped then old(writes) + [ByProbe(value, now)] else old(writes)
    {
      swapped := nextRetryAt == expected;
      if swapped {
        nextRetryAt := value;
        writes := writes + [ByProbe(value, now)];
      }
    }

    /** Counting goes with the write it is for, which only the history needs. */
    method AddFailure(own: nat) returns (newFailures: int)
      requires Shared() && own < |writes| && writes[own].ByFailure?
      modifies this`recentFailures, this`counts
      ensures Shared() && newFailures == recentFailures == old(recentFailures) + 1
      ensures counts == old(counts) + [Counted(own, |writes|)]
    {
      recentFailures := recentFailures + 1;
      counts := counts + [Counted(own, |writes|)];
      return recentFailures;
    }

    method SwapFailures() returns (oldFailures: int)
      requires Shared()
      modifies this`recentFailures, this`counts
      ensures Shared() && recentFailures == 0 && oldFailures == old(recentFailures)
      ensures counts == old(counts) + [Reset]
    {
      oldFailures := recentFailures;
      recentFailures := 0;
      counts := counts + [Reset];
    }

    /** Any number of atomic operations of other requests. */
    method Others()
      requires Shared()
      modifies this
      ensures Shared() && old(writes) <= writes && old(counts) <= counts
    {
      var n: nat := *;
      while n > 0
        invariant Shared() && old(writes) <= writes && old(counts) <= counts
      {
        var now := Now();
        var op: int := *;
        match op {
          case 0 =>
            StoreNextRetryAt(Ms(now + settings.retryDelay), now);
          case 1 =>
            var expected: int := *;
            var swapped := CompareAndSwapNextRetryAt(expected, Ms(now) + Ms(settings.retryDelay), now);
          case 2 =>
            var oldFailures := SwapFailures();
          case _ =>
            // a request counts its failure after its own store
            var own: int := *;
            if 0 <= own < |writes| && writes[own].ByFailure? {
              var newFailures := AddFailure(own);
            }
        }
        n := n - 1;
      }
    }

    // ---- the code

    /**
     What a request finds out from here: loaded is the write whose value it loaded, -1 for the initial value, and now
     its clock reading. It is turned away for one of two reasons: that value was past its clock reading, or by the time
     of its swap another write had put another value there.
     */
    ghost predicate TurnedAway(before: seq<Write>, loaded: int, now: int)
      reads this
    {
      && |before| - 1 <= loaded < |writes|
      && (|| Awaited(writes, loaded) > Ms(now)
          || (loaded < |writes| - 1 && Awaited(writes, |writes| - 1) != Awaited(writes, loaded)))
    }

    /**
     seen is the failure counter at the call. Below the limit the request is admitted. At the limit it is turned away
     for one of the reasons, or it is a probe: then replaced is the write it used up, its own write comes right after
     that one, and its clock reading is past what that write asked for.
     */
    method IsCircuitOpen() returns (open: bool, ghost seen: int, ghost loaded: int, ghost replaced: int, ghost now: int)
      requires Shared()
      modifies this
      ensures Shared() && old(writes) <= writes && old(counts) <= counts
      ensures seen == old(recentFailures)
      ensures seen < settings.maxFailures ==> !open && writes == old(writes) && counts == old(counts)
      ensures open ==> TurnedAway(old(writes), loaded, now)
      ensures !open && seen >= settings.maxFailures ==>
        && -1 <= replaced && replaced + 1 < |writes| && |old(writes)| <= replaced + 1
        && writes[replaced + 1] == ByProbe(Ms(now) + Ms(settings.retryDelay), now)
        && Ms(now) >= Awaited(writes, replaced)
        && (settings.maxFailures >= 1 ==> replaced >= 0)
    {
      replaced, now, loaded := -1, 0, -1;
      var recentFailuresSeen := recentFailures;
      seen := recentFailuresSeen;
      if recentFailuresSeen < settings.maxFailures {
        return false, seen, loaded, replaced, now;
      }
      Others();
      var next := nextRetryAt;
      loaded := |writes| - 1;
      ghost var whenLoaded := writes;
      Others();
      Kept(whenLoaded, writes, loaded);
      var reading := Now();
      now := reading;
      if next > Ms(reading) {
        return true, seen, loaded, replaced, now;
      }
      Others();
      Kept(whenLoaded, writes, loaded);
      replaced := |writes| - 1;
      ghost var before := writes;
      var canRetry := CompareAndSwapNextRetryAt(next, Ms(reading) + Ms(settings.retryDelay), reading);
      if canRetry {
        Kept(before, writes, replaced);
      }
      return !canRetry, seen, loaded, replaced, now;
    }

    static lemma {:induction false} Kept(before: seq<Write>, after: seq<Write>, k: int)
      requires before <= after && -1 <= k < |before|
      ensures Awaited(after, k) == Awaited(before, k)
    {}

    /**
     doRequest; what the remote end answers is given, and before is the history of the failure counter without this
     request's own part. It is rejected only at the limit and for one of the reasons of isCircuitOpen. An error other
     than a cancellation, or a status that is not expected, is counted once, after the request's own write to
     nextRetryAt; an answer that is as expected resets the counter; a cancelled request and a rejected one leave it
     alone.
     */
    method DoRequest(err: Error, statusCode: int)
      returns (answer: Answer, ghost before: seq<Count>, own: nat, ghost loaded: int, ghost now: int)
      requires Shared()
      modifies this
      ensures Shared() && old(writes) <= writes && old(counts) <= before
      ensures answer == Answer.Rejected || answer == Answered(err, statusCode)
      ensures answer == Answer.Rejected ==>
        old(recentFailures) >= settings.maxFailures && TurnedAway(old(writes), loaded, now) && counts == before
      ensures answer != Answer.Rejected ==>
        match err
        case Canceled => counts == before
        case OtherError => counts == before + [Counted(own, |writes|)] && OwnStore(old(writes), own)
        case NoError =>
          if settings.expectedStatuses == [] || statusCode in settings.expectedStatuses then counts == before + [Reset]
          else counts == before + [Counted(own, |writes|)] && OwnStore(old(writes), own)
    {
      var open, _, itsWrite, _, itsReading := IsCircuitOpen();
      loaded, now := itsWrite, itsReading;
      before, own := counts, 0;
      if open {
        return Answer.Rejected, before, own, loaded, now;
      }
      Others();
      answer := Answered(err, statusCode);
      before := counts;
      if !IsRemoteFailure(settings, err, statusCode) {
        if err != Canceled {
          var oldFailures := SwapFailures();
        }
        return;
      }
      var reading := Now();
      Others();
      own := |writes|;
      StoreNextRetryAt(Ms(reading + settings.retryDelay), reading);
      Others();
      before := counts;
      var newFailures := AddFailure(own);
    }

    /** A write that was made since, by a failed request. */
    ghost predicate OwnStore(before: seq<Write>, own: nat)
      reads this
    {
      |before| <= own < |writes| && writes[own].ByFailure?
    }
  }
}

/** pkg/http/circuit_breaker.go, step by step. */
module CircuitBreaker {
  // Any number of requests share two atomic integers; a step is one atomic operation. Times are in nanoseconds; what
  // is stored is in milliseconds. The history of writes to nextRetryAt and of probes is kept for the statements only.

  import opened Bytes

  type Request = nat

  const MILLISECOND := 1_000_000

  datatype Settings = Settings(maxFailures: int, retryDelay: nat, expectedStatuses: seq<int>)

  datatype Error = NoError | Canceled | OtherError

  function IsRemoteFailure(settings: Settings, err: Error, statusCode: int): bool {
    if err != NoError then err != Canceled
    else settings.expectedStatuses != [] && statusCode !in settings.expectedStatuses
  }

  /** UnixMilli, and Milliseconds of a delay that is not negative. */
  function Ms(t: int): int { t / MILLISECOND }

  /** A write to nextRetryAt: by a failed request or by a probe, with the clock reading it was made from. */
  datatype Write = ByFailure(value: int, reading: int) | ByProbe(value: int, reading: int)

  /** An admitted probe: its clock reading, and the write it replaced, -1 for the initial value. */
  datatype Probe = Probe(reading: int, replaced: int)

  datatype Phase =
    | Idle
    | TooManyFailures                       // has seen at least MaxFailures
    | Loaded(nextRetryAt: int)
    | MayRetry(nextRetryAt: int, now: int)  // about to compare and swap
    | Performing
    | Succeeded                             // about to reset the counter
    | Failed                                // about to read the clock
    | Storing(newNextRetryAt: int, reading: int)
    | Counting
    | Rejected
    | Done

  datatype State = State(
    recentFailures: int,
    nextRetryAt: int,
    phases: map<Request, Phase>,
    writes: seq<Write>,
    probes: seq<Probe>)
  {
    function At(r: Request): Phase { if r in phases then phases[r] else Idle }

    function To(r: Request, p: Phase): State { this.(phases := phases[r := p]) }

    function Written(w: Write): State { this.(nextRetryAt := w.value, writes := writes + [w]) }
  }

  datatype Step =
    | LoadFailures(r: Request)
    | LoadNextRetryAt(r: Request)
    | ReadClock(r: Request, now: int)
    | CompareAndSwap(r: Request)
    | Respond(r: Request, err: Error, statusCode: int)
    | SwapFailures(r: Request)
    | StoreNextRetryAt(r: Request)
    | AddFailure(r: Request)

  predicate Enabled(s: State, step: Step) {
    match step
    case LoadFailures(r) => s.At(r).Idle?
    case LoadNextRetryAt(r) => s.At(r).TooManyFailures?
    case ReadClock(r, _) => s.At(r).Loaded? || s.At(r).Failed?
    case CompareAndSwap(r) => s.At(r).MayRetry?
    case Respond(r, _, _) => s.At(r).Performing?
    case SwapFailures(r) => s.At(r).Succeeded?
    case StoreNextRetryAt(r) => s.At(r).Storing?
    case AddFailure(r) => s.At(r).Counting?
  }

  function Apply(c: Settings, s: State, step: Step): State
    requires Enabled(s, step)
  {
    match step
    case LoadFailures(r) => s.To(r, if s.recentFailures < c.maxFailures then Performing else TooManyFailures)
    case LoadNextRetryAt(r) => s.To(r, Loaded(s.nextRetryAt))
    case ReadClock(r, now) =>
      if s.At(r).Failed? then s.To(r, Storing(Ms(now + c.retryDelay), now))
      else if s.At(r).nextRetryAt > Ms(now) then s.To(r, Rejected)
      else s.To(r, MayRetry(s.At(r).nextRetryAt, now))
    case CompareAndSwap(r) =>
      var now := s.At(r).now;
      if s.nextRetryAt != s.At(r).nextRetryAt then s.To(r, Rejected)
      else
        s.To(r, Performing).Written(ByProbe(Ms(now) + Ms(c.retryDelay), now))
        .(probes := s.probes + [Probe(now, |s.writes| - 1)])
    case Respond(r, err, statusCode) =>
      s.To(r, if IsRemoteFailure(c, err, statusCode) then Failed else if err == Canceled then Done else Succeeded)
    case SwapFailures(r) => s.To(r, Done).(recentFailures := 0)
    case StoreNextRetryAt(r) => s.To(r, Counting).Written(ByFailure(s.At(r).newNextRetryAt, s.At(r).reading))
    case AddFailure(r) => s.To(r, Done).(recentFailures := s.recentFailures + 1)
  }

  function Initial(): State { State(0, 0, map[], [], []) }

  function Run(c: Settings, steps: seq<Step>): Option<State> {
    if steps == [] then Some(Initial())
    else
      match Run(c, steps[..|steps| - 1])
      case None => None
      case Some(s) => if Enabled(s, steps[|steps| - 1]) then Some(Apply(c, s, steps[|steps| - 1])) else None
  }

  // ---- what every reachable state keeps

  predicate WriteInv(c: Settings, w: Write) {
    match w
    case ByFailure(value, reading) => value == Ms(reading + c.retryDelay)
    case ByProbe(value, reading) => value == Ms(reading) + Ms(c.retryDelay)
  }

  /** The value a probe has to wait for: that of the write it replaced, or the initial 0. */
  function Awaited(writes: seq<Write>, replaced: int): int
    requires -1 <= replaced < |writes|
  {
    if replaced == -1 then 0 else writes[replaced].value
  }

  predicate ProbesInv(writes: seq<Write>, probes: seq<Probe>) {
    && (forall i :: 0 <= i < |probes| ==> -1 <= probes[i].replaced < |writes| - 1)
    && (forall i :: 0 <= i < |probes| ==> Ms(probes[i].reading) >= Awaited(writes, probes[i].replaced))
    && (forall i, j :: 0 <= i < j < |probes| ==> probes[i].replaced < probes[j].replaced)
    && (forall i :: 0 <= i < |probes| ==> OwnWrite(writes, probes[i]))
  }

  /** The write of a probe comes right after the one it replaced. */
  predicate OwnWrite(writes: seq<Write>, p: Probe)
    requires -1 <= p.replaced < |writes| - 1
  {
    writes[p.replaced + 1].ByProbe? && writes[p.replaced + 1].reading == p.reading
  }

  /** A write by a probe was due when it was made. */
  predicate WrittenWhenDue(writes: seq<Write>, k: nat)
    requires k < |writes|
  {
    writes[k].ByProbe? ==> Ms(writes[k].reading) >= Awaited(writes, k - 1)
  }

  predicate PhaseInv(c: Settings, s: State, r: Request) {
    match s.At(r)
    case TooManyFailures => c.maxFailures >= 1 ==> s.writes != []
    case Loaded(_) => c.maxFailures >= 1 ==> s.writes != []
    case MayRetry(v, now) => v <= Ms(now) && (c.maxFailures >= 1 ==> s.writes != [])
    case Storing(v, reading) => v == Ms(reading + c.retryDelay)
    case Counting => s.writes != []
    case _ => true
  }

  ghost predicate Inv(c: Settings, s: State) {
    && (s.recentFailures > 0 ==> s.writes != [])
    && s.nextRetryAt == Awaited(s.writes, |s.writes| - 1)
    && (forall i :: 0 <= i < |s.writes| ==> WriteInv(c, s.writes[i]) && WrittenWhenDue(s.writes, i))
    && ProbesInv(s.writes, s.probes)
    && (c.maxFailures >= 1 ==> forall p <- s.probes :: p.replaced >= 0)
    && forall r: Request :: PhaseInv(c, s, r)
  }

  lemma {:induction false} MoreWrites(writes: seq<Write>, probes: seq<Probe>, w: Write)
    requires ProbesInv(writes, probes)
    ensures ProbesInv(writes + [w], probes)
  {
    forall i | 0 <= i < |probes| ensures Ms(probes[i].reading) >= Awaited(writes + [w], probes[i].replaced) {
      assert Awaited(writes + [w], probes[i].replaced) == Awaited(writes, probes[i].replaced);
    }
    forall i | 0 <= i < |probes| ensures OwnWrite(writes + [w], probes[i]) {
      assert OwnWrite(writes, probes[i]);
    }
  }

  lemma {:induction false} MoreWritesDue(writes: seq<Write>, w: Write)
    requires forall k :: 0 <= k < |writes| ==> WrittenWhenDue(writes, k)
    requires w.ByProbe? ==> Ms(w.reading) >= Awaited(writes, |writes| - 1)
    ensures forall k :: 0 <= k < |writes + [w]| ==> WrittenWhenDue(writes + [w], k)
  {
    forall k | 0 <= k < |writes + [w]| ensures WrittenWhenDue(writes + [w], k) {
      assert Awaited(writes + [w], k - 1) == Awaited(writes, k - 1);
      if k < |writes| {
        assert WrittenWhenDue(writes, k);
      }
    }
  }

  lemma {:induction false} OneMoreProbe(writes: seq<Write>, probes: seq<Probe>, w: Write, now: int)
    requires ProbesInv(writes, probes) && Ms(now) >= Awaited(writes, |writes| - 1)
    requires w.ByProbe? && w.reading == now
    ensures ProbesInv(writes + [w], probes + [Probe(now, |writes| - 1)])
  {
    MoreWrites(writes, probes, w);
    assert Awaited(writes + [w], |writes| - 1) == Awaited(writes, |writes| - 1);
  }

  lemma {:induction false} StepKeepsInv(c: Settings, s: State, step: Step)
    requires Inv(c, s) && Enabled(s, step)
    ensures Inv(c, Apply(c, s, step))
  {
    hide Ms, ProbesInv, IsRemoteFailure, WrittenWhenDue;
    var t := Apply(c, s, step);
    assert PhaseInv(c, s, step.r);
    if step.CompareAndSwap? && s.nextRetryAt == s.At(step.r).nextRetryAt {
      OneMoreProbe(s.writes, s.probes, t.writes[|s.writes|], s.At(step.r).now);
      MoreWritesDue(s.writes, t.writes[|s.writes|]);
    } else if step.StoreNextRetryAt? {
      MoreWrites(s.writes, s.probes, t.writes[|s.writes|]);
      MoreWritesDue(s.writes, t.writes[|s.writes|]);
    }
    forall r: Request ensures PhaseInv(c, t, r) {
      assert PhaseInv(c, s, r);
    }
  }

  lemma {:induction false} EveryRunKeepsInv(c: Settings, steps: seq<Step>)
    ensures Run(c, steps).Some? ==> Inv(c, Run(c, steps).value)
  {
    if steps != [] {
      EveryRunKeepsInv(c, steps[..|steps| - 1]);
      var s := Run(c, steps[..|steps| - 1]);
      if s.Some? && Enabled(s.value, steps[|steps| - 1]) {
        StepKeepsInv(c, s.value, steps[|steps| - 1]);
      }
    }
  }

  // ---- what it is for

  /** nextRetryAt is set before any failure counts. */
  lemma {:induction false} FailuresCountAfterTheWrite(c: Settings, steps: seq<Step>)
    requires Run(c, steps).Some? && Run(c, steps).value.recentFailures > 0
    ensures Run(c, steps).value.writes != []
  {
    EveryRunKeepsInv(c, steps);
  }

  /** However requests race, a write of nextRetryAt is used up by one probe at most. */
  lemma {:induction false} OneProbePerWrite(c: Settings, steps: seq<Step>, i: nat, j: nat)
    requires Run(c, steps).Some? && i < |Run(c, steps).value.probes| && j < |Run(c, steps).value.probes|
    requires Run(c, steps).value.probes[i].replaced == Run(c, steps).value.probes[j].replaced
    ensures i == j
  {
    EveryRunKeepsInv(c, steps);
  }

  lemma {:induction false} DelayInMilliseconds(reading: int, delay: nat)
    ensures Ms(reading + delay) >= Ms(reading) + Ms(delay)
    ensures MILLISECOND * Ms(reading + delay) > reading + delay - MILLISECOND
    ensures MILLISECOND * (Ms(reading) + Ms(delay)) > reading + delay - 2 * MILLISECOND
  {}

  /**
   A probe comes at least RetryDelay after the clock reading of the write it replaced, both counted in whole
   milliseconds; counted in nanoseconds, less than two milliseconds can be missing.
   */
  lemma {:induction false} ProbesWaitForTheDelay(c: Settings, steps: seq<Step>, i: nat)
    requires Run(c, steps).Some? && i < |Run(c, steps).value.probes| && c.maxFailures >= 1
    ensures var s := Run(c, steps).value;
      && 0 <= s.probes[i].replaced < |s.writes|
      && Ms(s.probes[i].reading) - Ms(s.writes[s.probes[i].replaced].reading) >= Ms(c.retryDelay)
      && s.probes[i].reading - s.writes[s.probes[i].replaced].reading > c.retryDelay - 2 * MILLISECOND
  {
    EveryRunKeepsInv(c, steps);
    var s := Run(c, steps).value;
    assert s.probes[i] in s.probes;
    var w, now := s.writes[s.probes[i].replaced], s.probes[i].reading;
    assert WriteInv(c, w) && Ms(now) >= w.value;
    DelayInMilliseconds(w.reading, c.retryDelay);
    assert now >= MILLISECOND * Ms(now);
  }

  // ---- at most one retry in the delay: when this holds

  /** After probe i a failed request stored a value below that of the probe. */
  predicate LateStore(s: State, i: nat, k: int)
    requires i < |s.probes| && -1 <= s.probes[i].replaced < |s.writes| - 1
  {
    var own := s.probes[i].replaced + 1;
    own < k < |s.writes| && s.writes[k].ByFailure? && s.writes[k].value < s.writes[own].value
  }

  /** Probes only push nextRetryAt up, so what is below the value of a probe goes back to a failure. */
  lemma {:induction false} BelowMeansLateStore(c: Settings, s: State, i: nat, k: nat) returns (late: nat)
    requires Inv(c, s) && i < |s.probes| && s.probes[i].replaced + 1 <= k < |s.writes|
    requires s.writes[k].value < s.writes[s.probes[i].replaced + 1].value
    ensures late <= k && LateStore(s, i, late)
  {
    if s.writes[k].ByFailure? {
      return k;
    }
    assert WriteInv(c, s.writes[k]) && WrittenWhenDue(s.writes, k);
    late := BelowMeansLateStore(c, s, i, k - 1);
  }

  /** Such a store was made from a clock reading before that of the probe, but written after the probe. */
  lemma {:induction false} LateStoresAreOld(c: Settings, s: State, i: nat, k: nat)
    requires Inv(c, s) && i < |s.probes| && LateStore(s, i, k)
    ensures s.writes[k].reading < s.probes[i].reading
  {
    assert WriteInv(c, s.writes[k]) && WriteInv(c, s.writes[s.probes[i].replaced + 1]);
    assert OwnWrite(s.writes, s.probes[i]);
    DelayInMilliseconds(s.writes[k].reading, c.retryDelay);
  }

  /**
   Of any two probes in any run, the later one comes at least the delay after the earlier one, unless in between a
   request that had read the clock before the earlier probe stored what it made of that.
   */
  lemma {:induction false} ProbesAreSpacedUnless(c: Settings, steps: seq<Step>, i: nat, j: nat) returns (late: int)
    requires Run(c, steps).Some? && i < j < |Run(c, steps).value.probes|
    ensures var s := Run(c, steps).value;
      || Ms(s.probes[j].reading) - Ms(s.probes[i].reading) >= Ms(c.retryDelay)
      || (&& -1 <= s.probes[i].replaced < |s.writes| - 1
          && LateStore(s, i, late) && late <= s.probes[j].replaced && s.writes[late].reading < s.probes[i].reading)
  {
    hide Ms, LateStore;
    EveryRunKeepsInv(c, steps);
    var s := Run(c, steps).value;
    var own, replaced := s.probes[i].replaced + 1, s.probes[j].replaced;
    ProbeValues(c, s, i);
    ProbeValues(c, s, j);
    late := -1;
    if s.writes[replaced].value < s.writes[own].value {
      late := BelowMeansLateStore(c, s, i, replaced);
      LateStoresAreOld(c, s, i, late);
    }
  }

  lemma {:induction false} ProbeValues(c: Settings, s: State, i: nat)
    requires Inv(c, s) && i < |s.probes|
    ensures -1 <= s.probes[i].replaced < |s.writes| - 1
    ensures s.writes[s.probes[i].replaced + 1].value == Ms(s.probes[i].reading) + Ms(c.retryDelay)
    ensures Ms(s.probes[i].reading) >= Awaited(s.writes, s.probes[i].replaced)
  {
    hide Ms;
    assert OwnWrite(s.writes, s.probes[i]);
    assert WriteInv(c, s.writes[s.probes[i].replaced + 1]);
  }

  /** The next write after these steps is that of a probe with this clock reading. */
  ghost predicate ProbesNext(c: Settings, steps: seq<Step>, more: seq<Step>, now: int) {
    && Run(c, steps).Some? && Run(c, steps + more).Some?
    && var s, t := Run(c, steps).value, Run(c, steps + more).value;
       |t.writes| == |s.writes| + 1 && t.probes == s.probes + [Probe(now, |s.writes| - 1)]
  }

  lemma {:induction false} HistoryGrows(c: Settings, steps: seq<Step>, more: seq<Step>)
    requires Run(c, steps + more).Some?
    ensures Run(c, steps).Some? && Run(c, steps).value.writes <= Run(c, steps + more).value.writes
  {
    if more == [] {
      assert steps + more == steps;
    } else {
      var n := |more| - 1;
      assert (steps + more)[..|steps + more| - 1] == steps + more[..n];
      HistoryGrows(c, steps, more[..n]);
    }
  }

  /** The next probe never comes before nextRetryAt. */
  lemma {:induction false} ProbesWaitForNextRetryAt(c: Settings, steps: seq<Step>, more: seq<Step>, now: int)
    requires ProbesNext(c, steps, more, now)
    ensures Ms(now) >= Run(c, steps).value.nextRetryAt
  {
    HistoryGrows(c, steps, more);
    EveryRunKeepsInv(c, steps);
    EveryRunKeepsInv(c, steps + more);
    var s, t := Run(c, steps).value, Run(c, steps + more).value;
    assert t.probes[|s.probes|] == Probe(now, |s.writes| - 1);
    assert Awaited(t.writes, |s.writes| - 1) == Awaited(s.writes, |s.writes| - 1);
  }

  /** Requests are without number, so one of them has not begun. */
  lemma {:induction false} SomeRequestIsIdle(s: State) returns (r: Request)
    ensures s.At(r).Idle?
  {
    r := Unused(s.phases.Keys);
    assert r !in s.phases.Keys;
  }

  lemma {:induction false} Unused(used: set<Request>) returns (r: Request)
    ensures forall x <- used :: x < r
  {
    if used == {} {
      return 0;
    }
    var x :| x in used;
    var above := Unused(used - {x});
    r := if x < above then above else x + 1;
    assert forall y <- used :: y == x || y in used - {x};
  }

  /**
   While the failures are at the limit, and with no store in between, the next probe can come before a time if and only
   if nextRetryAt is below it.
   */
  lemma {:induction false} EarlyProbeExactlyWhen(c: Settings, steps: seq<Step>, s: State, v: int)
    requires Run(c, steps) == Some(s) && s.recentFailures >= c.maxFailures
    ensures (exists more, now :: ProbesNext(c, steps, more, now) && Ms(now) < v) <==> s.nextRetryAt < v
  {
    forall more, now | ProbesNext(c, steps, more, now) ensures Ms(now) >= s.nextRetryAt {
      ProbesWaitForNextRetryAt(c, steps, more, now);
    }
    var due := MILLISECOND * s.nextRetryAt;
    assert Ms(due) == s.nextRetryAt;
    var r := SomeRequestIsIdle(s);
    var longer, t := ProbesAt(c, steps, s, r, due);
    assert ProbesNext(c, steps, ProbeSteps(r, due), due);
  }

  /** Every clock reading in these steps is that time or later. */
  predicate ReadsFrom(steps: seq<Step>, start: int) {
    forall x <- steps :: x.ReadClock? ==> x.now >= start
  }

  /** Some probe that comes with the further steps has a clock reading before v. */
  ghost predicate ProbesBefore(c: Settings, steps: seq<Step>, more: seq<Step>, v: int) {
    && Run(c, steps).Some? && Run(c, steps + more).Some?
    && var s, t := Run(c, steps).value, Run(c, steps + more).value;
       exists j :: |s.probes| <= j < |t.probes| && Ms(t.probes[j].reading) < v
  }

  /** A failed request has yet to store a value below v. */
  ghost predicate PendingBelow(s: State, v: int) {
    exists r: Request :: s.At(r).Storing? && s.At(r).newNextRetryAt < v
  }

  ghost predicate NothingBelow(s: State, v: int) {
    s.nextRetryAt >= v && !PendingBelow(s, v)
  }

  lemma {:induction false} StepKeepsNothingBelow(c: Settings, s: State, step: Step, start: int, v: int)
    requires Inv(c, s) && NothingBelow(s, v) && Enabled(s, step)
    requires v <= Ms(start) + Ms(c.retryDelay) && (step.ReadClock? ==> step.now >= start)
    ensures NothingBelow(Apply(c, s, step), v)
    ensures var before, after := s.probes, Apply(c, s, step).probes;
      after == before || (|after| == |before| + 1 && after[..|before|] == before && Ms(after[|before|].reading) >= v)
  {
    hide ProbesInv, IsRemoteFailure, WrittenWhenDue;
    assert PhaseInv(c, s, step.r);
    if step.ReadClock? {
      DelayInMilliseconds(step.now, c.retryDelay);
    }
    var t := Apply(c, s, step);
    forall r: Request | t.At(r).Storing? ensures t.At(r).newNextRetryAt >= v {
      assert r != step.r ==> t.At(r) == s.At(r);
    }
  }

  lemma {:induction false} RunKeepsNothingBelow(c: Settings, steps: seq<Step>, more: seq<Step>, start: int, v: int)
    requires Run(c, steps).Some? && NothingBelow(Run(c, steps).value, v)
    requires v <= Ms(start) + Ms(c.retryDelay) && ReadsFrom(more, start)
    ensures Run(c, steps + more).Some? ==> NothingBelow(Run(c, steps + more).value, v)
    ensures !ProbesBefore(c, steps, more, v)
  {
    hide Ms, NothingBelow, Inv, Enabled, Apply;
    if more == [] {
      assert steps + more == steps;
    } else if Run(c, steps + more).Some? {
      var n := |more| - 1;
      var before, step := more[..n], more[n];
      assert (steps + more)[..|steps + more| - 1] == steps + before;
      assert step in more && forall x <- before :: x in more;
      RunKeepsNothingBelow(c, steps, before, start, v);
      EveryRunKeepsInv(c, steps + before);
      StepKeepsNothingBelow(c, Run(c, steps + before).value, step, start, v);
    }
  }

  /**
   After a time start, and while the failures are at the limit, a probe can come before a time v within the delay if and
   only if a value below v is in nextRetryAt or about to be stored there.
   */
  lemma {:induction false} LaterProbeExactlyWhen(c: Settings, steps: seq<Step>, s: State, start: int, v: int)
    requires Run(c, steps) == Some(s) && s.recentFailures >= c.maxFailures
    requires Ms(start) < v <= Ms(start) + Ms(c.retryDelay)
    ensures (exists more :: ReadsFrom(more, start) && ProbesBefore(c, steps, more, v))
       <==> s.nextRetryAt < v || PendingBelow(s, v)
  {
    hide Ms, ProbesBefore, Run;
    if s.nextRetryAt < v {
      var more := ProbeAtOnce(c, steps, s, start, v);
    } else if PendingBelow(s, v) {
      var more := ProbeAfterStore(c, steps, s, start, v);
    } else {
      forall more | ReadsFrom(more, start) ensures !ProbesBefore(c, steps, more, v) {
        RunKeepsNothingBelow(c, steps, more, start, v);
      }
    }
  }

  lemma {:induction false} ProbeAtOnce(c: Settings, steps: seq<Step>, s: State, start: int, v: int)
    returns (more: seq<Step>)
    requires Run(c, steps) == Some(s) && s.recentFailures >= c.maxFailures && Ms(start) < v && s.nextRetryAt < v
    ensures ReadsFrom(more, start) && ProbesBefore(c, steps, more, v)
  {
    var due := MILLISECOND * s.nextRetryAt;
    assert Ms(due) == s.nextRetryAt;
    var now := if due < start then start else due;
    var r := SomeRequestIsIdle(s);
    var longer, t := ProbesAt(c, steps, s, r, now);
    more := ProbeSteps(r, now);
    assert t.probes[|s.probes|] == Probe(now, |s.writes| - 1);
  }

  lemma {:induction false} ProbeAfterStore(c: Settings, steps: seq<Step>, s: State, start: int, v: int)
    returns (more: seq<Step>)
    requires Run(c, steps) == Some(s) && s.recentFailures >= c.maxFailures && Ms(start) < v && PendingBelow(s, v)
    ensures ReadsFrom(more, start) && ProbesBefore(c, steps, more, v)
  {
    hide Ms, Run;
    var r: Request :| s.At(r).Storing? && s.At(r).newNextRetryAt < v;
    var longer, t := StoresAndCounts(c, steps, s, r);
    var rest := ProbeAtOnce(c, longer, t, start, v);
    var stores := [StoreNextRetryAt(r), AddFailure(r)];
    more := stores + rest;
    assert steps + more == longer + rest;
  }

  /**
   At most one retry in the retry delay, exactly: from any moment after a probe, with failures at the limit, some later
   probe can read the clock less than the delay after it, with no request reading the clock before it any more, if and
   only if nextRetryAt is below the value that the probe wrote, or a failed request is about to store such a value.
   */
  lemma {:induction false} DelayCutShortExactlyWhen(c: Settings, steps: seq<Step>, s: State, i: nat)
    requires Run(c, steps) == Some(s) && s.recentFailures >= c.maxFailures && i < |s.probes| && Ms(c.retryDelay) >= 1
    ensures -1 <= s.probes[i].replaced < |s.writes| - 1
    ensures var start, own := s.probes[i].reading, s.writes[s.probes[i].replaced + 1].value;
      && own == Ms(start) + Ms(c.retryDelay)
      && ((exists more :: ReadsFrom(more, start) && ProbesBefore(c, steps, more, own))
          <==> s.nextRetryAt < own || PendingBelow(s, own))
      && (s.nextRetryAt < own ==> exists k :: LateStore(s, i, k))
  {
    hide Ms, LateStore, ProbesBefore, ReadsFrom, PendingBelow;
    EveryRunKeepsInv(c, steps);
    var start, own := s.probes[i].reading, s.writes[s.probes[i].replaced + 1].value;
    ProbeValues(c, s, i);
    LaterProbeExactlyWhen(c, steps, s, start, own);
    if s.nextRetryAt < own {
      var late := BelowMeansLateStore(c, s, i, |s.writes| - 1);
    }
  }

  // ---- two runs that show the limits

  lemma {:induction false} Extend(c: Settings, steps: seq<Step>, s: State, step: Step)
    returns (longer: seq<Step>, t: State)
    requires Run(c, steps) == Some(s) && Enabled(s, step)
    ensures longer == steps + [step] && t == Apply(c, s, step) && Run(c, longer) == Some(t)
  {
    longer, t := steps + [step], Apply(c, s, step);
    assert longer[..|steps|] == steps;
  }

  /** With a limit of no failures at all the very first request is a probe of the initial value. */
  lemma {:induction false} WithoutLimitTheFirstRequestProbes(c: Settings, r: Request, now: nat)
    returns (steps: seq<Step>)
    requires c.maxFailures <= 0
    ensures Run(c, steps).Some? && Run(c, steps).value.probes == [Probe(now, -1)]
    ensures Run(c, steps).value.recentFailures == 0
  {
    var s;
    steps, s := Extend(c, [], Initial(), LoadFailures(r));
    steps, s := Extend(c, steps, s, LoadNextRetryAt(r));
    assert Ms(now) >= 0;
    steps, s := Extend(c, steps, s, ReadClock(r, now));
    steps, s := Extend(c, steps, s, CompareAndSwap(r));
  }

  /** A request that has failed up to storing what it made of an old clock reading. */
  lemma {:induction false} FailsAt(c: Settings, before: seq<Step>, s0: State, r: Request, now: int)
    returns (steps: seq<Step>, s: State)
    requires Run(c, before) == Some(s0) && s0.At(r).Idle? && s0.recentFailures < c.maxFailures
    ensures Run(c, steps) == Some(s) && s == s0.To(r, Storing(Ms(now + c.retryDelay), now))
  {
    hide Ms, Run;
    steps, s := Extend(c, before, s0, LoadFailures(r));
    steps, s := Extend(c, steps, s, Respond(r, OtherError, 0));
    steps, s := Extend(c, steps, s, ReadClock(r, now));
    assert s.phases == s0.phases[r := Storing(Ms(now + c.retryDelay), now)];
  }

  lemma {:induction false} StoresAndCounts(c: Settings, before: seq<Step>, s0: State, r: Request)
    returns (steps: seq<Step>, s: State)
    requires Run(c, before) == Some(s0) && s0.At(r).Storing?
    ensures steps == before + [StoreNextRetryAt(r), AddFailure(r)] && Run(c, steps) == Some(s)
    ensures s == s0.To(r, Done).Written(ByFailure(s0.At(r).newNextRetryAt, s0.At(r).reading))
                 .(recentFailures := s0.recentFailures + 1)
  {
    hide Ms, Run;
    steps, s := Extend(c, before, s0, StoreNextRetryAt(r));
    steps, s := Extend(c, steps, s, AddFailure(r));
    assert s.phases == s0.phases[r := Done];
  }

  lemma {:induction false} EmptyRun(c: Settings)
    ensures Run(c, []) == Some(Initial())
  {}

  function ProbeSteps(r: Request, now: int): seq<Step> {
    [LoadFailures(r), LoadNextRetryAt(r), ReadClock(r, now), CompareAndSwap(r)]
  }

  lemma {:induction false} ProbesAt(c: Settings, before: seq<Step>, s0: State, r: Request, now: int)
    returns (steps: seq<Step>, s: State)
    requires Run(c, before) == Some(s0) && s0.At(r).Idle? && s0.recentFailures >= c.maxFailures
    requires s0.nextRetryAt <= Ms(now)
    ensures steps == before + ProbeSteps(r, now) && Run(c, steps) == Some(s)
    ensures s == s0.To(r, Performing).Written(ByProbe(Ms(now) + Ms(c.retryDelay), now))
                 .(probes := s0.probes + [Probe(now, |s0.writes| - 1)])
  {
    hide Ms, Run;
    steps, s := Extend(c, before, s0, LoadFailures(r));
    steps, s := Extend(c, steps, s, LoadNextRetryAt(r));
    steps, s := Extend(c, steps, s, ReadClock(r, now));
    steps, s := Extend(c, steps, s, CompareAndSwap(r));
    assert s.phases == s0.phases[r := Performing];
  }

  /**
   A probe that succeeds closes the circuit: whatever the state, its answer sets the counter to 0, and the next request
   is performed.
   */
  lemma {:induction false} SuccessClosesTheCircuit(
    c: Settings, before: seq<Step>, s0: State, r: Request, statusCode: int, next: Request)
    returns (steps: seq<Step>, s: State)
    requires Run(c, before) == Some(s0) && s0.At(r).Performing? && s0.At(next).Idle? && c.maxFailures >= 1
    requires c.expectedStatuses == [] || statusCode in c.expectedStatuses
    ensures Run(c, steps) == Some(s) && s.recentFailures == 0 && s.nextRetryAt == s0.nextRetryAt
    ensures s.At(r).Done? && s.At(next).Performing?
  {
    hide Ms, Run;
    steps, s := Extend(c, before, s0, Respond(r, NoError, statusCode));
    steps, s := Extend(c, steps, s, SwapFailures(r));
    steps, s := Extend(c, steps, s, LoadFailures(next));
  }

  /**
   The delay counts from the write a probe replaced and from nothing else: a request that failed earlier can store its
   old reading after a probe, and then a second probe goes out at the same moment as the first.
   */
  lemma {:induction false} TwoProbesAtOnce(c: Settings, now: int) returns (steps: seq<Step>)
    requires c.maxFailures == 1
    ensures Run(c, steps).Some?
    ensures Run(c, steps).value.probes == [Probe(now + c.retryDelay, 0), Probe(now + c.retryDelay, 2)]
  {
    hide Ms, Run, Apply, Enabled;
    EmptyRun(c);
    var s;
    steps, s := FailsAt(c, [], Initial(), 0, now);
    steps, s := FailsAt(c, steps, s, 1, now);
    steps, s := StoresAndCounts(c, steps, s, 0);
    steps, s := ProbesAt(c, steps, s, 2, now + c.retryDelay);
    steps, s := StoresAndCounts(c, steps, s, 1);
    steps, s := ProbesAt(c, steps, s, 3, now + c.retryDelay);
  }
}

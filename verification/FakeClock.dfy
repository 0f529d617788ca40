/** pkg/clock/fake_clock.go and its parts. */
module FakeClock {
  // A clock that moves only when told, with its sleepers, timers and tickers (fake_timer.go, fake_ticker.go), and the
  // calls that wait until enough of them exist. Every operation is one step; reading a channel is a step of its own. A
  // channel has one slot. What was sent on each channel, and when a sleeper or timer is due, is kept for the
  // statements only.

  import opened Bytes

  type Id = nat

  /** What After hands out; due is the time asked for. */
  datatype Sleeper = Sleeper(remaining: int, slot: Option<int>, sent: seq<int>, due: int)

  /** due is None once the timer has expired or was stopped. */
  datatype Timer = Timer(remaining: int, slot: Option<int>, sent: seq<int>, due: Option<int>)

  datatype Ticker = Ticker(remaining: int, duration: int, slot: Option<int>, sent: seq<int>)

  /** Calls waiting for a number of sleepers, timers or tickers: each with its number. closed counts closings. */
  datatype Blockers = Blockers(waiting: map<Id, int>, closed: map<Id, nat>)

  datatype State = State(
    now: int,
    sleepers: map<Id, Sleeper>,   // every channel After has handed out
    listed: set<Id>,              // those still in the clock's list
    timers: map<Id, Timer>,
    tickers: map<Id, Ticker>,
    onSleepers: Blockers,
    onTimers: Blockers,
    onTickers: Blockers)
  {
    function WaitingSleepers(): set<Id> { WaitingOf(sleepers, listed) }

    function WaitingTimers(): set<Id> { TimersOf(timers) }

    function WaitingTickers(): set<Id> { TickersOf(tickers) }
  }

  function WaitingOf(sleepers: map<Id, Sleeper>, listed: set<Id>): set<Id> {
    set i | i in sleepers && i in listed && sleepers[i].remaining > 0
  }

  function TimersOf(timers: map<Id, Timer>): set<Id> {
    set i | i in timers && timers[i].remaining > 0
  }

  function TickersOf(tickers: map<Id, Ticker>): set<Id> {
    set i | i in tickers && tickers[i].duration > 0
  }

  // ---- one sleeper, timer or ticker

  /** The clock moves on by d to the time now. The send needs the slot free. */
  function AdvanceSleeper(s: Sleeper, now: int, d: int): Sleeper {
    if s.remaining > d then s.(remaining := s.remaining - d)
    else if s.remaining == 0 then s
    else s.(remaining := 0, slot := Some(now), sent := s.sent + [now])
  }

  predicate SleeperBlocks(s: Sleeper, d: int) {
    !(s.remaining > d) && s.remaining != 0 && s.slot.Some?
  }

  predicate SleeperStays(s: Sleeper, d: int) { s.remaining > d }

  /** The slot is emptied first, so this send never blocks. */
  function Ticked(t: Timer, now: int): Timer {
    t.(slot := Some(now), sent := t.sent + [now])
  }

  function AdvanceTimer(t: Timer, now: int, d: int): Timer {
    if t.remaining > d then t.(remaining := t.remaining - d)
    else if t.remaining == 0 then t
    else Ticked(t.(remaining := 0, due := None), now)
  }

  function AdvanceTicker(t: Ticker, now: int, d: int): Ticker {
    if t.duration == 0 then t
    else if t.remaining > d then t.(remaining := t.remaining - d)
    else t.(remaining := t.duration, slot := Some(now), sent := t.sent + [now])
  }

  // ---- steps

  datatype Step =
    | Advance(d: int)
    | After(i: Id, d: int)
    | ReadSleeper(i: Id)
    | NewTimer(i: Id, d: int)
    | StopTimer(i: Id)
    | ResetTimer(i: Id, d: int)
    | ReadTimer(i: Id)
    | NewTicker(i: Id, d: int)
    | StopTicker(i: Id)
    | ResetTicker(i: Id, d: int)
    | ReadTicker(i: Id)
    | BlockUntil(w: Id, n: int)
    | BlockUntilTimers(w: Id, n: int)
    | BlockUntilTickers(w: Id, n: int)

  predicate Unused(b: Blockers, w: Id) { w !in b.waiting && w !in b.closed }

  /** When the step goes through: a full channel stops Advance, an empty one a read; tickers take no period below 1. */
  predicate Enabled(s: State, step: Step) {
    match step
    case Advance(d) => forall i <- s.listed :: i in s.sleepers ==> !SleeperBlocks(s.sleepers[i], d)
    case After(i, _) => i !in s.sleepers
    case ReadSleeper(i) => i in s.sleepers && s.sleepers[i].slot.Some?
    case NewTimer(i, _) => i !in s.timers
    case StopTimer(i) => i in s.timers
    case ResetTimer(i, _) => i in s.timers
    case ReadTimer(i) => i in s.timers && s.timers[i].slot.Some?
    case NewTicker(i, d) => i !in s.tickers && d > 0
    case StopTicker(i) => i in s.tickers
    case ResetTicker(i, d) => i in s.tickers && d > 0
    case ReadTicker(i) => i in s.tickers && s.tickers[i].slot.Some?
    case BlockUntil(w, _) => Unused(s.onSleepers, w)
    case BlockUntilTimers(w, _) => Unused(s.onTimers, w)
    case BlockUntilTickers(w, _) => Unused(s.onTickers, w)
  }

  /** notifyBlockers: the channels of all that asked for no more than there are now are closed. */
  function Notify(b: Blockers, waiting: nat): Blockers {
    Blockers(
      map w | w in b.waiting && b.waiting[w] > waiting :: b.waiting[w],
      map w | w in b.waiting.Keys + b.closed.Keys && (w in b.closed || b.waiting[w] <= waiting) ::
        (if w in b.closed then b.closed[w] else 0) + (if w in b.waiting && b.waiting[w] <= waiting then 1 else 0))
  }

  /** The call returns at once when there are enough. */
  function Wait(b: Blockers, w: Id, n: int, waiting: nat): Blockers {
    if waiting >= n then b else b.(waiting := b.waiting[w := n])
  }

  function NewSleeper(now: int, d: int): Sleeper {
    if d <= 0 then Sleeper(d, Some(now), [now], now + d) else Sleeper(d, None, [], now + d)
  }

  function Armed(t: Timer, now: int, d: int): Timer {
    var a := t.(remaining := d, due := if d <= 0 then None else Some(now + d));
    if d <= 0 then Ticked(a, now) else a
  }

  function AdvanceAll(s: State, d: int): State {
    var now := s.now + d;
    s.(now := now,
       sleepers := (map i | i in s.sleepers ::
         if i in s.listed then AdvanceSleeper(s.sleepers[i], now, d) else s.sleepers[i]),
       listed := (set i | i in s.listed && i in s.sleepers && SleeperStays(s.sleepers[i], d)),
       timers := (map i | i in s.timers :: AdvanceTimer(s.timers[i], now, d)),
       tickers := (map i | i in s.tickers :: AdvanceTicker(s.tickers[i], now, d)))
  }

  function Apply(s: State, step: Step): State
    requires Enabled(s, step)
  {
    match step
    case Advance(d) => AdvanceAll(s, d)
    case After(i, d) =>
      var r := s.(sleepers := s.sleepers[i := NewSleeper(s.now, d)], listed := s.listed + {i});
      r.(onSleepers := Notify(s.onSleepers, |r.WaitingSleepers()|))
    case ReadSleeper(i) => s.(sleepers := s.sleepers[i := s.sleepers[i].(slot := None)])
    case NewTimer(i, d) =>
      var r := s.(timers := s.timers[i := Armed(Timer(0, None, [], None), s.now, d)]);
      r.(onTimers := Notify(s.onTimers, |r.WaitingTimers()|))
    case StopTimer(i) => s.(timers := s.timers[i := s.timers[i].(remaining := 0, due := None)])
    case ResetTimer(i, d) =>
      var r := s.(timers := s.timers[i := Armed(s.timers[i], s.now, d)]);
      r.(onTimers := Notify(s.onTimers, |r.WaitingTimers()|))
    case ReadTimer(i) => s.(timers := s.timers[i := s.timers[i].(slot := None)])
    case NewTicker(i, d) =>
      var r := s.(tickers := s.tickers[i := Ticker(d, d, None, [])]);
      r.(onTickers := Notify(s.onTickers, |r.WaitingTickers()|))
    case StopTicker(i) => s.(tickers := s.tickers[i := s.tickers[i].(remaining := 0, duration := 0)])
    case ResetTicker(i, d) =>
      var r := s.(tickers := s.tickers[i := s.tickers[i].(remaining := d, duration := d)]);
      r.(onTickers := Notify(s.onTickers, |r.WaitingTickers()|))
    case ReadTicker(i) => s.(tickers := s.tickers[i := s.tickers[i].(slot := None)])
    case BlockUntil(w, n) => s.(onSleepers := Wait(s.onSleepers, w, n, |s.WaitingSleepers()|))
    case BlockUntilTimers(w, n) => s.(onTimers := Wait(s.onTimers, w, n, |s.WaitingTimers()|))
    case BlockUntilTickers(w, n) => s.(onTickers := Wait(s.onTickers, w, n, |s.WaitingTickers()|))
  }

  function Initial(now: int): State {
    var none := Blockers(map[], map[]);
    State(now, map[], {}, map[], map[], none, none, none)
  }

  function Run(now: int, steps: seq<Step>): Option<State> {
    if steps == [] then Some(Initial(now))
    else
      match Run(now, steps[..|steps| - 1])
      case None => None
      case Some(s) => if Enabled(s, steps[|steps| - 1]) then Some(Apply(s, steps[|steps| - 1])) else None
  }

  // ---- waiters: for any durations

  predicate WaitersInv(b: Blockers, waiting: nat) {
    && (forall w <- b.waiting :: b.waiting[w] > waiting && w !in b.closed)
    && (forall w <- b.closed :: b.closed[w] == 1)
  }

  predicate NoLostWakeUp(s: State) {
    && WaitersInv(s.onSleepers, |s.WaitingSleepers()|)
    && WaitersInv(s.onTimers, |s.WaitingTimers()|)
    && WaitersInv(s.onTickers, |s.WaitingTickers()|)
  }

  lemma {:induction false} NotifyKeeps(b: Blockers, before: nat, waiting: nat)
    requires WaitersInv(b, before)
    ensures WaitersInv(Notify(b, waiting), waiting)
  {}

  lemma {:induction false} FewerKeeps(b: Blockers, before: set<Id>, waiting: set<Id>)
    requires WaitersInv(b, |before|) && waiting <= before
    ensures WaitersInv(b, |waiting|)
  {
    assert before == waiting + (before - waiting);
  }

  lemma {:induction false} WaitKeeps(b: Blockers, w: Id, n: int, waiting: nat)
    requires WaitersInv(b, waiting) && Unused(b, w)
    ensures WaitersInv(Wait(b, w, n, waiting), waiting)
  {}

  // ---- Advance can take any duration; a negative one revives what has come to rest

  function SleepersAfter(s: State, d: int): set<Id> {
    set i | i in s.sleepers && i in s.listed && s.sleepers[i].remaining > d
  }

  function TimersAfter(s: State, d: int): set<Id> {
    set i | i in s.timers && s.timers[i].remaining > d
  }

  predicate AllAskFor(b: Blockers, more: nat) {
    forall w <- b.waiting :: b.waiting[w] > more
  }

  /** Not enough sleepers and timers have more than d to go for anyone who waits for them. */
  predicate StillShort(s: State, d: int) {
    AllAskFor(s.onSleepers, |SleepersAfter(s, d)|) && AllAskFor(s.onTimers, |TimersAfter(s, d)|)
  }

  lemma {:induction false} WaitingAfterAdvance(s: State, d: int)
    ensures var r := AdvanceAll(s, d);
      && r.WaitingSleepers() == SleepersAfter(s, d) && r.WaitingTimers() == TimersAfter(s, d)
      && r.WaitingTickers() == s.WaitingTickers()
  {}

  lemma {:induction false} AskingForMore(b: Blockers, before: nat, waiting: nat)
    requires WaitersInv(b, before)
    ensures WaitersInv(b, waiting) <==> AllAskFor(b, waiting)
  {}

  lemma {:induction false} AdvanceKeepsWaitersExactlyWhen(s: State, d: int)
    requires NoLostWakeUp(s)
    ensures NoLostWakeUp(AdvanceAll(s, d)) <==> StillShort(s, d)
  {
    hide AdvanceAll, WaitersInv, AllAskFor, WaitingOf, TimersOf, TickersOf, SleepersAfter, TimersAfter;
    AdvanceKeepsBlockers(s, d);
    WaitingAfterAdvance(s, d);
    AskingForMore(s.onSleepers, |s.WaitingSleepers()|, |SleepersAfter(s, d)|);
    AskingForMore(s.onTimers, |s.WaitingTimers()|, |TimersAfter(s, d)|);
  }

  /** Time does not go back. */
  predicate Forward(step: Step) { step.Advance? ==> step.d >= 0 }

  /** Then there are never enough. */
  lemma {:induction false} ForwardStaysShort(s: State, d: nat)
    requires NoLostWakeUp(s)
    ensures StillShort(s, d)
  {
    hide WaitersInv, AllAskFor;
    assert SleepersAfter(s, d) <= s.WaitingSleepers() && TimersAfter(s, d) <= s.WaitingTimers();
    FewerKeeps(s.onSleepers, s.WaitingSleepers(), SleepersAfter(s, d));
    FewerKeeps(s.onTimers, s.WaitingTimers(), TimersAfter(s, d));
    AskingForMore(s.onSleepers, |s.WaitingSleepers()|, |SleepersAfter(s, d)|);
    AskingForMore(s.onTimers, |s.WaitingTimers()|, |TimersAfter(s, d)|);
  }

  lemma {:induction false} StopLeavesNoMoreWaiting(s: State, step: Step)
    requires Enabled(s, step) && (step.StopTimer? || step.StopTicker?)
    ensures var r := Apply(s, step);
      && r.WaitingSleepers() == s.WaitingSleepers() && r.WaitingTimers() <= s.WaitingTimers()
      && r.WaitingTickers() <= s.WaitingTickers()
  {}

  lemma {:induction false} OthersUnchanged(s: State, step: Step)
    requires Enabled(s, step) && !step.Advance? && !step.StopTimer? && !step.StopTicker?
    ensures var r := Apply(s, step);
      && (!step.After? ==> r.WaitingSleepers() == s.WaitingSleepers())
      && (!step.NewTimer? && !step.ResetTimer? ==> r.WaitingTimers() == s.WaitingTimers())
      && (!step.NewTicker? && !step.ResetTicker? ==> r.WaitingTickers() == s.WaitingTickers())
  {}

  /** Every step but an Advance keeps the waiters right; an Advance does exactly when those that wait stay short. */
  lemma {:induction false} StepKeepsWaiters(s: State, step: Step)
    requires NoLostWakeUp(s) && Enabled(s, step)
    ensures NoLostWakeUp(Apply(s, step)) <==> (step.Advance? ==> StillShort(s, step.d))
    ensures Forward(step) ==> NoLostWakeUp(Apply(s, step))
  {
    if step.Advance? {
      AdvanceKeepsWaitersExactlyWhen(s, step.d);
      if step.d >= 0 {
        ForwardStaysShort(s, step.d);
      }
    } else {
      OtherStepKeepsWaiters(s, step);
    }
  }

  lemma {:induction false} OtherStepKeepsWaiters(s: State, step: Step)
    requires NoLostWakeUp(s) && Enabled(s, step) && !step.Advance?
    ensures NoLostWakeUp(Apply(s, step))
  {
    hide WaitersInv, Notify, Wait, SleeperBlocks, AdvanceAll, WaitingOf, TimersOf, TickersOf;
    var r := Apply(s, step);
    if step.StopTimer? || step.StopTicker? {
      StopLeavesNoMoreWaiting(s, step);
      FewerKeeps(s.onSleepers, s.WaitingSleepers(), r.WaitingSleepers());
      FewerKeeps(s.onTimers, s.WaitingTimers(), r.WaitingTimers());
      FewerKeeps(s.onTickers, s.WaitingTickers(), r.WaitingTickers());
    } else {
      OthersUnchanged(s, step);
      match step
      case After(_, _) => NotifyKeeps(s.onSleepers, |s.WaitingSleepers()|, |r.WaitingSleepers()|);
      case NewTimer(_, _) => NotifyKeeps(s.onTimers, |s.WaitingTimers()|, |r.WaitingTimers()|);
      case ResetTimer(_, _) => NotifyKeeps(s.onTimers, |s.WaitingTimers()|, |r.WaitingTimers()|);
      case NewTicker(_, _) => NotifyKeeps(s.onTickers, |s.WaitingTickers()|, |r.WaitingTickers()|);
      case ResetTicker(_, _) => NotifyKeeps(s.onTickers, |s.WaitingTickers()|, |r.WaitingTickers()|);
      case BlockUntil(w, n) => WaitKeeps(s.onSleepers, w, n, |s.WaitingSleepers()|);
      case BlockUntilTimers(w, n) => WaitKeeps(s.onTimers, w, n, |s.WaitingTimers()|);
      case BlockUntilTickers(w, n) => WaitKeeps(s.onTickers, w, n, |s.WaitingTickers()|);
      case _ =>
    }
  }

  lemma {:induction false} AdvanceKeepsBlockers(s: State, d: int)
    ensures var r := AdvanceAll(s, d);
      r.onSleepers == s.onSleepers && r.onTimers == s.onTimers && r.onTickers == s.onTickers
  {}

  // ---- sleepers and timers: for durations that are not negative

  predicate NonNegative(step: Step) {
    match step
    case Advance(d) => d >= 0
    case After(_, d) => d >= 0
    case NewTimer(_, d) => d >= 0
    case ResetTimer(_, d) => d >= 0
    case _ => true
  }

  /** A sleeper has fired exactly when its time has come, and then once. */
  predicate SleeperInv(s: Sleeper, now: int, listed: bool) {
    if now < s.due then s.remaining == s.due - now && s.sent == [] && s.slot == None && listed
    else s.remaining == 0 && |s.sent| == 1 && s.due <= s.sent[0] <= now && (s.slot.Some? ==> s.slot == Some(s.sent[0]))
  }

  predicate TimerInv(t: Timer, now: int) {
    if t.due.Some? then t.remaining == t.due.value - now > 0 else t.remaining == 0
  }

  predicate DueInv(s: State) {
    && (forall i <- s.sleepers :: SleeperInv(s.sleepers[i], s.now, i in s.listed))
    && (forall i <- s.timers :: TimerInv(s.timers[i], s.now))
  }

  /** What an Advance does to a sleeper: it fires in the first one that reaches its due time, with the time reached. */
  lemma {:induction false} SleeperAdvances(s: Sleeper, now: int, d: int, listed: bool)
    requires SleeperInv(s, now, listed) && d >= 0
    ensures !(listed && SleeperBlocks(s, d))
    ensures var r := if listed then AdvanceSleeper(s, now + d, d) else s;
      && SleeperInv(r, now + d, listed && SleeperStays(s, d))
      && r.due == s.due && r.sent == s.sent + if now < s.due <= now + d then [now + d] else []
  {}

  lemma {:induction false} TimerAdvances(t: Timer, now: int, d: int)
    requires TimerInv(t, now) && d >= 0
    ensures var r := AdvanceTimer(t, now + d, d);
      && TimerInv(r, now + d)
      && (if t.due.Some? && t.due.value <= now + d then r.due == None && r.sent == t.sent + [now + d]
          else r.due == t.due && r.sent == t.sent)
  {}

  lemma {:induction false} StepKeepsDue(s: State, step: Step)
    requires DueInv(s) && Enabled(s, step) && NonNegative(step)
    ensures DueInv(Apply(s, step))
  {
    hide Notify, Wait, WaitingOf, TimersOf, TickersOf;
    var r := Apply(s, step);
    if step.Advance? {
      hide SleeperInv, TimerInv, AdvanceSleeper, AdvanceTimer, AdvanceTicker;
      forall i <- r.sleepers ensures SleeperInv(r.sleepers[i], r.now, i in r.listed) {
        SleeperAdvances(s.sleepers[i], s.now, step.d, i in s.listed);
      }
      forall i <- r.timers ensures TimerInv(r.timers[i], r.now) {
        TimerAdvances(s.timers[i], s.now, step.d);
      }
    } else {
      hide AdvanceAll, AdvanceSleeper, AdvanceTimer, AdvanceTicker;
      forall i <- r.sleepers ensures SleeperInv(r.sleepers[i], r.now, i in r.listed) {
        assert i in s.sleepers ==> SleeperInv(s.sleepers[i], s.now, i in s.listed);
      }
      forall i <- r.timers ensures TimerInv(r.timers[i], r.now) {
        assert i in s.timers ==> TimerInv(s.timers[i], s.now);
      }
    }
  }

  /** At every Advance of the run the waiters stay short. */
  predicate AlwaysShort(now: int, steps: seq<Step>) {
    steps == [] ||
    var before, step := steps[..|steps| - 1], steps[|steps| - 1];
    && AlwaysShort(now, before)
    && (Run(now, steps).Some? && step.Advance? ==> StillShort(Run(now, before).value, step.d))
  }

  /** After every step of the run no waiter is parked with enough around. */
  predicate AlwaysWoken(now: int, steps: seq<Step>) {
    && (Run(now, steps).Some? ==> NoLostWakeUp(Run(now, steps).value))
    && (steps != [] ==> AlwaysWoken(now, steps[..|steps| - 1]))
  }

  /** No wake-up is lost in a run exactly when waiters stay short at each Advance, as they do if time goes forward. */
  lemma {:induction false} NoWakeUpIsLostExactlyWhen(now: int, steps: seq<Step>)
    ensures AlwaysWoken(now, steps) <==> AlwaysShort(now, steps)
    ensures (forall x <- steps :: Forward(x)) ==> AlwaysShort(now, steps)
  {
    hide NoLostWakeUp, StillShort, Enabled, Apply;
    if steps == [] {
      NothingWaits(now);
    } else {
      var before, step := steps[..|steps| - 1], steps[|steps| - 1];
      assert forall x <- before :: x in steps;
      assert step in steps;
      NoWakeUpIsLostExactlyWhen(now, before);
      var s := Run(now, before);
      if s.Some? && NoLostWakeUp(s.value) {
        OneMoreStep(s.value, step);
      }
    }
  }

  lemma {:induction false} OneMoreStep(s: State, step: Step)
    requires NoLostWakeUp(s)
    ensures Enabled(s, step) ==> (NoLostWakeUp(Apply(s, step)) <==> (step.Advance? ==> StillShort(s, step.d)))
    ensures step.Advance? && step.d >= 0 ==> StillShort(s, step.d)
  {
    if Enabled(s, step) {
      StepKeepsWaiters(s, step);
    }
    if step.Advance? && step.d >= 0 {
      ForwardStaysShort(s, step.d);
    }
  }

  lemma {:induction false} NothingWaits(now: int)
    ensures NoLostWakeUp(Initial(now)) && Run(now, []) == Some(Initial(now))
  {}

  lemma {:induction false} EveryRunKeepsDue(now: int, steps: seq<Step>)
    requires forall x <- steps :: NonNegative(x)
    ensures Run(now, steps).Some? ==> DueInv(Run(now, steps).value)
  {
    if steps != [] {
      assert forall x <- steps[..|steps| - 1] :: x in steps;
      assert steps[|steps| - 1] in steps;
      EveryRunKeepsDue(now, steps[..|steps| - 1]);
      var s := Run(now, steps[..|steps| - 1]);
      if s.Some? && Enabled(s.value, steps[|steps| - 1]) {
        StepKeepsDue(s.value, steps[|steps| - 1]);
      }
    }
  }

  // ---- what it is for

  /** In every run each parked waiter asks for more than there are now, and no channel is closed twice. */
  lemma {:induction false} WaitersAreWoken(now: int, steps: seq<Step>, w: Id)
    requires (forall x <- steps :: Forward(x)) && Run(now, steps).Some?
    ensures var s := Run(now, steps).value;
      && (w in s.onSleepers.waiting ==> s.onSleepers.waiting[w] > |s.WaitingSleepers()|)
      && (w in s.onTimers.waiting ==> s.onTimers.waiting[w] > |s.WaitingTimers()|)
      && (w in s.onTickers.waiting ==> s.onTickers.waiting[w] > |s.WaitingTickers()|)
    ensures var s := Run(now, steps).value;
      forall b <- [s.onSleepers, s.onTimers, s.onTickers] :: w in b.closed ==> b.closed[w] == 1 && w !in b.waiting
  {
    hide StillShort;
    NoWakeUpIsLostExactlyWhen(now, steps);
  }

  /** With durations that are not negative, Advance never blocks on a channel. */
  lemma {:induction false} AdvanceNeverBlocks(now: int, steps: seq<Step>, d: nat)
    requires (forall x <- steps :: NonNegative(x)) && Run(now, steps).Some?
    ensures Enabled(Run(now, steps).value, Advance(d))
  {
    EveryRunKeepsDue(now, steps);
    var s := Run(now, steps).value;
    forall i <- s.listed | i in s.sleepers ensures !SleeperBlocks(s.sleepers[i], d) {
      SleeperAdvances(s.sleepers[i], s.now, d, true);
    }
  }

  /**
   A sleeper fires once: nothing is sent before its due time, one value from then on. The step in which the time passes
   the due time is the one that sends, and it sends the time reached.
   */
  lemma {:induction false} SleepersFireOnce(now: int, steps: seq<Step>, i: Id, step: Step)
    requires (forall x <- steps :: NonNegative(x)) && Run(now, steps).Some? && i in Run(now, steps).value.sleepers
    requires NonNegative(step) && Enabled(Run(now, steps).value, step)
    ensures var s := Run(now, steps).value;
      var r := Apply(s, step);
      && |s.sleepers[i].sent| == (if s.now < s.sleepers[i].due then 0 else 1)
      && i in r.sleepers && r.sleepers[i].due == s.sleepers[i].due
      && r.sleepers[i].sent == s.sleepers[i].sent + if s.now < s.sleepers[i].due <= r.now then [r.now] else []
  {
    EveryRunKeepsDue(now, steps);
    var s := Run(now, steps).value;
    assert SleeperInv(s.sleepers[i], s.now, i in s.listed);
    if step.Advance? {
      SleeperAdvances(s.sleepers[i], s.now, step.d, i in s.listed);
    }
  }

  /**
   A running timer sends nothing until an Advance reaches its due time; that one sends the time reached, once, and the
   timer no longer runs. Otherwise only a Reset, to nothing at all, sends.
   */
  predicate TimerFollows(t: Timer, u: Timer, before: int, now: int, i: Id, step: Step) {
    match step
    case Advance(_) =>
      if t.due.Some? && t.due.value <= now then u.due == None && u.sent == t.sent + [now]
      else u.due == t.due && u.sent == t.sent
    case StopTimer(j) => u.sent == t.sent && u.due == if j == i then None else t.due
    case ResetTimer(j, d) =>
      if j != i then u.due == t.due && u.sent == t.sent
      else if d == 0 then u.due == None && u.sent == t.sent + [before]
      else u.due == Some(before + d) && u.sent == t.sent
    case _ => u.due == t.due && u.sent == t.sent
  }

  lemma {:induction false} TimersFireOnce(now: int, steps: seq<Step>, i: Id, step: Step)
    requires (forall x <- steps :: NonNegative(x)) && Run(now, steps).Some? && i in Run(now, steps).value.timers
    requires NonNegative(step) && Enabled(Run(now, steps).value, step)
    ensures var s := Run(now, steps).value;
      var t, r := s.timers[i], Apply(s, step);
      && (if t.due.Some? then t.remaining == t.due.value - s.now > 0 else t.remaining == 0)
      && i in r.timers && TimerFollows(t, r.timers[i], s.now, r.now, i, step)
  {
    EveryRunKeepsDue(now, steps);
    TimerStep(Run(now, steps).value, i, step);
  }

  lemma {:induction false} TimerStep(s: State, i: Id, step: Step)
    requires DueInv(s) && i in s.timers && NonNegative(step) && Enabled(s, step)
    ensures TimerInv(s.timers[i], s.now)
    ensures var r := Apply(s, step); i in r.timers && TimerFollows(s.timers[i], r.timers[i], s.now, r.now, i, step)
  {
    hide Notify, Wait, WaitingOf, TimersOf, TickersOf, SleeperInv, SleeperBlocks, AdvanceTimer;
    if step.Advance? {
      TimerAdvances(s.timers[i], s.now, step.d);
    }
  }

  predicate Running(s: Option<State>, i: Id) {
    s.Some? && i in s.value.timers && s.value.timers[i].due.Some?
  }

  predicate CallsOff(step: Step, i: Id) {
    (step.StopTimer? || step.ResetTimer?) && step.i == i
  }

  predicate Sets(step: Step, i: Id) {
    (step.NewTimer? || step.ResetTimer?) && step.i == i
  }

  /** How often a timer was set in a run without having been called off before its time, by a Stop or a new Reset. */
  function Owed(now: int, steps: seq<Step>, i: Id): int {
    if steps == [] then 0
    else
      var before, step := steps[..|steps| - 1], steps[|steps| - 1];
      Owed(now, before, i) + (if Sets(step, i) then 1 else 0)
      - (if CallsOff(step, i) && Running(Run(now, before), i) then 1 else 0)
  }

  /**
   Over a whole run a timer sends once for each time that it was set and not called off, but for the one time it is
   still running for; a timer that was never stopped or reset sends once.
   */
  lemma {:induction false} TimersSendWhatIsOwed(now: int, steps: seq<Step>, i: Id)
    requires (forall x <- steps :: NonNegative(x)) && Run(now, steps).Some?
    ensures var s := Run(now, steps).value;
      if i in s.timers then |s.timers[i].sent| == Owed(now, steps, i) - (if Running(Some(s), i) then 1 else 0)
      else Owed(now, steps, i) == 0
    ensures i in Run(now, steps).value.timers && (forall x <- steps :: !CallsOff(x, i)) ==> Owed(now, steps, i) == 1
  {
    hide NonNegative, Apply, DueInv;
    if steps == [] {
      NoTimers(now);
    } else {
      var before, step := steps[..|steps| - 1], steps[|steps| - 1];
      assert step in steps && forall x <- before :: x in steps;
      TimersSendWhatIsOwed(now, before, i);
      EveryRunKeepsDue(now, before);
      var s := Run(now, before).value;
      if i in s.timers {
        TimerStep(s, i, step);
      } else {
        TimerAppears(s, i, step);
      }
    }
  }

  lemma {:induction false} NoTimers(now: int)
    ensures Run(now, []) == Some(Initial(now)) && Initial(now).timers == map[]
  {}

  lemma {:induction false} TimerAppears(s: State, i: Id, step: Step)
    requires i !in s.timers && Enabled(s, step) && NonNegative(step)
    ensures !CallsOff(step, i) && (i in Apply(s, step).timers <==> Sets(step, i))
    ensures Sets(step, i) ==>
      var t := Apply(s, step).timers[i]; |t.sent| == if t.due.Some? then 0 else 1
  {}

  /** Nothing but Advance waits for anything; a read waits for something to be sent. */
  lemma {:induction false} OnlyAdvanceBlocks(s: State, i: Id, d: int, n: int)
    ensures (Enabled(s, After(i, d)) <==> i !in s.sleepers) && (Enabled(s, NewTimer(i, d)) <==> i !in s.timers)
    ensures (Enabled(s, StopTimer(i)) <==> i in s.timers) && (Enabled(s, ResetTimer(i, d)) <==> i in s.timers)
    ensures Enabled(s, NewTicker(i, d)) <==> i !in s.tickers && d > 0
    ensures Enabled(s, StopTicker(i)) <==> i in s.tickers
    ensures Enabled(s, ResetTicker(i, d)) <==> i in s.tickers && d > 0
    ensures Enabled(s, ReadSleeper(i)) <==> i in s.sleepers && s.sleepers[i].slot.Some?
    ensures Enabled(s, ReadTimer(i)) <==> i in s.timers && s.timers[i].slot.Some?
    ensures Enabled(s, ReadTicker(i)) <==> i in s.tickers && s.tickers[i].slot.Some?
    ensures Enabled(s, BlockUntil(i, n)) <==> i !in s.onSleepers.waiting && i !in s.onSleepers.closed
    ensures Enabled(s, BlockUntilTimers(i, n)) <==> i !in s.onTimers.waiting && i !in s.onTimers.closed
    ensures Enabled(s, BlockUntilTickers(i, n)) <==> i !in s.onTickers.waiting && i !in s.onTickers.closed
  {}

  /** What is made is due when it was asked for: at once for a duration of 0 or less, or else that much later. */
  lemma {:induction false} DueWhenAskedFor(s: State, i: Id, d: int)
    ensures Enabled(s, After(i, d)) ==>
      var r := Apply(s, After(i, d));
      && i in r.sleepers && i in r.listed && r.now == s.now && r.sleepers[i].due == s.now + d
      && r.sleepers[i].sent == if d <= 0 then [s.now] else []
    ensures Enabled(s, NewTimer(i, d)) ==>
      var r := Apply(s, NewTimer(i, d));
      && i in r.timers && r.now == s.now
      && if d <= 0 then r.timers[i].due == None && r.timers[i].sent == [s.now]
         else r.timers[i].due == Some(s.now + d) && r.timers[i].sent == []
    ensures Enabled(s, NewTicker(i, d)) ==>
      var r := Apply(s, NewTicker(i, d));
      i in r.tickers && r.now == s.now && r.tickers[i] == Ticker(d, d, None, []) && d > 0
    ensures Enabled(s, Advance(d)) ==> Apply(s, Advance(d)).now == s.now + d
  {}

  // ---- tickers

  predicate TickerInv(t: Ticker) {
    if t.duration == 0 then t.remaining == 0 else 0 < t.remaining <= t.duration
  }

  predicate TickersInv(s: State) {
    forall i <- s.tickers :: TickerInv(s.tickers[i])
  }

  /**
   A running ticker is due when its remaining time is over. The first Advance that gets there sends the time reached,
   once, and the ticker is next due a full period later. Nothing else sends, and a stopped ticker never does.
   */
  predicate TickerFollows(t: Ticker, u: Ticker, before: int, now: int, i: Id, step: Step) {
    match step
    case Advance(_) =>
      && u.duration == t.duration
      && if t.duration > 0 && before + t.remaining <= now
         then u.sent == t.sent + [now] && u.slot == Some(now) && u.remaining == t.duration
         else u.sent == t.sent && u.slot == t.slot && (t.duration > 0 ==> now + u.remaining == before + t.remaining)
    case StopTicker(j) =>
      u.sent == t.sent && u.slot == t.slot
      && if j == i then u.duration == 0 else u.duration == t.duration && u.remaining == t.remaining
    case ResetTicker(j, d) =>
      u.sent == t.sent && u.slot == t.slot
      && if j == i then u.duration == d && u.remaining == d else u.duration == t.duration && u.remaining == t.remaining
    case ReadTicker(j) =>
      u.sent == t.sent && u.duration == t.duration && u.remaining == t.remaining
      && u.slot == if j == i then None else t.slot
    case _ => u == t
  }

  lemma {:induction false} TickerStep(s: State, i: Id, step: Step)
    requires TickersInv(s) && i in s.tickers && Forward(step) && Enabled(s, step)
    ensures var r := Apply(s, step); i in r.tickers && TickerFollows(s.tickers[i], r.tickers[i], s.now, r.now, i, step)
  {
    hide Notify, Wait, WaitingOf, TimersOf, TickersOf, SleeperBlocks, AdvanceTimer, AdvanceSleeper, Armed;
    assert TickerInv(s.tickers[i]);
  }

  lemma {:induction false} StepKeepsTickers(s: State, step: Step)
    requires TickersInv(s) && Enabled(s, step) && Forward(step)
    ensures TickersInv(Apply(s, step))
  {
    hide Notify, Wait, WaitingOf, TimersOf, TickersOf, SleeperBlocks, AdvanceTimer, AdvanceSleeper, Armed;
    var r := Apply(s, step);
    forall i <- r.tickers ensures TickerInv(r.tickers[i]) {
      assert i in s.tickers ==> TickerInv(s.tickers[i]);
    }
  }

  lemma {:induction false} EveryRunKeepsTickers(now: int, steps: seq<Step>)
    requires forall x <- steps :: Forward(x)
    ensures Run(now, steps).Some? ==> TickersInv(Run(now, steps).value)
  {
    hide TickersInv, Enabled, Apply;
    if steps == [] {
      NoTickers(now);
    } else {
      var before, step := steps[..|steps| - 1], steps[|steps| - 1];
      assert step in steps && forall x <- before :: x in steps;
      EveryRunKeepsTickers(now, before);
      var s := Run(now, before);
      if s.Some? && Enabled(s.value, step) {
        StepKeepsTickers(s.value, step);
      }
    }
  }

  lemma {:induction false} NoTickers(now: int)
    ensures TickersInv(Initial(now))
  {}

  lemma {:induction false} TickersTick(now: int, steps: seq<Step>, i: Id, step: Step)
    requires (forall x <- steps :: Forward(x)) && Run(now, steps).Some? && i in Run(now, steps).value.tickers
    requires Forward(step) && Enabled(Run(now, steps).value, step)
    ensures var s := Run(now, steps).value;
      var t, r := s.tickers[i], Apply(s, step);
      && (t.duration > 0 ==> 0 < t.remaining <= t.duration)
      && i in r.tickers && TickerFollows(t, r.tickers[i], s.now, r.now, i, step)
  {
    EveryRunKeepsTickers(now, steps);
    assert TickerInv(Run(now, steps).value.tickers[i]);
    TickerStep(Run(now, steps).value, i, step);
  }

  // ---- who waits, and until when

  /** A caller that waits for n goes on waiting for n, or is told when there are n. */
  predicate WaitsOn(before: Blockers, after: Blockers, waiting: nat, w: Id) {
    w in before.waiting ==>
      if w in after.waiting then after.waiting[w] == before.waiting[w]
      else w in after.closed && before.waiting[w] <= waiting
  }

  /** A caller that finds enough goes on at once; one that does not is parked for the number it asked for. */
  lemma {:induction false} ParkedExactlyWhen(s: State, w: Id, n: int)
    ensures Enabled(s, BlockUntil(w, n)) ==>
      Apply(s, BlockUntil(w, n)) ==
      if |s.WaitingSleepers()| >= n then s
      else s.(onSleepers := s.onSleepers.(waiting := s.onSleepers.waiting[w := n]))
    ensures Enabled(s, BlockUntilTimers(w, n)) ==>
      Apply(s, BlockUntilTimers(w, n)) ==
      if |s.WaitingTimers()| >= n then s
      else s.(onTimers := s.onTimers.(waiting := s.onTimers.waiting[w := n]))
    ensures Enabled(s, BlockUntilTickers(w, n)) ==>
      Apply(s, BlockUntilTickers(w, n)) ==
      if |s.WaitingTickers()| >= n then s
      else s.(onTickers := s.onTickers.(waiting := s.onTickers.waiting[w := n]))
  {}

  /** No step makes a parked caller vanish, or wakes it before there are as many as it asked for. */
  lemma {:induction false} ParkedUntilEnough(s: State, step: Step, w: Id)
    requires Enabled(s, step)
    ensures var r := Apply(s, step);
      && WaitsOn(s.onSleepers, r.onSleepers, |r.WaitingSleepers()|, w)
      && WaitsOn(s.onTimers, r.onTimers, |r.WaitingTimers()|, w)
      && WaitsOn(s.onTickers, r.onTickers, |r.WaitingTickers()|, w)
  {
    hide WaitingOf, TimersOf, TickersOf, AdvanceTimer, AdvanceSleeper, AdvanceTicker, Armed, SleeperBlocks;
  }

  lemma {:induction false} SleeperTwice(s: Sleeper, now: int, a: nat, b: nat)
    ensures var x := AdvanceSleeper(s, now + a, a);
      var two := if SleeperStays(s, a) then AdvanceSleeper(x, now + a + b, b) else x;
      var one := AdvanceSleeper(s, now + (a + b), a + b);
      && two.remaining == one.remaining && |two.sent| == |one.sent|
      && (SleeperStays(s, a) && SleeperStays(x, b) <==> SleeperStays(s, a + b))
  {}

  lemma {:induction false} TimerTwice(t: Timer, now: int, a: nat, b: nat)
    ensures
      var two := AdvanceTimer(AdvanceTimer(t, now + a, a), now + a + b, b);
      var one := AdvanceTimer(t, now + (a + b), a + b);
      two.remaining == one.remaining && two.due == one.due && |two.sent| == |one.sent|
  {}

  /** In two steps or in one: the same time, the same remaining times, the same sleepers and timers fired. */
  lemma {:induction false} AdvanceInOneOrTwo(s: State, a: nat, b: nat)
    requires s.listed <= s.sleepers.Keys
    ensures var two, one := AdvanceAll(AdvanceAll(s, a), b), AdvanceAll(s, a + b);
      && two.now == one.now && two.listed == one.listed
      && two.sleepers.Keys == one.sleepers.Keys && two.timers.Keys == one.timers.Keys
      && (forall i <- two.sleepers :: two.sleepers[i].remaining == one.sleepers[i].remaining
                                      && |two.sleepers[i].sent| == |one.sleepers[i].sent|)
      && (forall i <- two.timers :: two.timers[i].remaining == one.timers[i].remaining
                                    && two.timers[i].due == one.timers[i].due
                                    && |two.timers[i].sent| == |one.timers[i].sent|)
  {
    hide AdvanceSleeper, AdvanceTimer, AdvanceTicker, SleeperStays;
    forall i <- s.sleepers {
      SleeperTwice(s.sleepers[i], s.now, a, b);
    }
    forall i <- s.timers {
      TimerTwice(s.timers[i], s.now, a, b);
    }
  }

  // ---- negative durations

  lemma {:induction false} Extend(now: int, steps: seq<Step>, s: State, step: Step) returns (longer: seq<Step>)
    requires Run(now, steps) == Some(s) && Enabled(s, step)
    ensures longer == steps + [step] && Run(now, longer) == Some(Apply(s, step))
  {
    longer := steps + [step];
    assert longer[..|steps|] == steps;
  }

  /** A timer made and stopped, and a caller parked until there is one. */
  lemma {:induction false} ParkedBesideStoppedTimer(now: int, i: Id, w: Id) returns (steps: seq<Step>, s: State)
    ensures steps == [NewTimer(i, 5), StopTimer(i), BlockUntilTimers(w, 1)] && Run(now, steps) == Some(s)
    ensures s == Initial(now).(timers := map[i := Timer(0, None, [], None)], onTimers := Blockers(map[w := 1], map[]))
  {
    hide Run, Notify;
    steps, s := [], Initial(now);
    NothingWaits(now);
    NobodyToNotify(1);
    var s1 := s.(timers := map[i := Timer(5, None, [], Some(now + 5))]);
    assert s1.WaitingTimers() == {i};
    assert Apply(s, NewTimer(i, 5)) == s1;
    steps := Extend(now, steps, s, NewTimer(i, 5));
    var s2 := s.(timers := map[i := Timer(0, None, [], None)]);
    assert Apply(s1, StopTimer(i)) == s2;
    steps := Extend(now, steps, s1, StopTimer(i));
    assert s2.WaitingTimers() == {};
    steps := Extend(now, steps, s2, BlockUntilTimers(w, 1));
    s := s2.(onTimers := Blockers(map[w := 1], map[]));
  }

  /** Going back in time lets the stopped timer run again, and the caller that waits for a timer is not told. */
  lemma {:induction false} GoingBackLosesAWakeUp(now: int, i: Id, w: Id)
    ensures var steps := [NewTimer(i, 5), StopTimer(i), BlockUntilTimers(w, 1), Advance(-1)];
      Run(now, steps).Some?
      && var s := Run(now, steps).value; w in s.onTimers.waiting && s.onTimers.waiting[w] == 1 == |s.WaitingTimers()|
  {
    hide Run;
    var steps, s := ParkedBesideStoppedTimer(now, i, w);
    steps := Extend(now, steps, s, Advance(-1));
    assert steps == [NewTimer(i, 5), StopTimer(i), BlockUntilTimers(w, 1), Advance(-1)];
    var r := AdvanceAll(s, -1);
    assert r.timers[i].remaining == 1;
    assert r.WaitingTimers() == {i};
  }

  lemma {:induction false} NobodyToNotify(waiting: nat)
    ensures Notify(Blockers(map[], map[]), waiting) == Blockers(map[], map[])
  {}

  /** A sleeper was sent to when it was made, as it had no time to go. */
  predicate MadeExpired(x: Sleeper) {
    |x.sent| == 1 && x.due <= x.sent[0]
  }

  /** What is in the list has not been sent to, unless it was made expired, and has the time until it is due to go. */
  predicate ListInv(s: State) {
    forall i <- s.listed :: i in s.sleepers && ListedInv(s.sleepers[i], s.now)
  }

  predicate ListedInv(x: Sleeper, now: int) {
    x.remaining == x.due - now && (MadeExpired(x) || (x.sent == [] && x.slot == None))
  }

  lemma {:induction false} StepKeepsList(s: State, step: Step)
    requires ListInv(s) && Enabled(s, step)
    ensures ListInv(Apply(s, step))
  {
    hide Notify, Wait, WaitingOf, TimersOf, TickersOf, AdvanceTimer, AdvanceTicker, Armed;
    var r := Apply(s, step);
    forall i <- r.listed ensures i in r.sleepers && ListedInv(r.sleepers[i], r.now) {
      assert i in s.listed ==> i in s.sleepers && ListedInv(s.sleepers[i], s.now);
    }
  }

  lemma {:induction false} EveryRunKeepsList(now: int, steps: seq<Step>)
    ensures Run(now, steps).Some? ==> ListInv(Run(now, steps).value)
  {
    hide ListInv, Enabled, Apply;
    if steps == [] {
      NothingListed(now);
    } else {
      EveryRunKeepsList(now, steps[..|steps| - 1]);
      var s := Run(now, steps[..|steps| - 1]);
      if s.Some? && Enabled(s.value, steps[|steps| - 1]) {
        StepKeepsList(s.value, steps[|steps| - 1]);
      }
    }
  }

  lemma {:induction false} NothingListed(now: int)
    ensures ListInv(Initial(now))
  {}

  /**
   When Advance goes through, in any run with any durations: it blocks exactly on a sleeper that was made expired, is
   still in the list with its channel unread, is not due just now, and is due by the time reached.
   */
  lemma {:induction false} AdvanceBlocksExactlyWhen(now: int, steps: seq<Step>, e: int)
    requires Run(now, steps).Some?
    ensures var s := Run(now, steps).value;
      s.listed <= s.sleepers.Keys
      && (Enabled(s, Advance(e)) <==>
          !exists i <- s.listed :: MadeExpired(s.sleepers[i]) && s.sleepers[i].slot.Some?
                                   && s.now != s.sleepers[i].due <= s.now + e)
  {
    EveryRunKeepsList(now, steps);
    var s := Run(now, steps).value;
    assert forall i <- s.listed :: ListedInv(s.sleepers[i], s.now);
  }

  /** A sleeper made due at once, unread and back in the future after a negative Advance, blocks the next one. */
  lemma {:induction false} GoingBackBlocksAdvance(now: int, i: Id)
    ensures var s := Run(now, [After(i, 0), Advance(-1)]); s.Some? && !Enabled(s.value, Advance(1))
  {
    hide Run;
    NothingWaits(now);
    var s := Initial(now);
    var steps := Extend(now, [], s, After(i, 0));
    var t := Apply(s, After(i, 0));
    assert t.sleepers == map[i := Sleeper(0, Some(now), [now], now)] && t.listed == {i};
    steps := Extend(now, steps, t, Advance(-1));
    assert steps == [After(i, 0), Advance(-1)];
    var r := Apply(t, Advance(-1));
    assert i in r.listed && r.sleepers[i].remaining == 1 && SleeperBlocks(r.sleepers[i], 1);
  }

  /** A negative duration sends at once and again with the next Advance, which blocks when nobody has read. */
  lemma {:induction false} NegativeDurationBlocksAdvance(now: int, i: Id, d: int, e: nat)
    requires d < 0
    ensures var s := Run(now, [After(i, d)]); s.Some? && !Enabled(s.value, Advance(e))
  {
    assert [After(i, d)][..0] == [];
    assert Run(now, []) == Some(Initial(now)) && Enabled(Initial(now), After(i, d));
    var s := Run(now, [After(i, d)]).value;
    assert s.sleepers[i] == Sleeper(d, Some(now), [now], now + d);
    assert i in s.listed && SleeperBlocks(s.sleepers[i], e);
  }
}

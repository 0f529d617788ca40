/** The loops of pkg/clock/fake_clock.go and its parts. */
module FakeClockObject {
  // The order of the sleepers, timers, tickers and blockers makes no difference, so they are walked in any order.

  import opened Bytes
  import opened FakeClock

  /** waitingTimers */
  method WaitingTimers(timers: map<Id, Timer>) returns (result: nat)
    ensures result == |TimersOf(timers)|
  {
    result := 0;
    var todo := timers.Keys;
    ghost var counted: set<Id> := {};
    while todo != {}
      invariant todo <= timers.Keys
      invariant counted == (set i | i in timers && i !in todo && timers[i].remaining > 0) && result == |counted|
    {
      var i :| i in todo;
      if timers[i].remaining > 0 {
        result := result + 1;
        counted := counted + {i};
      }
      todo := todo - {i};
    }
    assert counted == TimersOf(timers);
  }

  /** waitingSleepers */
  method WaitingSleepers(sleepers: map<Id, Sleeper>, listed: set<Id>) returns (result: nat)
    requires listed <= sleepers.Keys
    ensures result == |WaitingOf(sleepers, listed)|
  {
    result := 0;
    var todo := listed;
    ghost var counted: set<Id> := {};
    while todo != {}
      invariant todo <= listed
      invariant counted == (set i | i in listed && i !in todo && sleepers[i].remaining > 0) && result == |counted|
    {
      var i :| i in todo;
      if sleepers[i].remaining > 0 {
        result := result + 1;
        counted := counted + {i};
      }
      todo := todo - {i};
    }
    assert counted == WaitingOf(sleepers, listed);
  }

  function Closings(b: Blockers, w: Id): nat { if w in b.closed then b.closed[w] else 0 }

  /** The blockers once all waiters but those left have been looked at. */
  ghost predicate NotifiedBut(b: Blockers, waiting: nat, left: set<Id>, r: Blockers) {
    && (forall w :: w in r.waiting <==> w in b.waiting && (w in left || b.waiting[w] > waiting))
    && (forall w <- r.waiting :: r.waiting[w] == b.waiting[w])
    && (forall w :: w in r.closed <==> w in b.closed || (w in b.waiting && w !in left && b.waiting[w] <= waiting))
    && (forall w <- r.closed :: r.closed[w] ==
          Closings(b, w) + (if w in b.waiting && w !in left && b.waiting[w] <= waiting then 1 else 0))
  }

  lemma {:induction false} AllNotified(b: Blockers, waiting: nat, r: Blockers)
    requires NotifiedBut(b, waiting, {}, r)
    ensures r == Notify(b, waiting)
  {
    assert r.waiting == Notify(b, waiting).waiting;
    assert r.closed == Notify(b, waiting).closed;
  }

  lemma {:induction false} NotifyOne(b: Blockers, waiting: nat, left: set<Id>, r: Blockers, w: Id)
    requires NotifiedBut(b, waiting, left, r) && w in left && left <= b.waiting.Keys
    ensures NotifiedBut(b, waiting, left - {w},
      if b.waiting[w] <= waiting then Blockers(r.waiting - {w}, r.closed[w := Closings(r, w) + 1]) else r)
  {}

  /** A waiter is looked at once: its channel is closed, or it stays. */
  method NotifyBlockers(blockers: Blockers, waiting: nat) returns (result: Blockers)
    ensures result == Notify(blockers, waiting)
  {
    hide Notify;
    result := blockers;
    var todo := blockers.waiting.Keys;
    while todo != {}
      invariant todo <= blockers.waiting.Keys && NotifiedBut(blockers, waiting, todo, result)
    {
      var w :| w in todo;
      NotifyOne(blockers, waiting, todo, result, w);
      if blockers.waiting[w] <= waiting {
        result := Blockers(result.waiting - {w}, result.closed[w := Closings(result, w) + 1]);
      }
      todo := todo - {w};
    }
    AllNotified(blockers, waiting, result);
  }

  class Clock {
    var now: int
    var sleepers: map<Id, Sleeper>
    var listed: set<Id>
    var timers: map<Id, Timer>
    var tickers: map<Id, Ticker>
    var blockOnSleepers: Blockers
    var blockOnTimers: Blockers
    var blockOnTickers: Blockers

    ghost function View(): State
      reads this
    {
      State(now, sleepers, listed, timers, tickers, blockOnSleepers, blockOnTimers, blockOnTickers)
    }

    constructor (t: int)
      ensures View() == Initial(t)
    {
      now, sleepers, listed, timers, tickers := t, map[], {}, map[], map[];
      blockOnSleepers, blockOnTimers := Blockers(map[], map[]), Blockers(map[], map[]);
      blockOnTickers := Blockers(map[], map[]);
    }

    method AdvanceSleepers(d: int)
      requires listed <= sleepers.Keys
      requires forall i <- listed :: !SleeperBlocks(sleepers[i], d)
      modifies this`sleepers, this`listed
      ensures sleepers == (map i | i in old(sleepers) ::
                             if i in old(listed) then AdvanceSleeper(old(sleepers)[i], now, d) else old(sleepers)[i])
      ensures listed == set i | i in old(listed) && SleeperStays(old(sleepers)[i], d)
    {
      var newSleepers: set<Id> := {};
      var todo := listed;
      while todo != {}
        invariant todo <= listed == old(listed)
        invariant sleepers.Keys == old(sleepers).Keys
        invariant forall i <- sleepers ::
          sleepers[i] ==
            if i in listed && i !in todo then AdvanceSleeper(old(sleepers)[i], now, d) else old(sleepers)[i]
        invariant newSleepers == set i | i in listed && i !in todo && SleeperStays(old(sleepers)[i], d)
      {
        var i :| i in todo;
        var s := sleepers[i];
        if s.remaining > d {
          sleepers := sleepers[i := s.(remaining := s.remaining - d)];
          newSleepers := newSleepers + {i};
        } else if s.remaining != 0 {
          sleepers := sleepers[i := s.(remaining := 0, slot := Some(now), sent := s.sent + [now])];
        }
        todo := todo - {i};
      }
      listed := newSleepers;
    }

    method AdvanceTimers(d: int)
      modifies this`timers
      ensures timers == map i | i in old(timers) :: AdvanceTimer(old(timers)[i], now, d)
    {
      var todo := timers.Keys;
      while todo != {}
        invariant todo <= timers.Keys == old(timers).Keys
        invariant forall i <- timers ::
          timers[i] == if i in todo then old(timers)[i] else AdvanceTimer(old(timers)[i], now, d)
      {
        var i :| i in todo;
        var t := timers[i];
        if t.remaining > d {
          timers := timers[i := t.(remaining := t.remaining - d)];
        } else if t.remaining != 0 {
          timers := timers[i := t.(remaining := 0, due := None, slot := Some(now), sent := t.sent + [now])];
        }
        todo := todo - {i};
      }
    }

    method AdvanceTickers(d: int)
      modifies this`tickers
      ensures tickers == map i | i in old(tickers) :: AdvanceTicker(old(tickers)[i], now, d)
    {
      var todo := tickers.Keys;
      while todo != {}
        invariant todo <= tickers.Keys == old(tickers).Keys
        invariant forall i <- tickers ::
          tickers[i] == if i in todo then old(tickers)[i] else AdvanceTicker(old(tickers)[i], now, d)
      {
        var i :| i in todo;
        var t := tickers[i];
        if t.duration != 0 {
          if t.remaining > d {
            tickers := tickers[i := t.(remaining := t.remaining - d)];
          } else {
            tickers := tickers[i := t.(remaining := t.duration, slot := Some(now), sent := t.sent + [now])];
          }
        }
        todo := todo - {i};
      }
    }

    /** Advance, where no sleeper's channel is full; AdvanceNeverBlocks says when that is so. */
    method Advance(d: int)
      requires listed <= sleepers.Keys && Enabled(View(), Step.Advance(d))
      modifies this`now, this`sleepers, this`listed, this`timers, this`tickers
      ensures View() == Apply(old(View()), Step.Advance(d))
    {
      hide AdvanceSleeper, AdvanceTimer, AdvanceTicker, SleeperBlocks, SleeperStays;
      now := now + d;
      AdvanceSleepers(d);
      AdvanceTimers(d);
      AdvanceTickers(d);
    }

    method After(i: Id, d: int)
      requires i !in sleepers && listed <= sleepers.Keys
      modifies this`sleepers, this`listed, this`blockOnSleepers
      ensures View() == Apply(old(View()), Step.After(i, d))
    {
      hide Notify, WaitingOf;
      var s := Sleeper(d, None, [], now + d);
      sleepers, listed := sleepers[i := s], listed + {i};
      var waiting := WaitingSleepers(sleepers, listed);
      SlotsDoNotCount(sleepers, listed, i, NewSleeper(now, d));
      blockOnSleepers := NotifyBlockers(blockOnSleepers, waiting);
      if d <= 0 {
        sleepers := sleepers[i := s.(slot := Some(now), sent := [now])];
      }
      assert sleepers == old(sleepers)[i := NewSleeper(now, d)];
    }

    static lemma {:induction false} SlotsDoNotCount(sleepers: map<Id, Sleeper>, listed: set<Id>, i: Id, s: Sleeper)
      requires i in sleepers && s.remaining == sleepers[i].remaining
      ensures WaitingOf(sleepers[i := s], listed) == WaitingOf(sleepers, listed)
    {}

    method Arm(i: Id, t: Timer, d: int)
      modifies this`timers, this`blockOnTimers
      ensures timers == old(timers)[i := Armed(t, now, d)]
      ensures blockOnTimers == Notify(old(blockOnTimers), |TimersOf(timers)|)
    {
      var a := t.(remaining := d, due := if d <= 0 then None else Some(now + d));
      if d <= 0 {
        a := a.(slot := Some(now), sent := a.sent + [now]);
      }
      timers := timers[i := a];
      var waiting := WaitingTimers(timers);
      blockOnTimers := NotifyBlockers(blockOnTimers, waiting);
    }

    method NewTimer(i: Id, d: int)
      requires i !in timers
      modifies this`timers, this`blockOnTimers
      ensures View() == Apply(old(View()), Step.NewTimer(i, d))
    {
      hide Notify;
      Arm(i, Timer(0, None, [], None), d);
    }

    method ResetTimer(i: Id, d: int)
      requires i in timers
      modifies this`timers, this`blockOnTimers
      ensures View() == Apply(old(View()), Step.ResetTimer(i, d))
    {
      hide Notify;
      Arm(i, timers[i], d);
    }

    /** Stop says whether the timer was running. */
    method StopTimer(i: Id) returns (running: bool)
      requires i in timers
      modifies this`timers
      ensures View() == Apply(old(View()), Step.StopTimer(i)) && running == (old(timers)[i].remaining != 0)
    {
      running := timers[i].remaining != 0;
      timers := timers[i := timers[i].(remaining := 0, due := None)];
    }

    /** BlockUntil up to the point where it parks; true when it does not. */
    method BlockUntilTimers(w: Id, n: int) returns (enough: bool)
      requires Unused(blockOnTimers, w)
      modifies this`blockOnTimers
      ensures View() == Apply(old(View()), Step.BlockUntilTimers(w, n)) && enough == (|View().WaitingTimers()| >= n)
    {
      var waiting := WaitingTimers(timers);
      if waiting < n {
        blockOnTimers := blockOnTimers.(waiting := blockOnTimers.waiting[w := n]);
      }
      return waiting >= n;
    }
  }
}

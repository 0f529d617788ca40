/** pkg/grpcserver/health.go, step by step. */
module HealthWatch {
  // Status changes, Shutdown, Resume and any number of watchers, interleaved. The write lock is held over a whole
  // status change, but watchers receive from their one-slot channels without it, so a change is cut at every channel
  // operation.

  import opened Bytes

  type Service = string
  type Watcher = nat

  datatype Status = UNKNOWN | SERVING | NOT_SERVING | SERVICE_UNKNOWN

  /** What the holder of the lock still has to do. */
  datatype Holder =
    | Free
    | Between(status: Status, later: set<Service>)
    | Setting(service: Service, status: Status, todo: set<Watcher>, drained: Option<Watcher>, later: set<Service>)

  /** One call of Watch. A watcher that has left its loop stays registered until it gets the lock. */
  datatype Watch =
    Watch(service: Service, channel: Option<Status>, received: Option<Status>, sent: seq<Status>, left: bool)

  datatype State = State(
    holder: Holder,
    shutdown: bool,
    statusMap: map<Service, Status>,
    updates: map<Watcher, Watch>)   // the registered watchers
  {
    function Current(service: Service): Status {
      if service in statusMap then statusMap[service] else SERVICE_UNKNOWN
    }

    function WatchersOf(service: Service): set<Watcher> {
      set w | w in updates && updates[w].service == service
    }
  }

  datatype Step =
    | Register(w: Watcher, service: Service)
    | Receive(w: Watcher)
    | Leave(w: Watcher)
    | Unregister(w: Watcher)
    | SetServingStatus(service: Service, status: Status)
    | Shutdown
    | Resume
    | NextService(service: Service)
    | Drain(w: Watcher)
    | Put
    | EndService
    | Unlock

  predicate Enabled(s: State, step: Step) {
    match step
    case Register(w, _) => s.holder.Free? && w !in s.updates
    case Receive(w) => w in s.updates && !s.updates[w].left && s.updates[w].channel.Some?
    case Leave(w) => w in s.updates && !s.updates[w].left
    case Unregister(w) => s.holder.Free? && w in s.updates && s.updates[w].left
    case SetServingStatus(_, _) => s.holder.Free?
    case Shutdown => s.holder.Free?
    case Resume => s.holder.Free?
    case NextService(service) => s.holder.Between? && service in s.holder.later
    case Drain(w) => s.holder.Setting? && s.holder.drained == None && w in s.holder.todo && w in s.updates
    // a send to a one-slot channel blocks while the slot is taken
    case Put => s.holder.Setting? && s.holder.drained.Some? && s.holder.drained.value in s.updates
                && s.updates[s.holder.drained.value].channel == None
    case EndService => s.holder.Setting? && s.holder.todo == {} && s.holder.drained == None
    case Unlock => s.holder.Between? && s.holder.later == {}
  }

  function StartSetting(s: State, service: Service, status: Status, later: set<Service>): State {
    s.(statusMap := s.statusMap[service := status],
       holder := Setting(service, status, s.WatchersOf(service), None, later))
  }

  function Apply(s: State, step: Step): State
    requires Enabled(s, step)
  {
    match step
    case Register(w, service) =>
      s.(updates := s.updates[w := Watch(service, Some(s.Current(service)), None, [], false)])
    case Receive(w) =>
      var u := s.updates[w];
      var status := u.channel.value;
      var sent := if u.sent != [] && u.sent[|u.sent| - 1] == status then u.sent else u.sent + [status];
      s.(updates := s.updates[w := u.(channel := None, received := Some(status), sent := sent)])
    case Leave(w) => s.(updates := s.updates[w := s.updates[w].(left := true)])
    case Unregister(w) => s.(updates := s.updates - {w})
    case SetServingStatus(service, status) => if s.shutdown then s else StartSetting(s, service, status, {})
    case Shutdown => s.(shutdown := true, holder := Between(NOT_SERVING, s.statusMap.Keys))
    case Resume => s.(shutdown := false, holder := Between(SERVING, s.statusMap.Keys))
    case NextService(service) => StartSetting(s, service, s.holder.status, s.holder.later - {service})
    case Drain(w) =>
      s.(updates := s.updates[w := s.updates[w].(channel := None)],
         holder := s.holder.(todo := s.holder.todo - {w}, drained := Some(w)))
    case Put =>
      var w := s.holder.drained.value;
      s.(updates := s.updates[w := s.updates[w].(channel := Some(s.holder.status))],
         holder := s.holder.(drained := None))
    case EndService => s.(holder := Between(s.holder.status, s.holder.later))
    case Unlock => s.(holder := Free)
  }

  function Initial(): State {
    State(Free, false, map["" := SERVING], map[])
  }

  function Run(s: State, steps: seq<Step>): Option<State> {
    if steps == [] then Some(s)
    else
      match Run(s, steps[..|steps| - 1])
      case None => None
      case Some(t) => if Enabled(t, steps[|steps| - 1]) then Some(Apply(t, steps[|steps| - 1])) else None
  }

  // ---- what every reachable state keeps

  /** The channel holds the current status, or it is empty and the current status was the last one received. */
  predicate UpToDate(s: State, w: Watcher)
    requires w in s.updates
  {
    var u := s.updates[w];
    u.channel == Some(s.Current(u.service)) || (u.channel == None && u.received == Some(s.Current(u.service)))
  }

  /** Only a watcher that the change at hand has not served yet may be behind. */
  predicate Watched(s: State, w: Watcher)
    requires w in s.updates
  {
    if s.holder.Setting? && w in s.holder.todo then true
    else if s.holder.Setting? && s.holder.drained == Some(w) then s.updates[w].channel == None
    else UpToDate(s, w)
  }

  predicate NoRepeats(sent: seq<Status>) {
    forall i :: 0 < i < |sent| ==> sent[i] != sent[i - 1]
  }

  /** What the client was sent last is what was received last, and nothing was sent twice in a row. */
  predicate SentInv(u: Watch) {
    NoRepeats(u.sent) && u.received == if u.sent == [] then None else Some(u.sent[|u.sent| - 1])
  }

  predicate HolderInv(s: State) {
    s.holder.Setting? ==>
      && s.holder.service in s.statusMap && s.statusMap[s.holder.service] == s.holder.status
      && (forall w <- s.holder.todo :: w in s.updates && s.updates[w].service == s.holder.service)
      && (s.holder.drained.Some? ==>
            && s.holder.drained.value in s.updates && s.updates[s.holder.drained.value].service == s.holder.service
            && s.holder.drained.value !in s.holder.todo)
  }

  function Later(h: Holder): set<Service> {
    if h.Free? then {} else h.later
  }

  predicate ShutdownInv(s: State) {
    s.shutdown ==>
      && (!s.holder.Free? ==> s.holder.status == NOT_SERVING)
      && (forall service <- s.statusMap :: service in Later(s.holder) || s.statusMap[service] == NOT_SERVING)
  }

  predicate Inv(s: State) {
    && HolderInv(s) && ShutdownInv(s)
    && (forall w <- s.updates :: Watched(s, w) && SentInv(s.updates[w]))
  }

  lemma {:induction false} StepKeepsHolder(s: State, step: Step)
    requires Inv(s) && Enabled(s, step)
    ensures HolderInv(Apply(s, step))
  {}

  lemma {:induction false} StepKeepsShutdown(s: State, step: Step)
    requires Inv(s) && Enabled(s, step)
    ensures ShutdownInv(Apply(s, step))
  {}

  lemma {:induction false} StepKeepsWatched(s: State, step: Step, w: Watcher)
    requires HolderInv(s) && (w in s.updates ==> Watched(s, w))
    requires Enabled(s, step) && w in Apply(s, step).updates
    ensures Watched(Apply(s, step), w)
  {
    var r := Apply(s, step);
    assert w in s.updates ==> r.updates[w].service == s.updates[w].service;
  }

  lemma {:induction false} StepKeepsSent(s: State, step: Step, w: Watcher)
    requires w in s.updates ==> SentInv(s.updates[w])
    requires Enabled(s, step) && w in Apply(s, step).updates
    ensures SentInv(Apply(s, step).updates[w])
  {
    hide NoRepeats;
    NothingSent();
    if w in s.updates {
      var u := s.updates[w];
      if step == Receive(w) && (u.sent == [] || u.sent[|u.sent| - 1] != u.channel.value) {
        OneMoreSent(u.sent, u.channel.value);
      }
    }
  }

  lemma {:induction false} NothingSent()
    ensures NoRepeats([])
  {}

  lemma {:induction false} OneMoreSent(sent: seq<Status>, status: Status)
    requires NoRepeats(sent) && (sent == [] || sent[|sent| - 1] != status)
    ensures NoRepeats(sent + [status])
  {}

  lemma {:induction false} StepKeepsInv(s: State, step: Step)
    requires Inv(s) && Enabled(s, step)
    ensures Inv(Apply(s, step))
  {
    StepKeepsHolder(s, step);
    StepKeepsShutdown(s, step);
    var r := Apply(s, step);
    forall w <- r.updates ensures Watched(r, w) && SentInv(r.updates[w]) {
      StepKeepsWatched(s, step, w);
      StepKeepsSent(s, step, w);
    }
  }

  lemma {:induction false} EveryRunKeepsInv(s: State, steps: seq<Step>)
    requires Inv(s)
    ensures Run(s, steps).Some? ==> Inv(Run(s, steps).value)
  {
    if steps != [] {
      EveryRunKeepsInv(s, steps[..|steps| - 1]);
      var t := Run(s, steps[..|steps| - 1]);
      if t.Some? && Enabled(t.value, steps[|steps| - 1]) {
        StepKeepsInv(t.value, steps[|steps| - 1]);
      }
    }
  }

  // ---- what it is for

  /**
   In every interleaving, whenever nobody is changing a status: each registered watcher has the current status of its
   service in its channel or has received it last; and a watcher with an empty channel has sent it to its client last.
   */
  lemma {:induction false} WatchersSeeTheCurrentStatus(steps: seq<Step>, w: Watcher)
    requires Run(Initial(), steps).Some?
    requires var s := Run(Initial(), steps).value; s.holder.Free? && w in s.updates
    ensures var s := Run(Initial(), steps).value;
      UpToDate(s, w)
      && (s.updates[w].channel == None ==>
            s.updates[w].sent != [] && s.updates[w].sent[|s.updates[w].sent| - 1] == s.Current(s.updates[w].service))
  {
    EveryRunKeepsInv(Initial(), steps);
    var s := Run(Initial(), steps).value;
    assert Watched(s, w) && SentInv(s.updates[w]);
  }

  /**
   Whoever wants to change a status, or to watch one, can do so once the lock is free; so can a watcher that leaves.
   */
  lemma {:induction false} CallsGoThrough(s: State, service: Service, status: Status, w: Watcher)
    requires s.holder.Free?
    ensures Enabled(s, SetServingStatus(service, status)) && Enabled(s, Shutdown) && Enabled(s, Resume)
    ensures w !in s.updates ==> Enabled(s, Register(w, service)) && w in Apply(s, Register(w, service)).updates
    ensures w in s.updates && s.updates[w].left ==>
      Enabled(s, Unregister(w)) && w !in Apply(s, Unregister(w)).updates
  {}

  /** A watcher receives whenever there is something in its channel, whoever holds the lock; and its client is told. */
  lemma {:induction false} WatchersReceive(s: State, w: Watcher)
    requires w in s.updates && !s.updates[w].left
    ensures Enabled(s, Receive(w)) <==> s.updates[w].channel.Some?
    ensures Enabled(s, Receive(w)) ==>
      var u := Apply(s, Receive(w)).updates[w];
      u.channel == None && u.received == s.updates[w].channel
      && u.sent != [] && Some(u.sent[|u.sent| - 1]) == s.updates[w].channel
  {}

  // ---- what the status is: read off the calls

  /** Shutdown has been called, and Resume not since. */
  predicate IsShut(steps: seq<Step>) {
    steps != [] &&
    match steps[|steps| - 1]
    case Shutdown => true
    case Resume => false
    case _ => IsShut(steps[..|steps| - 1])
  }

  /** The last status that was set while not shut down; Shutdown and Resume set that of every service that has one. */
  function LastSet(steps: seq<Step>, service: Service): Option<Status> {
    if steps == [] then if service == "" then Some(SERVING) else None
    else
      var before := steps[..|steps| - 1];
      SetBy(steps[|steps| - 1], service, LastSet(before, service), IsShut(before))
  }

  function SetBy(step: Step, service: Service, last: Option<Status>, shut: bool): Option<Status> {
    match step
    case SetServingStatus(v, status) => if v == service && !shut then Some(status) else last
    case Shutdown => if last.Some? then Some(NOT_SERVING) else None
    case Resume => if last.Some? then Some(SERVING) else None
    case _ => last
  }

  /** While Shutdown or Resume is at it, the services still to come have their old status. */
  predicate MapFollows(s: State, last: Option<Status>, service: Service) {
    && (service in s.statusMap <==> last.Some?)
    && (service in Later(s.holder) ==> last == Some(s.holder.status))
    && (service in s.statusMap && service !in Later(s.holder) ==> last == Some(s.statusMap[service]))
  }

  lemma {:induction false} StepFollows(s: State, step: Step, last: Option<Status>, service: Service)
    requires MapFollows(s, last, service) && HolderInv(s) && Enabled(s, step)
    ensures MapFollows(Apply(s, step), SetBy(step, service, last, s.shutdown), service)
  {}

  lemma {:induction false} StatusFollowsTheCalls(steps: seq<Step>, service: Service)
    requires Run(Initial(), steps).Some?
    ensures var s := Run(Initial(), steps).value;
      s.shutdown == IsShut(steps) && MapFollows(s, LastSet(steps, service), service)
  {
    hide MapFollows, Inv, Enabled;
    if steps == [] {
      FollowsAtFirst(service);
    } else {
      var before := steps[..|steps| - 1];
      StatusFollowsTheCalls(before, service);
      HolderInvHolds(before);
      StepFollows(Run(Initial(), before).value, steps[|steps| - 1], LastSet(before, service), service);
    }
  }

  lemma {:induction false} FollowsAtFirst(service: Service)
    ensures MapFollows(Initial(), LastSet([], service), service)
  {}

  lemma {:induction false} HolderInvHolds(steps: seq<Step>)
    requires Run(Initial(), steps).Some?
    ensures HolderInv(Run(Initial(), steps).value)
  {
    EveryRunKeepsInv(Initial(), steps);
  }

  /**
   What a watcher is told, in every interleaving: whenever nobody is changing a status, the last that was set for its
   service, or SERVICE_UNKNOWN when none ever was, is in its channel or was received last.
   */
  lemma {:induction false} WatchersAreToldWhatWasSet(steps: seq<Step>, w: Watcher)
    requires Run(Initial(), steps).Some?
    requires var s := Run(Initial(), steps).value; s.holder.Free? && w in s.updates
    ensures var u := Run(Initial(), steps).value.updates[w];
      var status := match LastSet(steps, u.service) case None => SERVICE_UNKNOWN case Some(status) => status;
      || u.channel == Some(status)
      || (u.channel == None && u.sent != [] && u.sent[|u.sent| - 1] == status)
  {
    WatchersSeeTheCurrentStatus(steps, w);
    StatusFollowsTheCalls(steps, Run(Initial(), steps).value.updates[w].service);
  }

  /** No client is sent the same status twice in a row. */
  lemma {:induction false} NoStatusTwiceInARow(steps: seq<Step>, w: Watcher)
    requires Run(Initial(), steps).Some? && w in Run(Initial(), steps).value.updates
    ensures NoRepeats(Run(Initial(), steps).value.updates[w].sent)
  {
    EveryRunKeepsInv(Initial(), steps);
    assert SentInv(Run(Initial(), steps).value.updates[w]);
  }

  /** setServingStatusLocked never blocks: whoever holds the lock can take its next step, whatever the watchers do. */
  lemma {:induction false} HolderNeverBlocks(steps: seq<Step>) returns (next: Step)
    requires Run(Initial(), steps).Some? && !Run(Initial(), steps).value.holder.Free?
    ensures Enabled(Run(Initial(), steps).value, next)
    ensures next.NextService? || next.Drain? || next.Put? || next.EndService? || next.Unlock?
  {
    EveryRunKeepsInv(Initial(), steps);
    var s := Run(Initial(), steps).value;
    match s.holder
    case Between(_, later) =>
      if later == {} {
        next := Unlock;
      } else {
        var service :| service in later;
        next := NextService(service);
      }
    case Setting(_, _, todo, drained, _) =>
      if drained.Some? {
        assert Watched(s, drained.value);
        next := Put;
      } else if todo == {} {
        next := EndService;
      } else {
        var w :| w in todo;
        next := Drain(w);
      }
  }

  /** Work left for the lock holder: it shrinks with each of its steps, so it lets go of the lock. */
  function Work(s: State): nat {
    match s.holder
    case Free => 0
    case Between(_, later) => 1 + 2 * |later|
    case Setting(_, _, todo, drained, later) => 2 + 2 * |later|
  }

  function WatchersLeft(s: State): nat {
    if s.holder.Setting? then 2 * |s.holder.todo| + (if s.holder.drained.Some? then 1 else 0) else 0
  }

  lemma {:induction false} HolderGetsDone(s: State, step: Step)
    requires Enabled(s, step) && (step.NextService? || step.Drain? || step.Put? || step.EndService? || step.Unlock?)
    ensures var r := Apply(s, step);
      Work(r) < Work(s) || (Work(r) == Work(s) && WatchersLeft(r) < WatchersLeft(s))
  {
    if step.NextService? {
      assert |s.holder.later - {step.service}| == |s.holder.later| - 1;
    } else if step.Drain? {
      assert |s.holder.todo - {step.w}| == |s.holder.todo| - 1;
    }
  }

  lemma {:induction false} StaysShutDown(s: State, steps: seq<Step>)
    requires s.shutdown && Run(s, steps).Some? && Resume !in steps
    ensures Run(s, steps).value.shutdown
  {
    if steps != [] {
      assert steps[|steps| - 1] in steps;
      assert forall x <- steps[..|steps| - 1] :: x in steps;
      StaysShutDown(s, steps[..|steps| - 1]);
    }
  }

  /** After Shutdown, and until Resume, every service is NOT_SERVING, whatever statuses are set in between. */
  lemma {:induction false} NotServingUntilResume(before: seq<Step>, after: seq<Step>, service: Service)
    requires Run(Initial(), before).Some? && Enabled(Run(Initial(), before).value, Shutdown) && Resume !in after
    requires var s := Run(Apply(Run(Initial(), before).value, Shutdown), after);
      s.Some? && s.value.holder.Free? && service in s.value.statusMap
    ensures Run(Apply(Run(Initial(), before).value, Shutdown), after).value.statusMap[service] == NOT_SERVING
  {
    EveryRunKeepsInv(Initial(), before);
    var down := Apply(Run(Initial(), before).value, Shutdown);
    StepKeepsInv(Run(Initial(), before).value, Shutdown);
    EveryRunKeepsInv(down, after);
    StaysShutDown(down, after);
    assert ShutdownInv(Run(down, after).value);
  }
}

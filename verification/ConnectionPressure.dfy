/** pkg/httpserver/connection_pressure_manager.go. */
module ConnectionPressure {
  // Which connections are idle, and for how long. Every operation runs under one mutex, so a history is a sequence of
  // operations. They are given here on values; module ConnectionPressureManager has them on the map and the list.

  import opened Bytes

  type Conn = nat

  /** The known connections, with the time since which they are idle; the idle ones in list order; the open gauge. */
  datatype State = State(known: map<Conn, Option<int>>, idle: seq<Conn>, gauge: int)

  function Without<T(==)>(s: seq<T>, x: T): (r: seq<T>) {
    if s == [] then [] else if s[0] == x then s[1..] else [s[0]] + Without(s[1..], x)
  }

  function MarkActive(s: State, c: Conn): State {
    State(s.known[c := None], Without(s.idle, c), if c in s.known then s.gauge else s.gauge + 1)
  }

  function MarkIdle(s: State, c: Conn, now: int): State {
    State(s.known[c := Some(now)], Without(s.idle, c) + [c], s.gauge)
  }

  function Remove(s: State, c: Conn): State {
    State(s.known - {c}, Without(s.idle, c), if c in s.known then s.gauge - 1 else s.gauge)
  }

  function PopOldest(s: State): State {
    if s.idle == [] then s else State(s.known - {s.idle[0]}, s.idle[1..], s.gauge - 1)
  }

  // ---- what every operation keeps

  function IdleSince(known: map<Conn, Option<int>>, c: Conn): int {
    if c in known && known[c].Some? then known[c].value else 0
  }

  predicate IsIdle(s: State, c: Conn) { c in s.known && s.known[c].Some? }

  /** No connection twice, and each idle no later than all behind it. */
  predicate Chain(known: map<Conn, Option<int>>, idle: seq<Conn>) {
    idle == []
    || (idle[0] !in idle[1..]
        && (forall d <- idle[1..] :: IdleSince(known, idle[0]) <= IdleSince(known, d))
        && Chain(known, idle[1..]))
  }

  ghost predicate SameMembers(s: State) {
    forall c: Conn :: c in s.idle <==> IsIdle(s, c)
  }

  ghost predicate Inv(s: State, now: int) {
    SameMembers(s) && Chain(s.known, s.idle) && forall c <- s.idle :: IdleSince(s.known, c) <= now
  }

  /** The list and the idle connections of the map are in bijection, and the list is in the order of idle times. */
  ghost predicate InOrder(s: State) {
    && SameMembers(s)
    && (forall i, j :: 0 <= i < j < |s.idle| ==> s.idle[i] != s.idle[j])
    && (forall i, j :: 0 <= i < j < |s.idle| ==> IdleSince(s.known, s.idle[i]) <= IdleSince(s.known, s.idle[j]))
  }

  lemma {:induction false} ChainIsInOrder(known: map<Conn, Option<int>>, idle: seq<Conn>, i: nat, j: nat)
    requires Chain(known, idle) && i < j < |idle|
    ensures idle[i] != idle[j] && IdleSince(known, idle[i]) <= IdleSince(known, idle[j])
  {
    if i == 0 {
      assert idle[j] == idle[1..][j - 1];
    } else {
      ChainIsInOrder(known, idle[1..], i - 1, j - 1);
    }
  }

  lemma {:induction false} InvIsInOrder(s: State, now: int)
    requires Inv(s, now)
    ensures InOrder(s)
  {
    forall i, j | 0 <= i < j < |s.idle|
      ensures s.idle[i] != s.idle[j] && IdleSince(s.known, s.idle[i]) <= IdleSince(s.known, s.idle[j])
    {
      ChainIsInOrder(s.known, s.idle, i, j);
    }
  }

  lemma {:induction false} WithoutMembers(idle: seq<Conn>, c: Conn, known: map<Conn, Option<int>>)
    requires Chain(known, idle)
    ensures forall d :: d in Without(idle, c) <==> d in idle && d != c
  {
    if idle != [] {
      assert idle == [idle[0]] + idle[1..];
      WithoutMembers(idle[1..], c, known);
    }
  }

  lemma {:induction false} WithoutChain(idle: seq<Conn>, c: Conn, known: map<Conn, Option<int>>)
    requires Chain(known, idle)
    ensures Chain(known, Without(idle, c))
  {
    if idle != [] && idle[0] != c {
      WithoutChain(idle[1..], c, known);
      WithoutMembers(idle[1..], c, known);
      assert Without(idle, c)[1..] == Without(idle[1..], c);
    }
  }

  lemma {:induction false} ChainElsewhere(idle: seq<Conn>, known: map<Conn, Option<int>>, other: map<Conn, Option<int>>)
    requires Chain(known, idle) && forall d <- idle :: IdleSince(known, d) == IdleSince(other, d)
    ensures Chain(other, idle)
  {
    if idle != [] {
      assert forall d <- idle[1..] :: d in idle;
      assert idle[0] in idle;
      ChainElsewhere(idle[1..], known, other);
    }
  }

  lemma {:induction false} ChainSnoc(idle: seq<Conn>, known: map<Conn, Option<int>>, c: Conn)
    requires Chain(known, idle) && c !in idle && forall d <- idle :: IdleSince(known, d) <= IdleSince(known, c)
    ensures Chain(known, idle + [c])
  {
    if idle == [] {
      assert (idle + [c])[1..] == [];
    } else {
      assert forall d <- idle[1..] :: d in idle;
      assert idle[0] in idle;
      ChainSnoc(idle[1..], known, c);
      assert (idle + [c])[1..] == idle[1..] + [c];
    }
  }

  /** Taking a connection out of the list, whatever the map then says about it. */
  lemma {:induction false} TakenOut(s: State, now: int, c: Conn, known: map<Conn, Option<int>>)
    requires Inv(s, now)
    requires forall d :: d != c ==> (d in known <==> d in s.known) && (d in known ==> known[d] == s.known[d])
    ensures Chain(known, Without(s.idle, c))
    ensures forall d :: d in Without(s.idle, c) <==> d != c && IsIdle(s, d)
    ensures forall d <- Without(s.idle, c) :: IdleSince(known, d) == IdleSince(s.known, d) <= now
  {
    WithoutMembers(s.idle, c, s.known);
    WithoutChain(s.idle, c, s.known);
    ChainElsewhere(Without(s.idle, c), s.known, known);
  }

  lemma {:induction false} MarkActiveKeeps(s: State, now: int, c: Conn)
    requires Inv(s, now)
    ensures Inv(MarkActive(s, c), now)
  {
    hide Chain;
    TakenOut(s, now, c, s.known[c := None]);
  }

  lemma {:induction false} RemoveKeeps(s: State, now: int, c: Conn)
    requires Inv(s, now)
    ensures Inv(Remove(s, c), now)
  {
    hide Chain;
    TakenOut(s, now, c, s.known - {c});
  }

  lemma {:induction false} MarkIdleKeeps(s: State, before: int, c: Conn, now: int)
    requires Inv(s, before) && before <= now
    ensures Inv(MarkIdle(s, c, now), now)
  {
    hide Chain;
    var known := s.known[c := Some(now)];
    TakenOut(s, before, c, known);
    ChainSnoc(Without(s.idle, c), known, c);
  }

  lemma {:induction false} PopKeeps(s: State, now: int)
    requires Inv(s, now)
    ensures Inv(PopOldest(s), now)
  {
    if s.idle != [] {
      var c := s.idle[0];
      TakenOut(s, now, c, s.known - {c});
      assert Without(s.idle, c) == s.idle[1..];
    }
  }

  /** The connection taken has been idle longest; none is taken only when none is idle. */
  lemma {:induction false} PopTakesTheLongestIdle(s: State, now: int, c: Conn)
    requires Inv(s, now) && IsIdle(s, c)
    ensures s.idle != [] && IsIdle(s, s.idle[0]) && IdleSince(s.known, s.idle[0]) <= IdleSince(s.known, c)
    ensures !IsIdle(PopOldest(s), s.idle[0])
  {
    assert c in s.idle;
    var i :| 0 <= i < |s.idle| && s.idle[i] == c;
    if i > 0 {
      ChainIsInOrder(s.known, s.idle, 0, i);
    }
    assert s.idle[0] in s.idle;
  }

  // ---- histories

  datatype HttpState = Unborn | New | Active | Idle | Hijacked | Closed

  /** What net/http reports for one connection: Hijacked and Closed are final. */
  predicate Follows(before: HttpState, after: HttpState) {
    match before
    case Unborn => after.New?
    case New => after.Active? || after.Closed?
    case Active => after.Active? || after.Idle? || after.Hijacked? || after.Closed?
    case Idle => after.Active? || after.Closed?
    case Hijacked => false
    case Closed => false
  }

  datatype Event = ConnState(c: Conn, state: HttpState, now: int) | CloseOldestIdle

  datatype History = History(s: State, http: map<Conn, HttpState>, now: int, strays: nat) {
    function Of(c: Conn): HttpState { if c in http then http[c] else Unborn }
  }

  /** The clock does not go back. */
  predicate Possible(h: History, e: Event) {
    e.ConnState? ==> e.now >= h.now
  }

  predicate Legal(h: History, e: Event) {
    e.ConnState? ==> Follows(h.Of(e.c), e.state)
  }

  /** A stray is a connection that turns idle without being known: it enters the map without being counted. */
  function Next(h: History, e: Event): History {
    match e
    case CloseOldestIdle => h.(s := PopOldest(h.s))
    case ConnState(c, state, now) =>
      var s := match state
        case New => MarkActive(h.s, c)
        case Active => MarkActive(h.s, c)
        case Idle => MarkIdle(h.s, c, now)
        case Hijacked => Remove(h.s, c)
        case Closed => Remove(h.s, c)
        case Unborn => h.s;
      History(s, h.http[c := state], now, if state.Idle? && c !in h.s.known then h.strays + 1 else h.strays)
  }

  function Start(now: int): History { History(State(map[], [], 0), map[], now, 0) }

  ghost predicate AllPossible(h: History, events: seq<Event>)
    decreases |events|
  {
    events == [] || (Possible(h, events[0]) && AllPossible(Next(h, events[0]), events[1..]))
  }

  ghost predicate AllLegal(h: History, events: seq<Event>)
    decreases |events|
  {
    events == [] || (Legal(h, events[0]) && AllLegal(Next(h, events[0]), events[1..]))
  }

  function Play(h: History, events: seq<Event>): History
    decreases |events|
  {
    if events == [] then h else Play(Next(h, events[0]), events[1..])
  }

  /** Whatever is reported: the gauge is off by the strays and by nothing else. */
  ghost predicate Counted(h: History) {
    Inv(h.s, h.now) && |h.s.known| == h.s.gauge + h.strays
  }

  /** As long as reports are legal, an active connection is known, and a known one is not closed. */
  ghost predicate Reported(h: History) {
    forall c: Conn ::
      && (h.Of(c).New? || h.Of(c).Active? ==> c in h.s.known && h.s.known[c] == None)
      && (h.Of(c).Idle? && c in h.s.known ==> h.s.known[c].Some?)
      && (c in h.s.known ==> h.Of(c).New? || h.Of(c).Active? || h.Of(c).Idle?)
  }

  lemma {:induction false} Sizes(m: map<Conn, Option<int>>, c: Conn, v: Option<int>)
    ensures |m[c := v]| == |m| + if c in m then 0 else 1
    ensures |m - {c}| == |m| - if c in m then 1 else 0
  {
    assert m[c := v].Keys == m.Keys + {c};
    assert (m - {c}).Keys == m.Keys - {c};
    assert |m[c := v]| == |m[c := v].Keys| && |m - {c}| == |(m - {c}).Keys| && |m| == |m.Keys|;
  }

  lemma {:induction false} NextKeepsCounted(h: History, e: Event)
    requires Counted(h) && Possible(h, e)
    ensures Counted(Next(h, e))
  {
    hide Inv, Without, Chain;
    match e
    case CloseOldestIdle =>
      PopKeeps(h.s, h.now);
      if h.s.idle != [] {
        FirstIsKnown(h.s, h.now);
        Sizes(h.s.known, h.s.idle[0], None);
      }
    case ConnState(c, state, now) =>
      Sizes(h.s.known, c, None);
      Sizes(h.s.known, c, Some(now));
      Later(h.s, h.now, now);
      match state {
        case New => MarkActiveKeeps(h.s, now, c);
        case Active => MarkActiveKeeps(h.s, now, c);
        case Idle => MarkIdleKeeps(h.s, now, c, now);
        case Hijacked => RemoveKeeps(h.s, now, c);
        case Closed => RemoveKeeps(h.s, now, c);
        case Unborn =>
      }
  }

  lemma {:induction false} FirstIsKnown(s: State, now: int)
    requires Inv(s, now) && s.idle != []
    ensures s.idle[0] in s.known
  {
    assert s.idle[0] in s.idle;
  }

  lemma {:induction false} Later(s: State, before: int, now: int)
    requires Inv(s, before) && before <= now
    ensures Inv(s, now)
  {}

  lemma {:induction false} NextKeepsReported(h: History, e: Event)
    requires Counted(h) && Reported(h) && Legal(h, e)
    ensures Reported(Next(h, e)) && Next(h, e).strays == h.strays
  {
    if e.CloseOldestIdle? && h.s.idle != [] {
      assert h.s.idle[0] in h.s.idle;
      assert IsIdle(h.s, h.s.idle[0]);
    }
  }

  lemma {:induction false} EveryHistoryIsCounted(h: History, events: seq<Event>)
    requires Counted(h) && AllPossible(h, events)
    ensures Counted(Play(h, events))
    decreases |events|
  {
    if events != [] {
      NextKeepsCounted(h, events[0]);
      EveryHistoryIsCounted(Next(h, events[0]), events[1..]);
    }
  }

  lemma {:induction false} LegalHistoriesHaveNoStrays(h: History, events: seq<Event>)
    requires Counted(h) && Reported(h) && AllPossible(h, events) && AllLegal(h, events)
    ensures Reported(Play(h, events)) && Play(h, events).strays == h.strays
    decreases |events|
  {
    if events != [] {
      NextKeepsCounted(h, events[0]);
      NextKeepsReported(h, events[0]);
      LegalHistoriesHaveNoStrays(Next(h, events[0]), events[1..]);
    }
  }

  lemma {:induction false} StartIsCounted(now: int)
    ensures Counted(Start(now)) && Reported(Start(now))
  {}

  /**
   After any legal reports, mixed with closings in any way: list and map are in bijection, the list is ordered by idle
   time, and the gauge is the number of known connections.
   */
  lemma {:induction false} GaugeIsTheNumberOfConnections(start: int, events: seq<Event>)
    requires AllPossible(Start(start), events) && AllLegal(Start(start), events)
    ensures var h := Play(Start(start), events);
      InOrder(h.s) && h.s.gauge == |h.s.known|
  {
    StartIsCounted(start);
    EveryHistoryIsCounted(Start(start), events);
    LegalHistoriesHaveNoStrays(Start(start), events);
    InvIsInOrder(Play(Start(start), events).s, Play(Start(start), events).now);
  }

  /** After any reports at all: bijection and order hold, and the gauge is right exactly when there was no stray. */
  lemma {:induction false} GaugeIsRightExactlyWhen(start: int, events: seq<Event>)
    requires AllPossible(Start(start), events)
    ensures var h := Play(Start(start), events);
      InOrder(h.s) && (h.s.gauge == |h.s.known| <==> h.strays == 0)
  {
    StartIsCounted(start);
    EveryHistoryIsCounted(Start(start), events);
    InvIsInOrder(Play(Start(start), events).s, Play(Start(start), events).now);
  }

  /**
   A stray: a connection whose first report is that it is idle, which is no order in which net/http reports. It is not
   counted when it comes, but when it goes.
   */
  lemma {:induction false} FirstReportedIdle(start: int, c: Conn)
    ensures var events := [ConnState(c, Idle, start), ConnState(c, Closed, start)];
      && AllPossible(Start(start), events) && !AllLegal(Start(start), events)
      && Play(Start(start), events[..1]).s == State(map[c := Some(start)], [c], 0)
      && Play(Start(start), events).s == State(map[], [], -1)
  {
    var h, idle, closed := Start(start), ConnState(c, Idle, start), ConnState(c, Closed, start);
    assert [idle, closed][1..] == [closed] && [idle, closed][..1] == [idle];
    assert [idle][1..] == [] && [closed][1..] == [];
    var r := Next(h, idle);
    assert [] + [c] == [c];
    assert r.s == State(map[c := Some(start)], [c], 0);
    assert Next(r, closed).s == State(map[], [], -1);
    assert Play(r, [closed]) == Next(r, closed);
  }

  // ---- the state, read off the reports

  /** The last report of a connection: the state, the time, and which event it was. */
  datatype Report = Report(state: HttpState, at: int, order: nat)

  type Reports = map<Conn, Report>

  /** The connection that was reported idle the longest ago. */
  ghost predicate LongestIdle(m: Reports, c: Conn) {
    c in m && m[c].state.Idle? && forall d <- m :: m[d].state.Idle? ==> m[c].order <= m[d].order
  }

  /** The connections there are: last reported as new, active or idle, and not closed as the longest idle one since. */
  ghost function LastReports(events: seq<Event>): Reports {
    if events == [] then map[]
    else
      var n := |events| - 1;
      var m := LastReports(events[..n]);
      match events[n]
      case ConnState(c, state, now) =>
        if state.New? || state.Active? || state.Idle? then m[c := Report(state, now, n)]
        else if state.Hijacked? || state.Closed? then m - {c}
        else m
      case CloseOldestIdle => map c | c in m && !LongestIdle(m, c) :: m[c]
  }

  function Orders(m: Reports): map<Conn, Option<int>> {
    map c | c in m :: Some(m[c].order)
  }

  ghost predicate KnownMatches(known: map<Conn, Option<int>>, m: Reports) {
    && (forall c: Conn :: c in known <==> c in m)
    && (forall c <- m :: known[c] == if m[c].state.Idle? then Some(m[c].at) else None)
  }

  ghost predicate ListMatches(idle: seq<Conn>, m: Reports) {
    (forall c: Conn :: c in idle <==> c in m && m[c].state.Idle?) && Chain(Orders(m), idle)
  }

  predicate Numbered(m: Reports, n: nat) {
    && (forall c <- m :: m[c].order < n)
    && (forall c <- m, d <- m :: m[c].order == m[d].order ==> c == d)
  }

  ghost predicate Matches(s: State, m: Reports, n: nat) {
    KnownMatches(s.known, m) && ListMatches(s.idle, m) && Numbered(m, n)
  }

  lemma {:induction false} OneMoreNumber(m: Reports, n: nat, c: Conn, r: Report)
    requires Numbered(m, n) && r.order == n
    ensures Numbered(m[c := r], n + 1)
  {}

  lemma {:induction false} OneMoreKnown(known: map<Conn, Option<int>>, m: Reports, c: Conn, r: Report)
    requires KnownMatches(known, m)
    ensures KnownMatches(known[c := if r.state.Idle? then Some(r.at) else None], m[c := r])
  {}

  /** Taking a connection out of the list, whatever its new report. */
  lemma {:induction false} TakenOutOfList(s: State, m: Reports, n: nat, c: Conn, after: Reports)
    requires Matches(s, m, n) && forall d :: d != c ==> (d in after <==> d in m) && (d in m ==> after[d] == m[d])
    ensures Chain(Orders(after), Without(s.idle, c))
    ensures forall d :: d in Without(s.idle, c) <==> d != c && d in m && m[d].state.Idle?
  {
    WithoutMembers(s.idle, c, Orders(m));
    WithoutChain(s.idle, c, Orders(m));
    ChainElsewhere(Without(s.idle, c), Orders(m), Orders(after));
  }

  lemma {:induction false} ActiveMatches(s: State, m: Reports, n: nat, c: Conn, r: Report)
    requires Matches(s, m, n) && (r.state.New? || r.state.Active?) && r.order == n
    ensures Matches(MarkActive(s, c), m[c := r], n + 1)
  {
    hide Chain, Without, KnownMatches, Numbered;
    TakenOutOfList(s, m, n, c, m[c := r]);
    OneMoreNumber(m, n, c, r);
    OneMoreKnown(s.known, m, c, r);
  }

  lemma {:induction false} IdleMatches(s: State, m: Reports, n: nat, c: Conn, now: int)
    requires Matches(s, m, n)
    ensures Matches(MarkIdle(s, c, now), m[c := Report(Idle, now, n)], n + 1)
  {
    hide Chain, Without, KnownMatches, Numbered;
    var r := Report(Idle, now, n);
    OneMoreNumber(m, n, c, r);
    OneMoreKnown(s.known, m, c, r);
    IdleListMatches(s, m, n, c, r);
  }

  lemma {:induction false} IdleListMatches(s: State, m: Reports, n: nat, c: Conn, r: Report)
    requires Matches(s, m, n) && r.state.Idle? && r.order == n
    ensures ListMatches(Without(s.idle, c) + [c], m[c := r])
  {
    hide Chain, Without, KnownMatches;
    var idle := Without(s.idle, c);
    TakenOutOfList(s, m, n, c, m[c := r]);
    LastInOrder(idle, m[c := r], c, n);
    forall d: Conn ensures d in idle + [c] <==> d in m[c := r] && m[c := r][d].state.Idle? {
      assert d in idle + [c] <==> d in idle || d == c;
    }
  }

  lemma {:induction false} LastInOrder(idle: seq<Conn>, m: Reports, c: Conn, n: nat)
    requires Chain(Orders(m), idle) && c !in idle && c in m && m[c].order == n
    requires forall d <- idle :: d in m && m[d].order < n
    ensures Chain(Orders(m), idle + [c])
  {
    ChainSnoc(idle, Orders(m), c);
  }

  lemma {:induction false} RemovedMatches(s: State, m: Reports, n: nat, c: Conn)
    requires Matches(s, m, n)
    ensures Matches(Remove(s, c), m - {c}, n + 1)
  {
    hide Chain;
    TakenOutOfList(s, m, n, c, m - {c});
  }

  lemma {:induction false} PoppedMatches(s: State, m: Reports, n: nat)
    requires Matches(s, m, n)
    ensures Matches(PopOldest(s), map c | c in m && !LongestIdle(m, c) :: m[c], n + 1)
  {
    if s.idle == [] {
      assert (map c | c in m && !LongestIdle(m, c) :: m[c]) == m;
    } else {
      var c := s.idle[0];
      assert c in s.idle && Without(s.idle, c) == s.idle[1..];
      FirstIsLongestIdle(s, m, n);
      assert (map d | d in m && !LongestIdle(m, d) :: m[d]) == m - {c};
      RemovedMatches(s, m, n, c);
    }
  }

  lemma {:induction false} FirstIsLongestIdle(s: State, m: Reports, n: nat)
    requires Matches(s, m, n) && s.idle != []
    ensures forall d :: LongestIdle(m, d) <==> d == s.idle[0]
  {
    var c := s.idle[0];
    assert c in s.idle;
    forall d <- m | m[d].state.Idle? ensures m[c].order <= m[d].order {
      assert d in s.idle;
      assert d == c || d in s.idle[1..];
      assert d in s.idle[1..] ==> IdleSince(Orders(m), c) <= IdleSince(Orders(m), d);
    }
    assert LongestIdle(m, c);
  }

  lemma {:induction false} PlayOneMore(h: History, events: seq<Event>, e: Event)
    ensures Play(h, events + [e]) == Next(Play(h, events), e)
    decreases |events|
  {
    if events == [] {
      assert [] + [e] == [e] && [e][1..] == [];
      assert Play(Next(h, e), []) == Next(h, e);
    } else {
      assert (events + [e])[1..] == events[1..] + [e];
      PlayOneMore(Next(h, events[0]), events[1..], e);
    }
  }

  lemma {:induction false} EveryHistoryMatches(start: int, events: seq<Event>)
    ensures Matches(Play(Start(start), events).s, LastReports(events), |events|)
  {
    hide Matches, Chain;
    if events == [] {
      NothingReported(start);
    } else {
      var n := |events| - 1;
      var before, m, e := events[..n], LastReports(events[..n]), events[n];
      EveryHistoryMatches(start, before);
      assert before + [e] == events;
      PlayOneMore(Start(start), before, e);
      var s := Play(Start(start), before).s;
      match e
      case CloseOldestIdle => PoppedMatches(s, m, n);
      case ConnState(c, state, now) =>
        match state {
          case New => ActiveMatches(s, m, n, c, Report(state, now, n));
          case Active => ActiveMatches(s, m, n, c, Report(state, now, n));
          case Idle => IdleMatches(s, m, n, c, now);
          case Hijacked => RemovedMatches(s, m, n, c);
          case Closed => RemovedMatches(s, m, n, c);
          case Unborn => LaterMatches(s, m, n);
        }
    }
  }

  lemma {:induction false} NothingReported(start: int)
    ensures Matches(Start(start).s, map[], 0) && Play(Start(start), []) == Start(start) && LastReports([]) == map[]
  {}

  lemma {:induction false} LaterMatches(s: State, m: Reports, n: nat)
    requires Matches(s, m, n)
    ensures Matches(s, m, n + 1)
  {}

  /**
   After any reports and closings: the connections in the map are those whose last report is new, active or idle and
   which have not been closed for being idle since; the ones last reported idle are in the list, with the time of that
   report, in the order of those reports.
   */
  lemma {:induction false} KnownAreTheLastReported(start: int, events: seq<Event>)
    ensures var s, m := Play(Start(start), events).s, LastReports(events);
      && s.known.Keys == m.Keys
      && (forall c <- m :: s.known[c] == if m[c].state.Idle? then Some(m[c].at) else None)
      && (forall c: Conn :: c in s.idle <==> c in m && m[c].state.Idle?)
      && (forall i, j :: 0 <= i < j < |s.idle| ==> m[s.idle[i]].order < m[s.idle[j]].order)
  {
    EveryHistoryMatches(start, events);
    var s, m := Play(Start(start), events).s, LastReports(events);
    forall i, j | 0 <= i < j < |s.idle| ensures m[s.idle[i]].order < m[s.idle[j]].order {
      ChainIsInOrder(Orders(m), s.idle, i, j);
      assert s.idle[i] in s.idle && s.idle[j] in s.idle;
    }
  }
}

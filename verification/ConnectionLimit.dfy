/** pkg/httpserver/connection_limit_listener.go. */
module ConnectionLimit {
  // A token for every accept in flight and every open connection. A call of Accept takes a token, waits for the inner
  // listener, and hands the token to the connection or gives it back. A connection gives its token back on its first
  // Close. Only safety is stated: whether a waiting accept ever gets a token is up to notifications that may be
  // dropped.

  import opened Bytes

  type Accept = nat
  type Conn = nat

  /** The tokens in the channel, accepts in flight, and the connections handed out: whether they have been closed. */
  datatype State = State(tokens: int, closed: bool, inFlight: set<Accept>, conns: map<Conn, bool>) {
    function Open(): set<Conn> { OpenOf(conns) }
  }

  function OpenOf(conns: map<Conn, bool>): set<Conn> {
    set c | c in conns && !conns[c]
  }

  datatype Step =
    | Acquire(a: Accept)
    | ListenerClosed(a: Accept)
    | Accepted(a: Accept, c: Conn)
    | AcceptFailed(a: Accept)
    | CloseConn(c: Conn)
    | Close

  /** When the step does not block: a send needs room in the channel, a receive a token in it. */
  predicate Enabled(max: nat, s: State, step: Step) {
    match step
    case Acquire(a) => a !in s.inFlight && s.tokens < max
    case ListenerClosed(a) => a !in s.inFlight && s.closed
    case Accepted(a, c) => a in s.inFlight && c !in s.conns
    case AcceptFailed(a) => a in s.inFlight && s.tokens > 0
    case CloseConn(c) => c in s.conns && (s.conns[c] || s.tokens > 0)
    case Close => true
  }

  function Apply(s: State, step: Step): State {
    match step
    case Acquire(a) => s.(tokens := s.tokens + 1, inFlight := s.inFlight + {a})
    case ListenerClosed(_) => s
    case Accepted(a, c) => s.(inFlight := s.inFlight - {a}, conns := s.conns[c := false])
    case AcceptFailed(a) => s.(inFlight := s.inFlight - {a}, tokens := s.tokens - 1)
    case CloseConn(c) =>
      if c in s.conns && !s.conns[c] then s.(tokens := s.tokens - 1, conns := s.conns[c := true]) else s
    case Close => s.(closed := true)
  }

  function Initial(): State { State(0, false, {}, map[]) }

  function Run(max: nat, steps: seq<Step>): Option<State> {
    if steps == [] then Some(Initial())
    else
      match Run(max, steps[..|steps| - 1])
      case None => None
      case Some(s) => if Enabled(max, s, steps[|steps| - 1]) then Some(Apply(s, steps[|steps| - 1])) else None
  }

  predicate Inv(max: nat, s: State) {
    s.tokens == |s.inFlight| + |s.Open()| <= max
  }

  lemma {:induction false} StepKeepsInv(max: nat, s: State, step: Step)
    requires Inv(max, s) && Enabled(max, s, step)
    ensures Inv(max, Apply(s, step))
  {
    hide OpenOf;
    match step
    case Accepted(a, c) => NowOpen(s.conns, c);
    case CloseConn(c) =>
      if !s.conns[c] {
        NowClosed(s.conns, c);
      }
    case _ =>
  }

  lemma {:induction false} NowOpen(conns: map<Conn, bool>, c: Conn)
    requires c !in conns
    ensures |OpenOf(conns[c := false])| == |OpenOf(conns)| + 1
  {
    assert OpenOf(conns[c := false]) == OpenOf(conns) + {c};
  }

  lemma {:induction false} NowClosed(conns: map<Conn, bool>, c: Conn)
    requires c in conns && !conns[c]
    ensures |OpenOf(conns[c := true])| == |OpenOf(conns)| - 1
  {
    assert c in OpenOf(conns);
    assert OpenOf(conns[c := true]) == OpenOf(conns) - {c};
  }

  lemma {:induction false} EveryRunKeepsInv(max: nat, steps: seq<Step>)
    ensures Run(max, steps).Some? ==> Inv(max, Run(max, steps).value)
  {
    if steps == [] {
      assert Initial().Open() == {};
    } else {
      EveryRunKeepsInv(max, steps[..|steps| - 1]);
      var s := Run(max, steps[..|steps| - 1]);
      if s.Some? && Enabled(max, s.value, steps[|steps| - 1]) {
        StepKeepsInv(max, s.value, steps[|steps| - 1]);
      }
    }
  }

  /** Never more than MaxConnections are open or about to be. */
  lemma {:induction false} LimitHolds(max: nat, steps: seq<Step>)
    requires Run(max, steps).Some?
    ensures var s := Run(max, steps).value; |s.inFlight| + |s.Open()| <= max
  {
    EveryRunKeepsInv(max, steps);
  }

  /** Giving a token back never waits: neither after a failed accept nor on closing a connection, however often. */
  lemma {:induction false} ReleaseNeverBlocks(max: nat, steps: seq<Step>, a: Accept, c: Conn)
    requires Run(max, steps).Some?
    ensures a in Run(max, steps).value.inFlight ==> Enabled(max, Run(max, steps).value, AcceptFailed(a))
    ensures c in Run(max, steps).value.conns ==> Enabled(max, Run(max, steps).value, CloseConn(c))
  {
    EveryRunKeepsInv(max, steps);
    var s := Run(max, steps).value;
    if a in s.inFlight {
      assert |s.inFlight| > 0;
    }
    if c in s.conns && !s.conns[c] {
      assert c in s.Open();
    }
  }

  /** How many of the steps are closings of a connection that give a token back. */
  function Releases(max: nat, steps: seq<Step>, c: Conn): nat {
    if steps == [] then 0
    else
      var last, before := steps[|steps| - 1], steps[..|steps| - 1];
      Releases(max, before, c)
      + match Run(max, before)
        case None => 0
        case Some(s) => if last == CloseConn(c) && Apply(s, last).tokens < s.tokens then 1 else 0
  }

  /** A connection gives its token back once: with its first Close, and never again. */
  lemma {:induction false} OneReleasePerConnection(max: nat, steps: seq<Step>, c: Conn)
    requires Run(max, steps).Some?
    ensures Releases(max, steps, c) == (var s := Run(max, steps).value; if c in s.conns && s.conns[c] then 1 else 0)
  {
    if steps != [] {
      OneReleasePerConnection(max, steps[..|steps| - 1], c);
    }
  }

  // ---- the code

  /**
   In every run an accept gets a token exactly when open connections and accepts in flight leave room for one more.
   */
  lemma {:induction false} RoomExactlyWhen(max: nat, steps: seq<Step>, a: Accept)
    requires Run(max, steps).Some?
    ensures var s := Run(max, steps).value;
      && (Enabled(max, s, Acquire(a)) <==> a !in s.inFlight && |s.inFlight| + |s.Open()| < max)
      && (Enabled(max, s, Acquire(a)) ==>
            var r := Apply(s, Acquire(a)); r.inFlight == s.inFlight + {a} && r.Open() == s.Open())
      && (Enabled(max, s, ListenerClosed(a)) <==> a !in s.inFlight && s.closed)
      && (a in s.inFlight ==> forall c: Conn | c !in s.conns :: Enabled(max, s, Accepted(a, c)))
  {
    EveryRunKeepsInv(max, steps);
  }

  /** What one look at the channels gives. */
  datatype Look = Acquired | ErrClosed | NotReady

  class Listener {
    const max: nat
    var tokens: int
    var closed: bool
    ghost var inFlight: set<Accept>
    ghost var conns: map<Conn, bool>
    var released: set<Conn>  // the sync.Once of each connection

    ghost function View(): State
      reads this
    {
      State(tokens, closed, inFlight, conns)
    }

    ghost predicate Valid()
      reads this
    {
      Inv(max, View()) && forall c: Conn :: c in released <==> c in conns && conns[c]
    }

    constructor (max: nat)
      ensures Valid() && View() == Initial() && this.max == max
    {
      this.max, tokens, closed, inFlight, conns, released := max, 0, false, {}, map[], {};
      new;
      assert View().Open() == {};
    }

    /**
     One look at the channels in acquire. When there is room and the listener is closed as well, either can win; only
     when neither is the case does the look end without a result.
     */
    method TryAcquire(ghost a: Accept) returns (look: Look)
      requires Valid() && a !in inFlight
      modifies this
      ensures Valid()
      ensures match look
        case Acquired => Enabled(max, old(View()), Acquire(a)) && View() == Apply(old(View()), Acquire(a))
        case ErrClosed => Enabled(max, old(View()), ListenerClosed(a)) && View() == old(View())
        case NotReady =>
          && !Enabled(max, old(View()), Acquire(a)) && !Enabled(max, old(View()), ListenerClosed(a))
          && View() == old(View())
    {
      var either: bool := *;
      if tokens < max && (!closed || either) {
        StepKeepsInv(max, View(), Acquire(a));
        tokens := tokens + 1;
        inFlight := inFlight + {a};
        return Acquired;
      }
      return if closed then ErrClosed else NotReady;
    }

    method Release(ghost a: Accept)
      requires Valid() && a in inFlight
      modifies this
      ensures Valid() && View() == Apply(old(View()), AcceptFailed(a))
    {
      assert |inFlight| > 0;
      StepKeepsInv(max, View(), AcceptFailed(a));
      tokens := tokens - 1;
      inFlight := inFlight - {a};
    }

    /** The rest of Accept, once the inner listener has answered. */
    method FinishAccept(ghost a: Accept, conn: Option<Conn>)
      requires Valid() && a in inFlight && (conn.Some? ==> conn.value !in conns)
      modifies this
      ensures Valid()
      ensures View() == Apply(old(View()), if conn.Some? then Accepted(a, conn.value) else AcceptFailed(a))
    {
      if conn == None {
        Release(a);
        return;
      }
      StepKeepsInv(max, View(), Accepted(a, conn.value));
      inFlight := inFlight - {a};
      conns := conns[conn.value := false];
    }

    method CloseConn(c: Conn)
      requires Valid() && c in conns
      modifies this
      ensures Valid() && View() == Apply(old(View()), Step.CloseConn(c))
    {
      assert !conns[c] ==> c in View().Open();
      StepKeepsInv(max, View(), Step.CloseConn(c));
      if c !in released {
        released := released + {c};
        tokens := tokens - 1;
        conns := conns[c := true];
      }
    }

    method Close()
      requires Valid()
      modifies this
      ensures Valid() && View() == Apply(old(View()), Step.Close)
    {
      StepKeepsInv(max, View(), Step.Close);
      closed := true;
    }
  }
}

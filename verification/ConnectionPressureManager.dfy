/** pkg/httpserver/connection_pressure_manager.go in place. */
module ConnectionPressureManager {
  // A map of connections whose entries point into a list of idle connections, and the open-connection gauge of
  // metric_recorder.go.

  import opened Bytes
  import opened ConnectionPressure

  class Element {
    const conn: Conn

    constructor (conn: Conn)
      ensures this.conn == conn
    {
      this.conn := conn;
    }
  }

  class MetricRecorder {
    var openConnections: int

    constructor ()
      ensures openConnections == 0
    {
      openConnections := 0;
    }

    method TrackConnectionOpened()
      modifies this
      ensures openConnections == old(openConnections) + 1
    {
      openConnections := openConnections + 1;
    }

    method TrackConnectionClosed()
      modifies this
      ensures openConnections == old(openConnections) - 1
    {
      openConnections := openConnections - 1;
    }
  }

  datatype ConnectionState = ConnectionState(idleSince: int, idleEntry: Option<Element>)

  function Conns(idle: seq<Element>): seq<Conn> {
    if idle == [] then [] else [idle[0].conn] + Conns(idle[1..])
  }

  function Known(connections: map<Conn, ConnectionState>): map<Conn, Option<int>> {
    map c | c in connections :: if connections[c].idleEntry.Some? then Some(connections[c].idleSince) else None
  }

  /** Each element of the list belongs to the entry that points at it, and each pointer leads into the list. */
  ghost predicate Linked(connections: map<Conn, ConnectionState>, idle: seq<Element>) {
    && (forall e <- idle :: e.conn in connections && connections[e.conn].idleEntry == Some(e))
    && (forall c <- connections :: connections[c].idleEntry.Some? ==>
          connections[c].idleEntry.value in idle && connections[c].idleEntry.value.conn == c)
    && (forall i, j :: 0 <= i < j < |idle| ==> idle[i] != idle[j])
  }

  lemma {:induction false} ConnsWithout(idle: seq<Element>, e: Element)
    requires forall x <- idle :: x.conn == e.conn ==> x == e
    ensures Conns(Without(idle, e)) == Without(Conns(idle), e.conn)
  {
    if idle != [] {
      assert forall x <- idle[1..] :: x in idle;
      assert idle[0] in idle;
      ConnsWithout(idle[1..], e);
      assert Conns(idle)[1..] == Conns(idle[1..]);
      if idle[0] != e {
        assert Without(idle, e)[1..] == Without(idle[1..], e);
      }
    }
  }

  lemma {:induction false} WithoutAbsent(conns: seq<Conn>, c: Conn)
    requires c !in conns
    ensures Without(conns, c) == conns
  {
    if conns != [] {
      assert conns[0] in conns;
      assert forall d <- conns[1..] :: d in conns;
      WithoutAbsent(conns[1..], c);
    }
  }

  lemma {:induction false} ConnsMembers(idle: seq<Element>, c: Conn)
    ensures c in Conns(idle) <==> exists e <- idle :: e.conn == c
  {
    if idle != [] {
      ConnsMembers(idle[1..], c);
      assert idle == [idle[0]] + idle[1..];
      if e :| e in idle && e.conn == c && e != idle[0] {
        assert e in idle[1..];
      }
    }
  }

  lemma {:induction false} ConnsAppend(idle: seq<Element>, e: Element)
    ensures Conns(idle + [e]) == Conns(idle) + [e.conn]
  {
    if idle == [] {
      assert [e][1..] == [] && [] + [e] == [e];
    } else {
      ConnsAppend(idle[1..], e);
      assert (idle + [e])[1..] == idle[1..] + [e];
    }
  }

  lemma {:induction false} ElementsWithout(idle: seq<Element>, e: Element)
    requires forall i, j :: 0 <= i < j < |idle| ==> idle[i] != idle[j]
    ensures forall x :: x in Without(idle, e) <==> x in idle && x != e
    ensures var w := Without(idle, e); forall i, j :: 0 <= i < j < |w| ==> w[i] != w[j]
  {
    if idle != [] {
      var w := Without(idle, e);
      assert idle == [idle[0]] + idle[1..];
      if idle[0] == e {
        assert forall x <- idle[1..] :: x != e;
      } else {
        ElementsWithout(idle[1..], e);
        assert w == [idle[0]] + Without(idle[1..], e);
        forall i, j | 0 <= i < j < |w| ensures w[i] != w[j] {
          if i == 0 {
            assert w[j] in Without(idle[1..], e);
          }
        }
      }
    }
  }

  /** Only what is known about one connection changes. */
  lemma {:induction false} KnownUpdated(a: map<Conn, ConnectionState>, b: map<Conn, ConnectionState>, conn: Conn,
          state: ConnectionState)
    requires a.Keys == b.Keys && forall c <- a | c != conn :: b[c] == a[c]
    ensures Known(b[conn := state]) == Known(a)[conn := if state.idleEntry.Some? then Some(state.idleSince) else None]
    ensures Known(b - {conn}) == Known(a) - {conn}
    ensures conn in Known(a) <==> conn in b
  {}

  class Manager {
    const metricsRecorder: MetricRecorder
    var connections: map<Conn, ConnectionState>
    var idle: seq<Element>

    ghost function View(): State
      reads this, metricsRecorder
    {
      State(Known(connections), Conns(idle), metricsRecorder.openConnections)
    }

    ghost predicate Valid()
      reads this
    {
      Linked(connections, idle)
    }

    constructor (metricsRecorder: MetricRecorder)
      requires metricsRecorder.openConnections == 0
      ensures Valid() && View() == Start(0).s && this.metricsRecorder == metricsRecorder
    {
      this.metricsRecorder, connections, idle := metricsRecorder, map[], [];
    }

    /** The connection leaves the list; its entry stays, pointing nowhere. */
    method RemoveIdle(conn: Conn)
      requires Valid()
      modifies this
      ensures Valid() && Conns(idle) == Without(old(Conns(idle)), conn)
      ensures connections.Keys == old(connections.Keys)
      ensures forall c <- connections | c != conn :: connections[c] == old(connections)[c]
      ensures conn in connections ==> connections[conn].idleEntry == None
    {
      if conn !in connections || connections[conn].idleEntry == None {
        ConnsMembers(idle, conn);
        WithoutAbsent(Conns(idle), conn);
        return;
      }
      var state := connections[conn];
      var entry := state.idleEntry.value;
      ConnsWithout(idle, entry);
      ElementsWithout(idle, entry);
      idle := Without(idle, entry);
      connections := connections[conn := state.(idleEntry := None)];
    }

    method MarkActive(conn: Conn)
      requires Valid()
      modifies this, metricsRecorder
      ensures Valid() && View() == ConnectionPressure.MarkActive(old(View()), conn)
    {
      hide Conns, Without, Known;
      ghost var was := connections;
      RemoveIdle(conn);
      if conn !in connections {
        metricsRecorder.TrackConnectionOpened();
      }
      KnownUpdated(was, connections, conn, ConnectionState(0, None));
      connections := connections[conn := ConnectionState(0, None)];
    }

    /** A connection that is not in the map yet is put there without being counted. */
    method MarkIdle(conn: Conn, now: int)
      requires Valid()
      modifies this
      ensures Valid() && View() == ConnectionPressure.MarkIdle(old(View()), conn, now)
    {
      hide Conns, Without, Known;
      ghost var was := connections;
      RemoveIdle(conn);
      var entry := new Element(conn);
      ConnsAppend(idle, entry);
      idle := idle + [entry];
      KnownUpdated(was, connections, conn, ConnectionState(now, Some(entry)));
      connections := connections[conn := ConnectionState(now, Some(entry))];
    }

    method Remove(conn: Conn)
      requires Valid()
      modifies this, metricsRecorder
      ensures Valid() && View() == ConnectionPressure.Remove(old(View()), conn)
    {
      hide Conns, Without, Known;
      ghost var was := connections;
      RemoveIdle(conn);
      KnownUpdated(was, connections, conn, ConnectionState(0, None));
      if conn in connections {
        connections := connections - {conn};
        metricsRecorder.TrackConnectionClosed();
      } else {
        assert connections - {conn} == connections;
      }
    }

    method PopOldestIdleConnection() returns (conn: Option<Conn>)
      requires Valid()
      modifies this, metricsRecorder
      ensures Valid() && View() == PopOldest(old(View()))
      ensures conn == if old(View()).idle == [] then None else Some(old(View()).idle[0])
    {
      if idle == [] {
        return None;
      }
      var element := idle[0];
      assert element in idle;
      idle := idle[1..];
      connections := connections - {element.conn};
      metricsRecorder.TrackConnectionClosed();
      return Some(element.conn);
    }

    method ConnState(conn: Conn, state: HttpState, now: int)
      requires Valid()
      modifies this, metricsRecorder
      ensures Valid() && View() == Next(History(old(View()), map[], now, 0), Event.ConnState(conn, state, now)).s
    {
      match state {
        case New => MarkActive(conn);
        case Active => MarkActive(conn);
        case Idle => MarkIdle(conn, now);
        case Hijacked => Remove(conn);
        case Closed => Remove(conn);
        case Unborn =>
      }
    }
  }
}

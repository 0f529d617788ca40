/** pkg/grpcserver/health.go as the object it is. */
module HealthServer {
  // The maps and the one-slot channels change in place, while watchers may receive from their channels at any
  // moment.

  import opened Bytes
  import HealthWatch

  type Status = HealthWatch.Status
  type Service = string
  type Stream = nat

  /** A channel with one slot, and the last status a watcher has taken from it. */
  class Channel {
    var slot: Option<Status>
    ghost var received: Option<Status>

    constructor ()
      ensures slot == None && received == None
    {
      slot, received := None, None;
    }

    /** The send would block while the slot is taken. */
    method Send(status: Status)
      requires slot == None
      modifies this
      ensures slot == Some(status) && received == old(received)
    {
      slot := Some(status);
    }

    /** "select { case <-update: default: }" */
    method Clear()
      modifies this
      ensures slot == None && received == old(received)
    {
      slot := None;
    }

    ghost predicate UpToDate(status: Status)
      reads this
    {
      slot == Some(status) || (slot == None && received == Some(status))
    }
  }

  /** Some of the watchers take what is in their channels. A watcher that was up to date still is. */
  method WatchersReceive(channels: set<Channel>)
    modifies channels
    ensures forall c <- channels, status | old(c.UpToDate(status)) :: c.UpToDate(status)
    ensures forall c <- channels | old(c.slot) == None :: c.slot == None
  {
    var todo := channels;
    while todo != {}
      invariant forall c <- channels, status | old(c.UpToDate(status)) :: c.UpToDate(status)
      invariant forall c <- channels | old(c.slot) == None :: c.slot == None
      invariant todo <= channels
    {
      var c :| c in todo;
      var takes: bool := *;
      if takes && c.slot != None {
        c.received := c.slot;
        c.slot := None;
      }
      todo := todo - {c};
    }
  }

  class Server {
    var shutdown: bool
    var statusMap: map<Service, Status>
    var updates: map<Service, map<Stream, Channel>>
    var channels: set<Channel>   // all channels ever registered: what the watchers may receive from
    ghost var place: map<Channel, (Service, Stream)>

    function Current(service: Service): Status
      reads this
    {
      if service in statusMap then statusMap[service] else HealthWatch.SERVICE_UNKNOWN
    }

    ghost predicate Registered(c: Channel)
      reads this
    {
      c in place && place[c].0 in updates && place[c].1 in updates[place[c].0] && updates[place[c].0][place[c].1] == c
    }

    /** Every registered stream has a channel of its own. */
    ghost predicate Separate()
      reads this
    {
      Apart(updates, channels, place)
    }

    ghost predicate WatchersUpToDate()
      reads this, channels
    {
      forall c <- channels :: Registered(c) ==> c.UpToDate(Current(place[c].0))
    }

    ghost predicate Valid()
      reads this, channels
    {
      && Separate() && WatchersUpToDate()
      && (shutdown ==> forall v <- statusMap :: statusMap[v] == HealthWatch.NOT_SERVING)
    }

    /** What a registered watcher has, or was told last: the status of its service, or that the service is unknown. */
    lemma {:induction false} WatchersKnow(c: Channel)
      requires Valid() && c in channels && Registered(c)
      ensures var service := place[c].0;
        if service in statusMap then c.UpToDate(statusMap[service]) else c.UpToDate(HealthWatch.SERVICE_UNKNOWN)
    {
      assert c.UpToDate(Current(place[c].0));
    }

    constructor ()
      ensures Valid() && fresh(channels)
      ensures !shutdown && statusMap == map["" := HealthWatch.SERVING] && updates == map[]
    {
      shutdown, statusMap, updates, channels := false, map["" := HealthWatch.SERVING], map[], {};
      place := map[];
    }

    /** The update channel of a new watcher starts with the current status. */
    method NewUpdate(service: Service) returns (update: Channel)
      ensures fresh(update) && update.slot == Some(Current(service)) && update.received == None
    {
      update := new Channel();
      if service in statusMap {
        update.Send(statusMap[service]);
      } else {
        update.Send(HealthWatch.SERVICE_UNKNOWN);
      }
    }

    static function StreamsOf(updates: map<Service, map<Stream, Channel>>, service: Service): map<Stream, Channel> {
      if service in updates then updates[service] else map[]
    }

    /** The part of Watch under the lock. */
    method Register(service: Service, stream: Stream) returns (update: Channel)
      requires Valid() && stream !in StreamsOf(updates, service)
      modifies this`updates, this`channels, this`place
      ensures Valid() && fresh(update) && channels == old(channels) + {update}
      ensures update.slot == Some(if service in statusMap then statusMap[service] else HealthWatch.SERVICE_UNKNOWN)
      ensures updates == old(updates)[service := StreamsOf(old(updates), service)[stream := update]]
    {
      update := NewUpdate(service);
      updates := updates[service := StreamsOf(updates, service)[stream := update]];
      channels := channels + {update};
      place := place[update := (service, stream)];
      StillSeparate(old(updates), old(channels), old(place), service, stream, update);
      forall c <- channels | Registered(c) ensures c.UpToDate(Current(place[c].0)) {
        if c != update {
          assert c in old(channels) && old(Registered(c));
        }
      }
    }

    static ghost predicate Apart(updates: map<Service, map<Stream, Channel>>, channels: set<Channel>,
            place: map<Channel, (Service, Stream)>)
    {
      forall v, s :: v in updates && s in updates[v] ==>
        updates[v][s] in channels && updates[v][s] in place && place[updates[v][s]] == (v, s)
    }

    static lemma {:induction false} StillSeparate(updates: map<Service, map<Stream, Channel>>,
            channels: set<Channel>, place: map<Channel, (Service, Stream)>,
                         service: Service, stream: Stream, update: Channel)
      requires Apart(updates, channels, place) && update !in channels
      ensures Apart(updates[service := StreamsOf(updates, service)[stream := update]],
                    channels + {update}, place[update := (service, stream)])
    {
      var after := updates[service := StreamsOf(updates, service)[stream := update]];
      forall v, s | v in after && s in after[v]
        ensures after[v][s] in channels + {update} && after[v][s] in place[update := (service, stream)]
        ensures place[update := (service, stream)][after[v][s]] == (v, s)
      {
        if v != service || s != stream {
          assert v in updates && s in updates[v] && after[v][s] == updates[v][s];
        }
      }
    }

    /** The deferred part of Watch. */
    method Unregister(service: Service, stream: Stream)
      requires Valid() && service in updates
      modifies this
      ensures Valid() && channels == old(channels) && shutdown == old(shutdown) && statusMap == old(statusMap)
      ensures updates == old(updates)[service := old(updates)[service] - {stream}]
    {
      updates := updates[service := updates[service] - {stream}];
    }

    /** Whatever the watchers do meanwhile, the send after the clearing finds its slot free. */
    method Replace(update: Channel, status: Status)
      requires update in channels
      modifies channels
      ensures update.UpToDate(status)
      ensures forall c <- channels, st | c != update && old(c.UpToDate(st)) :: c.UpToDate(st)
    {
      WatchersReceive(channels);
      update.Clear();
      WatchersReceive(channels);
      update.Send(status);
    }

    /** Every send finds its slot free, and afterwards all watchers are up to date again. */
    method SetServingStatusLocked(service: Service, status: Status)
      requires Separate() && WatchersUpToDate()
      modifies this`statusMap, channels
      ensures Separate() && WatchersUpToDate()
      ensures statusMap == old(statusMap)[service := status]
    {
      statusMap := statusMap[service := status];
      if service in updates {
        var todo := updates[service].Keys;
        while todo != {}
          invariant todo <= updates[service].Keys && statusMap == old(statusMap)[service := status]
          invariant forall c <- channels :: Registered(c) && !(place[c].0 == service && place[c].1 in todo) ==>
            c.UpToDate(Current(place[c].0))
        {
          var stream :| stream in todo;
          var update := updates[service][stream];
          Replace(update, status);
          todo := todo - {stream};
        }
      }
    }

    method SetServingStatus(service: Service, status: Status)
      requires Valid()
      modifies this`statusMap, channels
      ensures Valid()
      ensures statusMap == if shutdown then old(statusMap) else old(statusMap)[service := status]
    {
      if shutdown {
        return;
      }
      SetServingStatusLocked(service, status);
    }

    /** The loop of Shutdown and Resume. */
    method SetAll(status: Status)
      requires Separate() && WatchersUpToDate()
      modifies this`statusMap, channels
      ensures Separate() && WatchersUpToDate()
      ensures statusMap.Keys == old(statusMap.Keys) && forall v <- statusMap :: statusMap[v] == status
    {
      var todo := statusMap.Keys;
      while todo != {}
        invariant todo <= statusMap.Keys == old(statusMap.Keys)
        invariant Separate() && WatchersUpToDate()
        invariant forall v <- statusMap :: v in todo || statusMap[v] == status
      {
        var service :| service in todo;
        SetServingStatusLocked(service, status);
        todo := todo - {service};
      }
    }

    method Shutdown()
      requires Valid()
      modifies this`shutdown, this`statusMap, channels
      ensures Valid() && shutdown && statusMap.Keys == old(statusMap.Keys)
      ensures forall v <- statusMap :: statusMap[v] == HealthWatch.NOT_SERVING
    {
      shutdown := true;
      SetAll(HealthWatch.NOT_SERVING);
    }

    method Resume()
      requires Valid()
      modifies this`shutdown, this`statusMap, channels
      ensures Valid() && !shutdown && statusMap.Keys == old(statusMap.Keys)
      ensures forall v <- statusMap :: statusMap[v] == HealthWatch.SERVING
    {
      shutdown := false;
      SetAll(HealthWatch.SERVING);
    }
  }
}

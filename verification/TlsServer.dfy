/**
 * The server's tables of sockets, TLS connections and client records, and the sweep of `destroy`,
 * whose callbacks delete from the tables that are being gone through.
 */
module TlsServer {
  import opened Wrappers
  import opened Heartbeat

  /** `resolved` counts how often the record's destroyed promise has been resolved. */
  datatype Record = Record(closed: bool, timers: bool, resolved: nat)

  /** Everything the server holds under one key; `tls` tells whether its TLS connection is open. */
  datatype Slot = Slot(socket: bool, listening: bool, tls: Option<bool>, record: Option<Record>)

  predicate IsOpen(s: Slot) { s.tls.Some? && s.tls.value }
  predicate HasFailed(s: Slot) { s.tls.Some? && !s.tls.value }

  const EmptySlot := Slot(false, false, None, None)

  function Resolve(r: Record): Record { r.(resolved := r.resolved + 1) }

  /** The effect of the TLS library's close on the slot, re-entrant calls included. */
  function SlotTlsClose(s: Slot): Slot {
    if !IsOpen(s) || s.record.None? then s
    else
      var r := s.record.value.(timers := false);
      if r.closed then s.(tls := None, record := Some(Resolve(r)))
      else if s.listening then Slot(false, false, None, Some(Resolve(r.(closed := true))))
      else s.(tls := None, record := Some(r.(closed := true)))
  }

  /** The effect of a close event on the slot's socket. */
  function SlotSocketClose(s: Slot): Slot {
    if !s.listening then s
    else if s.record.None? then s.(socket := false, listening := false)
    else
      var r := s.record.value;
      if r.closed then s.(socket := false, listening := false, record := Some(Resolve(r)))
      else if IsOpen(s) then Slot(false, false, None, Some(Record(true, false, r.resolved + 1)))
      else s.(socket := false, listening := false, record := Some(r.(closed := true)))
  }

  function SlotDisconnect(s: Slot): Slot {
    if s.record.None? then s
    else SlotTlsClose(s.(record := Some(s.record.value.(timers := false)))).(record := None)
  }

  /** A TLS connection that the library gives up without the closed callback. */
  function SlotTlsFails(s: Slot): Slot {
    if s.tls.Some? then s.(tls := Some(false)) else s
  }

  /** The TLS handshake of an open connection completes, and its first timer is set. */
  function SlotTlsConnected(s: Slot): Slot {
    if !IsOpen(s) || s.record.None? then s else s.(record := Some(s.record.value.(timers := true)))
  }

  /** A connection under a key that no live socket has; it replaces whatever an earlier one left. */
  function SlotConnect(s: Slot): Slot {
    if s.socket then s else Slot(true, true, Some(true), Some(Record(false, false, 0)))
  }

  function SlotCleared(s: Slot): Slot {
    if s.record.None? then s else s.(record := Some(s.record.value.(timers := false)))
  }

  function SlotSweep(s: Slot): Slot {
    SlotSocketClose(SlotTlsClose(SlotCleared(s)))
  }

  function SlotIn(tcpMap: set<string>, listening: set<string>, tlsMap: map<string, bool>,
                  clientMap: map<string, Record>, key: string): Slot
  {
    Slot(key in tcpMap, key in listening,
         if key in tlsMap then Some(tlsMap[key]) else None,
         if key in clientMap then Some(clientMap[key]) else None)
  }

  /** Tables that agree away from one key hold the same slots elsewhere. */
  lemma OtherSlots(t: set<string>, l: set<string>, m: map<string, bool>, c: map<string, Record>,
                   t': set<string>, l': set<string>, m': map<string, bool>, c': map<string, Record>, key: string)
    requires t - {key} == t' - {key} && l - {key} == l' - {key} && m - {key} == m' - {key} && c - {key} == c' - {key}
    ensures forall other :: other != key ==> SlotIn(t, l, m, c, other) == SlotIn(t', l', m', c', other)
  {
    forall other | other != key
      ensures SlotIn(t, l, m, c, other) == SlotIn(t', l', m', c', other)
    {
      assert other in t <==> other in t - {key};
      assert other in t' <==> other in t' - {key};
      assert other in l <==> other in l - {key};
      assert other in l' <==> other in l' - {key};
      assert other in m <==> other in m - {key};
      assert other in m' <==> other in m' - {key};
      assert other in c <==> other in c - {key};
      assert other in c' <==> other in c' - {key};
      assert other in m ==> m[other] == (m - {key})[other];
      assert other in m' ==> m'[other] == (m' - {key})[other];
      assert other in c ==> c[other] == (c - {key})[other];
      assert other in c' ==> c'[other] == (c' - {key})[other];
    }
  }

  ghost predicate AllGood(t: set<string>, l: set<string>, m: map<string, bool>, c: map<string, Record>) {
    forall key :: SlotInv(SlotIn(t, l, m, c, key))
  }

  lemma StillGood(t: set<string>, l: set<string>, m: map<string, bool>, c: map<string, Record>,
                  t': set<string>, l': set<string>, m': map<string, bool>, c': map<string, Record>, key: string)
    requires AllGood(t, l, m, c)
    requires t - {key} == t' - {key} && l - {key} == l' - {key} && m - {key} == m' - {key} && c - {key} == c' - {key}
    requires SlotInv(SlotIn(t', l', m', c', key))
    ensures AllGood(t', l', m', c')
  {
    OtherSlots(t, l, m, c, t', l', m', c', key);
    forall other
      ensures SlotInv(SlotIn(t', l', m', c', other))
    {
      if other != key {
        assert SlotInv(SlotIn(t, l, m, c, other));
      }
    }
  }

  class TLSServer {
    var tcpMap: set<string>
    var listening: set<string>
    var tlsMap: map<string, bool>
    var clientMap: map<string, Record>

    function SlotOf(key: string): Slot
      reads this
    {
      SlotIn(tcpMap, listening, tlsMap, clientMap, key)
    }

    ghost predicate Valid()
      reads this
    {
      AllGood(tcpMap, listening, tlsMap, clientMap)
    }

    constructor ()
      ensures Valid() && forall key :: SlotOf(key) == EmptySlot
    {
      tcpMap, listening, tlsMap, clientMap := {}, {}, map[], map[];
    }

    method OnConnection(key: string)
      requires Valid() && key !in tcpMap
      modifies this
      ensures Valid() && SlotOf(key) == SlotConnect(old(SlotOf(key)))
      ensures SameElsewhere(key, old(tcpMap), old(listening), old(tlsMap), old(clientMap))
    {
      clientMap := clientMap[key := Record(false, false, 0)];
      tcpMap := tcpMap + {key};
      listening := listening + {key};
      tlsMap := tlsMap[key := true];
      StillGood(old(tcpMap), old(listening), old(tlsMap), old(clientMap), tcpMap, listening, tlsMap, clientMap, key);
    }

    method OnTlsConnected(key: string)
      requires Valid()
      modifies this
      ensures Valid() && SlotOf(key) == SlotTlsConnected(old(SlotOf(key)))
      ensures SameElsewhere(key, old(tcpMap), old(listening), old(tlsMap), old(clientMap))
    {
      if key in tlsMap && tlsMap[key] && key in clientMap {
        assert SlotInv(SlotOf(key));
        clientMap := clientMap[key := clientMap[key].(timers := true)];
        StillGood(old(tcpMap), old(listening), old(tlsMap), old(clientMap), tcpMap, listening, tlsMap, clientMap, key);
      }
    }

    /** A close event from outside: the peer or an error closes the socket. */
    method OnSocketClose(key: string)
      requires Valid()
      modifies this
      ensures Valid() && SlotOf(key) == SlotSocketClose(old(SlotOf(key)))
      ensures SameElsewhere(key, old(tcpMap), old(listening), old(tlsMap), old(clientMap))
    {
      EmitClose(key);
      StillGood(old(tcpMap), old(listening), old(tlsMap), old(clientMap), tcpMap, listening, tlsMap, clientMap, key);
    }

    /** The peer closes the TLS connection. */
    method OnTlsClose(key: string)
      requires Valid()
      modifies this
      ensures Valid() && SlotOf(key) == SlotTlsClose(old(SlotOf(key)))
      ensures SameElsewhere(key, old(tcpMap), old(listening), old(tlsMap), old(clientMap))
    {
      TlsClose(key);
      StillGood(old(tcpMap), old(listening), old(tlsMap), old(clientMap), tcpMap, listening, tlsMap, clientMap, key);
    }

    /** Only the slot of `key` differs from the given tables. */
    ghost predicate SameElsewhere(key: string, t: set<string>, l: set<string>, m: map<string, bool>,
                                  c: map<string, Record>)
      reads this
    {
      && tcpMap - {key} == t - {key} && listening - {key} == l - {key}
      && tlsMap - {key} == m - {key} && clientMap - {key} == c - {key}
    }

    /** `socket.emit('close')`. */
    method EmitClose(key: string)
      modifies this
      ensures SlotOf(key) == SlotSocketClose(old(SlotOf(key)))
      ensures SameElsewhere(key, old(tcpMap), old(listening), old(tlsMap), old(clientMap))
      decreases if key in clientMap && !clientMap[key].closed then 1 else 0,
                if key in tlsMap && tlsMap[key] then 1 else 0, 1
    {
      if key in listening {
        tcpMap := tcpMap - {key};
        if key in clientMap {
          if !clientMap[key].closed {
            clientMap := clientMap[key := clientMap[key].(closed := true)];
            TlsClose(key);
          } else {
            clientMap := clientMap[key := Resolve(clientMap[key])];
          }
        }
        listening := listening - {key};
      }
    }

    /** The library's close of the connection under a key, with the closed callback. */
    method TlsClose(key: string)
      modifies this
      ensures SlotOf(key) == SlotTlsClose(old(SlotOf(key)))
      ensures SameElsewhere(key, old(tcpMap), old(listening), old(tlsMap), old(clientMap))
      decreases if key in clientMap && !clientMap[key].closed then 1 else 0,
                if key in tlsMap && tlsMap[key] then 1 else 0, 0
    {
      if key in tlsMap && tlsMap[key] && key in clientMap {
        tlsMap := tlsMap[key := false];
        clientMap := clientMap[key := clientMap[key].(timers := false)];
        if !clientMap[key].closed {
          clientMap := clientMap[key := clientMap[key].(closed := true)];
          EmitClose(key);
        } else {
          clientMap := clientMap[key := Resolve(clientMap[key])];
        }
        tlsMap := tlsMap - {key};
      }
    }

    method DisconnectClient(key: string)
      requires Valid()
      modifies this
      ensures Valid() && SlotOf(key) == SlotDisconnect(old(SlotOf(key)))
      ensures SameElsewhere(key, old(tcpMap), old(listening), old(tlsMap), old(clientMap))
    {
      assert SlotInv(SlotOf(key));
      SlotStepKeepsInv(SlotOf(key), Disconnects);
      if key in clientMap {
        clientMap := clientMap[key := clientMap[key].(timers := false)];
        TlsClose(key);
        clientMap := clientMap - {key};
        assert SlotOf(key) == SlotDisconnect(old(SlotOf(key)));
        StillGood(old(tcpMap), old(listening), old(tlsMap), old(clientMap), tcpMap, listening, tlsMap, clientMap, key);
      }
    }

    method ClearTimers()
      modifies this`clientMap
      ensures forall key :: SlotOf(key) == SlotCleared(old(SlotOf(key)))
    {
      var rest := clientMap.Keys;
      while rest != {}
        invariant rest <= clientMap.Keys == old(clientMap).Keys
        invariant forall key :: key in clientMap ==>
                    clientMap[key] == if key in rest then old(clientMap)[key] else old(clientMap)[key].(timers := false)
        decreases |rest|
      {
        var key :| key in rest;
        clientMap := clientMap[key := clientMap[key].(timers := false)];
        rest := rest - {key};
      }
    }

    /** The first loop of the sweep; an entry that a callback has deleted is no longer visited. */
    method CloseAllTls()
      modifies this
      ensures forall key :: SlotOf(key) == SlotTlsClose(old(SlotOf(key)))
    {
      var rest := tlsMap.Keys;
      while rest != {}
        invariant forall key :: SlotOf(key) == if key in rest || key !in old(tlsMap)
                                               then old(SlotOf(key)) else SlotTlsClose(old(SlotOf(key)))
        decreases |rest|
      {
        var key :| key in rest;
        if key in tlsMap {
          ghost var t, l, m, c := tcpMap, listening, tlsMap, clientMap;
          TlsClose(key);
          OtherSlots(t, l, m, c, tcpMap, listening, tlsMap, clientMap, key);
        }
        rest := rest - {key};
      }
    }

    /** The second loop of the sweep, with the close events that it causes. */
    method CloseAllSockets()
      modifies this
      requires tcpMap == listening
      ensures forall key :: SlotOf(key) == SlotSocketClose(old(SlotOf(key)))
    {
      var rest := tcpMap;
      while rest != {}
        invariant rest <= old(tcpMap)
        invariant forall key :: SlotOf(key) == if key in rest || key !in old(tcpMap)
                                               then old(SlotOf(key)) else SlotSocketClose(old(SlotOf(key)))
        decreases |rest|
      {
        var key :| key in rest;
        if key in tcpMap {
          ghost var t, l, m, c := tcpMap, listening, tlsMap, clientMap;
          EmitClose(key);
          OtherSlots(t, l, m, c, tcpMap, listening, tlsMap, clientMap, key);
        }
        rest := rest - {key};
      }
    }

    /**
     * The sweep: all TLS connections are closed, then all sockets that are left. When every listed
     * TLS connection is open, nothing is left and every destroyed promise is resolved exactly once.
     */
    method Destroy()
      requires Valid()
      modifies this
      ensures forall key :: SlotOf(key) == SlotSweep(old(SlotOf(key)))
      ensures tcpMap == {} && forall key :: key in clientMap ==> !clientMap[key].timers
      ensures (forall key :: key in old(tlsMap) ==> old(tlsMap)[key]) ==>
                tlsMap == map[] && forall key :: key in clientMap ==> clientMap[key] == Record(true, false, 1)
    {
      forall key
        ensures SlotInv(old(SlotOf(key)))
      {
        assert SlotInv(SlotIn(tcpMap, listening, tlsMap, clientMap, key));
      }
      ClearTimers();
      CloseAllTls();
      forall key
        ensures key in tcpMap <==> key in listening
      {
        assert SlotOf(key) == SlotTlsClose(SlotCleared(old(SlotOf(key))));
      }
      CloseAllSockets();
      forall key
        ensures SlotOf(key) == SlotSweep(old(SlotOf(key))) && key !in tcpMap
        ensures key in clientMap ==> !clientMap[key].timers
        ensures (key in old(tlsMap) ==> old(tlsMap)[key]) ==>
                  key !in tlsMap && (key in clientMap ==> clientMap[key] == Record(true, false, 1))
      {
        SweptSlot(old(SlotOf(key)));
        assert SlotOf(key) == SlotSweep(old(SlotOf(key)));
      }
    }
  }

  // ---- the life of a slot ----

  datatype SlotEvent = Connects | TlsConnects | SocketCloses | TlsCloses | TlsFails | Disconnects

  function SlotStep(s: Slot, e: SlotEvent): Slot {
    match e
    case Connects => SlotConnect(s)
    case TlsConnects => SlotTlsConnected(s)
    case SocketCloses => SlotSocketClose(s)
    case TlsCloses => SlotTlsClose(s)
    case TlsFails => SlotTlsFails(s)
    case Disconnects => SlotDisconnect(s)
  }

  function SlotRun(events: seq<SlotEvent>): Slot {
    if events == [] then EmptySlot else SlotStep(SlotRun(events[..|events| - 1]), events[|events| - 1])
  }

  /**
   * A record's promise is resolved exactly when its TLS connection has left the table, and then once;
   * while the connection is open nothing has been closed.
   */
  predicate SlotInv(s: Slot) {
    && s.socket == s.listening
    && (s.listening ==> s.tls.Some?)
    && (IsOpen(s) ==> s.listening && s.record.Some?)
    && (s.record.Some? ==>
          && s.record.value.resolved == (if s.tls.Some? then 0 else 1)
          && s.record.value.closed == !s.listening
          && (s.tls.None? ==> !s.record.value.timers))
  }

  /** A new connection, under a key that no live socket has, has everything and has nothing closed. */
  lemma ConnectLaw(s: Slot)
    ensures SlotStep(s, Connects) == if s.socket then s else Slot(true, true, Some(true), Some(Record(false, false, 0)))
  {
  }

  /**
   * An open connection: whichever side closes first takes socket, listeners and TLS entry away, stops the
   * timers and resolves the promise once; disconnecting takes the record away too.
   */
  lemma OpenSlotLaw(s: Slot)
    requires SlotInv(s) && s.tls == Some(true)
    ensures s.socket && s.listening && s.record.Some? && !s.record.value.closed && s.record.value.resolved == 0
    ensures SlotStep(s, SocketCloses) == Slot(false, false, None, Some(Record(true, false, 1)))
    ensures SlotStep(s, TlsCloses) == Slot(false, false, None, Some(Record(true, false, 1)))
    ensures SlotStep(s, Disconnects) == Slot(false, false, None, None)
    ensures SlotStep(s, TlsConnects) == Slot(true, true, Some(true), Some(Record(false, true, 0)))
    ensures SlotStep(s, TlsFails) == Slot(true, true, Some(false), s.record)
  {
  }

  /** After the TLS side has given up, a closing socket only marks the record, whose promise stays open. */
  lemma FailedSlotLaw(s: Slot)
    requires SlotInv(s) && s.tls == Some(false)
    ensures SlotStep(s, TlsCloses) == SlotStep(s, TlsConnects) == SlotStep(s, TlsFails) == s
    ensures SlotStep(s, Disconnects) == Slot(s.socket, s.listening, Some(false), None)
    ensures SlotStep(s, SocketCloses) ==
            if !s.listening then s
            else Slot(false, false, Some(false),
                      if s.record.None? then None else Some(Record(true, s.record.value.timers, 0)))
  {
  }

  /** Once the TLS entry is gone nothing but a disconnect or a new connection changes anything. */
  lemma GoneSlotLaw(s: Slot)
    requires SlotInv(s) && s.tls == None
    ensures !s.socket && !s.listening
    ensures SlotStep(s, SocketCloses) == SlotStep(s, TlsCloses) == s
    ensures SlotStep(s, TlsConnects) == SlotStep(s, TlsFails) == s
    ensures SlotStep(s, Disconnects) == Slot(false, false, None, None)
  {
  }

  lemma SlotStepKeepsInv(s: Slot, e: SlotEvent)
    requires SlotInv(s)
    ensures SlotInv(SlotStep(s, e))
  {
  }

  lemma {:induction false} SlotRunKeepsInv(events: seq<SlotEvent>)
    ensures SlotInv(SlotRun(events))
  {
    if events != [] {
      SlotRunKeepsInv(events[..|events| - 1]);
      SlotStepKeepsInv(SlotRun(events[..|events| - 1]), events[|events| - 1]);
    }
  }

  /** `destroy` waits for every record that is still in the table. */
  predicate Completes(s: Slot) {
    s.record.Some? ==> s.record.value.resolved > 0
  }

  /** What the sweep leaves of a slot. */
  lemma SweptSlot(s: Slot)
    requires SlotInv(s)
    ensures var swept := SlotSweep(s);
            && SlotInv(swept) && !swept.socket && !swept.listening
            && (Completes(swept) <==> s.record.None? || !HasFailed(s))
            && (!HasFailed(s) ==> swept.tls.None?)
            && (swept.record.Some? ==> !swept.record.value.timers)
            && (s.record.Some? && !HasFailed(s) ==>
                  swept.record == Some(Record(true, false, 1)))
  {
  }

  /**
   * After the sweep of any reachable table no socket is left, and the wait for the destroyed promise
   * completes exactly when the TLS connection, if one is listed for the record, was open; the promise
   * is then resolved exactly once, with its timers cleared and its TLS entry deleted.
   */
  lemma SweepCompletesIff(events: seq<SlotEvent>)
    ensures var s := SlotRun(events);
            var swept := SlotSweep(s);
            && !swept.socket && !swept.listening
            && (Completes(swept) <==> s.record.None? || !HasFailed(s))
            && (!HasFailed(s) ==> swept.tls.None?)
            && (swept.record.Some? ==> !swept.record.value.timers)
            && (s.record.Some? && !HasFailed(s) ==>
                  swept.record == Some(Record(true, false, 1)))
  {
    SlotRunKeepsInv(events);
    SweptSlot(SlotRun(events));
  }

  /** A connection whose TLS side gave up without the closed callback keeps `destroy` waiting. */
  lemma FailedTlsBlocksDestroy()
    ensures !Completes(SlotSweep(SlotRun([Connects, TlsFails])))
  {
    assert [Connects, TlsFails][..1] == [Connects];
    assert [Connects][..0] == [];
    assert SlotRun([Connects]) == SlotConnect(EmptySlot);
  }

  // ---- one watchdog per client ----

  /** The client records, each with the heartbeat fields of its own connection. */
  class ClientRecords {
    var records: map<string, HeartbeatMonitor>

    /** No two keys share a record. */
    ghost predicate Valid()
      reads this, records.Values
    {
      && (forall key :: key in records ==> records[key].Valid())
      && (forall key, other :: key in records && other in records && records[key] == records[other] ==> key == other)
    }

    ghost function Abstract(): map<string, Watchdog>
      reads this, records.Values
    {
      map key | key in records :: records[key].Abstract()
    }

    constructor ()
      ensures Valid() && Abstract() == map[]
    {
      records := map[];
    }

    /** A connection opens with a record of its own, whatever an earlier one of its key has left. */
    method OnConnected(key: string, now: nat, payload: nat)
      requires Valid()
      modifies this
      ensures Valid() && Abstract() == old(Abstract())[key := Connect(New, now, payload)]
    {
      hide Connect;
      var record := new HeartbeatMonitor();
      record.OnConnected(now, payload);
      records := records[key := record];
    }

    method OnHeartbeat(key: string, now: nat, payload: nat)
      requires Valid() && key in records
      modifies records[key]
      ensures Valid() && Abstract() == old(Abstract())[key := Receive(old(Abstract())[key], now, payload)]
    {
      records[key].OnHeartbeat(now, payload);
    }

    method OnTimer(key: string, now: nat, id: nat, drawn: nat)
      requires Valid() && key in records && id in records[key].timers
      modifies records[key]
      ensures Valid() && Abstract() == old(Abstract())[key := Fire(old(Abstract())[key], now, id, drawn)]
    {
      records[key].OnTimer(now, id, drawn);
    }

    method OnClosed(key: string)
      requires Valid() && key in records
      modifies this, records[key]
      ensures Valid() && Abstract() == old(Abstract()) - {key}
    {
      records[key].ClearAll();
      records := records - {key};
    }
  }

  datatype Watched = Watched(now: nat, watchdogs: map<string, Watchdog>)

  datatype ServerAction =
    | Passes(to: nat)
    | Opens(key: string, payload: nat)
    | Closes(key: string)
    | At(key: string, action: Action)

  /** Time passes for all clients together; everything else concerns one client's record. */
  ghost function ServerStep(s: Watched, a: ServerAction): Watched {
    match a
    case Passes(to) =>
      if s.now < to && forall key :: key in s.watchdogs ==> Step(Config(s.now, s.watchdogs[key]), Tick(to)).now == to
      then s.(now := to) else s
    case Opens(key, payload) =>
      if key in s.watchdogs then s else s.(watchdogs := s.watchdogs[key := Connect(New, s.now, payload)])
    case Closes(key) => s.(watchdogs := s.watchdogs - {key})
    case At(key, action) =>
      if key in s.watchdogs && !action.Tick?
      then s.(watchdogs := s.watchdogs[key := Step(Config(s.now, s.watchdogs[key]), action).w]) else s
  }

  /** A run of a server that starts without clients. */
  ghost function ServerExec(start: nat, actions: seq<ServerAction>): Watched {
    if actions == [] then Watched(start, map[])
    else ServerStep(ServerExec(start, actions[..|actions| - 1]), actions[|actions| - 1])
  }

  /** A connection that is open: when and with which request it opened, and what has happened on it since. */
  datatype Life = Life(start: nat, payload: nat, seen: seq<Action>)

  /** The part of a server run that the connection now open under a key has seen, if there is one. */
  ghost function LifeOf(start: nat, actions: seq<ServerAction>, key: string): Option<Life> {
    if actions == [] then None
    else
      var init, last := actions[..|actions| - 1], actions[|actions| - 1];
      NextLife(ServerExec(start, init), last, key, LifeOf(start, init, key))
  }

  ghost function NextLife(s: Watched, a: ServerAction, key: string, life: Option<Life>): Option<Life> {
    match a
    case Passes(to) => if ServerStep(s, a).now != s.now then See(life, Tick(to)) else life
    case Opens(at, payload) => if at == key && life.None? then Some(Life(s.now, payload, [])) else life
    case Closes(at) => if at == key then None else life
    case At(at, action) => if at == key && !action.Tick? then See(life, action) else life
  }

  function See(life: Option<Life>, action: Action): Option<Life> {
    if life.None? then None else Some(life.value.(seen := life.value.seen + [action]))
  }

  /** A life tells the state of the key's record: it is a run of one watchdog. */
  ghost predicate Lives(s: Watched, key: string, life: Option<Life>) {
    && (key in s.watchdogs <==> life.Some?)
    && (life.Some? ==>
          Exec(New, life.value.start, life.value.payload, life.value.seen) == Config(s.now, s.watchdogs[key]))
  }

  lemma SeeStep(s: Watched, s': Watched, key: string, life: Option<Life>, action: Action)
    requires Lives(s, key, life) && (key in s'.watchdogs <==> key in s.watchdogs)
    requires key in s.watchdogs ==> Config(s'.now, s'.watchdogs[key]) == Step(Config(s.now, s.watchdogs[key]), action)
    ensures Lives(s', key, See(life, action))
  {
    if life.Some? {
      var begin := Config(life.value.start, Connect(New, life.value.start, life.value.payload));
      ExecSnoc(begin, life.value.seen, action);
    }
  }

  lemma NextLives(s: Watched, a: ServerAction, key: string, life: Option<Life>)
    requires Lives(s, key, life)
    ensures Lives(ServerStep(s, a), key, NextLife(s, a, key, life))
  {
    var s' := ServerStep(s, a);
    match a {
      case Passes(to) =>
        if s'.now != s.now {
          assert key in s.watchdogs ==>
            Config(s'.now, s'.watchdogs[key]) == Step(Config(s.now, s.watchdogs[key]), Tick(to));
          hide Step, Lives;
          SeeStep(s, s', key, life, Tick(to));
        }
      case Opens(at, payload) =>
      case Closes(at) =>
      case At(at, action) =>
        if at == key && !action.Tick? {
          assert key in s.watchdogs ==>
            Config(s'.now, s'.watchdogs[key]) == Step(Config(s.now, s.watchdogs[key]), action);
          hide Step, Lives;
          SeeStep(s, s', key, life, action);
        }
    }
  }

  /**
   * In every run, with connections opening and closing at any time: the record of every open connection
   * is in the state that the watchdog of that connection alone reaches, on what it has seen since it
   * opened. So all that is proved of one watchdog holds of each.
   */
  lemma {:induction false} EachClientIsAWatchdog(start: nat, actions: seq<ServerAction>, key: string)
    ensures Lives(ServerExec(start, actions), key, LifeOf(start, actions, key))
  {
    if actions != [] {
      var init, last := actions[..|actions| - 1], actions[|actions| - 1];
      EachClientIsAWatchdog(start, init, key);
      NextLives(ServerExec(start, init), last, key, LifeOf(start, init, key));
      hide Lives, ServerStep, NextLife;
    }
  }
}

/**
 * The connection status of a node's neighbours and its reconnect passes. TLS client events, TLS
 * server events and the steps of a pass interleave freely between the points where a pass waits.
 */
module NodeStatus {
  import opened Wrappers
  import opened Neighbors
  import Heartbeat

  datatype NodeEvent = Connected(username: string) | Disconnected(username: string) | Reconnected(username: string)

  /** Where a reconnect pass waits: for the server to close, for its clients, for the new server, for the neighbours. */
  datatype Phase = Closing | Draining | Listening | Rejoining

  /**
   * `order` is the insertion order of the table. `handlers` counts the sets of reconnect handlers on
   * the server's current event emitter: a server event runs each of them.
   */
  datatype State = State(identifier: string, port: int, table: Table, order: seq<string>, reconnecting: bool,
                         passes: map<nat, Phase>, nextPass: nat, handlers: nat, emitted: seq<NodeEvent>)

  /** `Learns` is an entry of a hello that a client goes through. */
  datatype Input =
    | TlsConnected(username: string)
    | SocketClosed(username: string)
    | PeerLost(username: string)
    | PeerBack(username: string)
    | ServerConnection(ip: string)
    | ServerLost(ip: string)
    | ServerBack(ip: string)
    | RejoinSettles(username: string)
    | PassStep(id: nat)
    | Learns(info: NodeInfo)

  predicate IsDisconnected(n: Neighbor) { n.disconnected || n.softDisconnected }

  predicate IsHealthy(n: Neighbor) { !n.disconnected && !n.softDisconnected && !n.serverSoftDisconnected }

  predicate AllHealthy(table: Table) { forall name :: name in table ==> IsHealthy(table[name]) }

  /** The first neighbour at an address. An empty name is falsy, so it counts as nobody's. */
  function FindByAddress(table: Table, order: seq<string>, ip: string): Option<string> {
    if order == [] then None
    else if order[0] in table && table[order[0]].ip == ip then if order[0] == "" then None else Some(order[0])
    else FindByAddress(table, order[1..], ip)
  }

  function Update(s: State, name: string, n: Neighbor): State {
    s.(table := s.table[name := n])
  }

  function Emit(s: State, event: NodeEvent): State {
    s.(emitted := s.emitted + [event])
  }

  /** The part of `reconnect_user` that runs before its first wait. */
  function ReconnectUser(s: State, name: string): State {
    if name in s.table && !s.table[name].rebuildingSocket && s.table[name].disconnected
    then Update(s, name, s.table[name].(rebuildingSocket := true))
    else if name in s.table then Update(s, name, s.table[name].(rebuildingSocket := false))
    else s
  }

  function RejoinAll(s: State, names: seq<string>): State {
    if names == [] then s else ReconnectUser(RejoinAll(s, names[..|names| - 1]), names[|names| - 1])
  }

  /** The part of `reconnect` that runs before its first wait; with all healthy it skips the rebuild. */
  function Reconnect(s: State): State {
    if s.reconnecting then s
    else
      var started := s.(reconnecting := true, nextPass := s.nextPass + 1);
      if AllHealthy(s.table) then RejoinAll(started.(passes := s.passes[s.nextPass := Rejoining]), s.order)
      else started.(passes := s.passes[s.nextPass := Closing])
  }

  function ReconnectIf(s: State, condition: bool): State {
    if condition then Reconnect(s) else s
  }

  function ReportUnless(s: State, already: bool, name: string): State {
    if already then s else Emit(s, Disconnected(name))
  }

  /** One run of a server-side handler. */
  function ServerHandler(s: State, input: Input): State {
    var name := if input.ServerConnection? || input.ServerLost? || input.ServerBack?
                then FindByAddress(s.table, s.order, input.ip) else None;
    if name.None? || name.value !in s.table then s
    else
      var n := s.table[name.value];
      match input
      case ServerConnection(_) =>
        ReconnectUser(Update(s, name.value, n.(serverSoftDisconnected := false)), name.value)
      case ServerLost(_) =>
        var s' := Update(s, name.value, n.(serverSoftDisconnected := true));
        ReconnectIf(s', forall u :: u in s'.table ==> s'.table[u].serverSoftDisconnected)
      case ServerBack(_) =>
        ReconnectUser(Update(s, name.value, n.(serverSoftDisconnected := false, disconnected := true)), name.value)
      case _ => s
  }

  function Repeated(s: State, input: Input, times: nat): State {
    if times == 0 then s else ServerHandler(Repeated(s, input, times - 1), input)
  }

  /** The next step of a pass: what happens between two of its waits. */
  function Advance(s: State, id: nat): State {
    if id !in s.passes then s
    else
      match s.passes[id]
      case Closing => s.(handlers := 0, passes := s.passes[id := Draining])
      case Draining => s.(handlers := 0, passes := s.passes[id := Listening])
      case Listening => RejoinAll(s.(handlers := s.handlers + 1, passes := s.passes[id := Rejoining]), s.order)
      case Rejoining => s.(reconnecting := false, passes := s.passes - {id})
  }

  /** A neighbour that becomes known while everything else goes on; the table keeps insertion order. */
  function Learn(s: State, info: NodeInfo): State {
    if info.userName in s.table || IsSelf(s.identifier, s.port, info) then s
    else s.(table := AddNeighbor(s.table, s.identifier, s.port, info), order := s.order + [info.userName])
  }

  function React(s: State, input: Input): State {
    match input
    case Learns(info) => Learn(s, info)
    case TlsConnected(name) =>
      var s' := if name !in s.table then s
                else Update(s, name, s.table[name].(disconnected := false, softDisconnected := false,
                                                    serverSoftDisconnected := false, rebuildingSocket := false));
      Emit(s', Connected(name))
    case SocketClosed(name) =>
      if name !in s.table then s
      else
        var was := IsDisconnected(s.table[name]);
        var s' := Update(s, name, s.table[name].(disconnected := true));
        ReportUnless(ReconnectIf(s', forall u :: u in s'.table ==> s'.table[u].disconnected), was, name)
    case PeerLost(name) =>
      if name !in s.table then s
      else
        var was := IsDisconnected(s.table[name]);
        var s' := Update(s, name, s.table[name].(softDisconnected := true));
        ReportUnless(ReconnectIf(s', forall u :: u in s'.table ==>
                                     s'.table[u].softDisconnected && !s'.table[u].disconnected), was, name)
    case PeerBack(name) =>
      if name !in s.table then s
      else Emit(Update(s, name, s.table[name].(softDisconnected := false)), Reconnected(name))
    case RejoinSettles(name) =>
      if name !in s.table then s else Update(s, name, s.table[name].(rebuildingSocket := false))
    case PassStep(id) => Advance(s, id)
    case _ => Repeated(s, input, s.handlers)
  }

  ghost predicate Fresh(s: State) {
    && !s.reconnecting && s.passes == map[] && s.handlers == 1 && s.emitted == []
    && forall name :: name in s.table ==> IsHealthy(s.table[name]) && !s.table[name].rebuildingSocket
  }

  function Run(s: State, inputs: seq<Input>): State {
    if inputs == [] then s else React(Run(s, inputs[..|inputs| - 1]), inputs[|inputs| - 1])
  }

  // ---- the class ----

  /** The order lists the names once each. */
  ghost predicate Listed(names: set<string>, order: seq<string>) {
    && (forall i, j :: 0 <= i < j < |order| ==> order[i] != order[j])
    && (forall name :: name in names <==> name in order)
  }

  class Node {
    const identifier: string
    const port: int
    var neighbors: Table
    var order: seq<string>
    var reconnecting: bool
    var passes: map<nat, Phase>
    var nextPass: nat
    var handlers: nat
    var emitted: seq<NodeEvent>

    function Abstract(): State
      reads this
    {
      State(identifier, port, neighbors, order, reconnecting, passes, nextPass, handlers, emitted)
    }

    ghost predicate Valid()
      reads this
    {
      Listed(neighbors.Keys, order)
    }

    constructor (identifier: string, port: int)
      ensures Valid() && Abstract() == State(identifier, port, map[], [], false, map[], 0, 1, [])
    {
      this.identifier := identifier;
      this.port := port;
      neighbors, order := map[], [];
      reconnecting, passes, nextPass, handlers, emitted := false, map[], 0, 1, [];
    }

    /** One entry of a hello, or of the list that a node is constructed with. */
    method OnIntroduced(info: NodeInfo)
      requires Valid()
      modifies this`neighbors, this`order
      ensures Valid() && Abstract() == React(old(Abstract()), Learns(info))
    {
      if info.userName !in neighbors && !IsSelf(identifier, port, info) {
        neighbors := AddNeighbor(neighbors, identifier, port, info);
        order := order + [info.userName];
      }
    }

    method OnTlsConnected(username: string)
      requires Valid()
      modifies this
      ensures Valid() && neighbors.Keys == old(neighbors.Keys)
      ensures Abstract() == React(old(Abstract()), TlsConnected(username))
    {
      hide Listed;
      if username in neighbors {
        neighbors := neighbors[username := neighbors[username].(
          disconnected := false, softDisconnected := false, serverSoftDisconnected := false,
          rebuildingSocket := false)];
        assert neighbors.Keys == old(neighbors.Keys);
      }
      emitted := emitted + [Connected(username)];
    }

    method OnSocketClosed(username: string)
      requires Valid() && username in neighbors
      modifies this
      ensures Valid() && neighbors.Keys == old(neighbors.Keys)
      ensures Abstract() == React(old(Abstract()), SocketClosed(username))
    {
      hide Listed;
      var wasDisconnected := IsDisconnected(neighbors[username]);
      neighbors := neighbors[username := neighbors[username].(disconnected := true)];
      assert neighbors.Keys == old(neighbors.Keys);
      if forall u :: u in neighbors ==> neighbors[u].disconnected {
        StartReconnect();
      }
      if !wasDisconnected {
        emitted := emitted + [Disconnected(username)];
      }
    }

    method OnDisconnected(username: string)
      requires Valid() && username in neighbors
      modifies this
      ensures Valid() && neighbors.Keys == old(neighbors.Keys)
      ensures Abstract() == React(old(Abstract()), PeerLost(username))
    {
      hide Listed;
      var wasDisconnected := IsDisconnected(neighbors[username]);
      neighbors := neighbors[username := neighbors[username].(softDisconnected := true)];
      assert neighbors.Keys == old(neighbors.Keys);
      if forall u :: u in neighbors ==> neighbors[u].softDisconnected && !neighbors[u].disconnected {
        StartReconnect();
      }
      if !wasDisconnected {
        emitted := emitted + [Disconnected(username)];
      }
    }

    method OnReconnected(username: string)
      requires Valid() && username in neighbors
      modifies this
      ensures Valid() && neighbors.Keys == old(neighbors.Keys)
      ensures Abstract() == React(old(Abstract()), PeerBack(username))
    {
      hide Listed;
      neighbors := neighbors[username := neighbors[username].(softDisconnected := false)];
      assert neighbors.Keys == old(neighbors.Keys);
      emitted := emitted + [Reconnected(username)];
    }

    method OnServerEvent(input: Input)
      requires input.ServerConnection? || input.ServerLost? || input.ServerBack?
      requires Valid()
      modifies this
      ensures Valid() && neighbors.Keys == old(neighbors.Keys)
      ensures Abstract() == ServerHandler(old(Abstract()), input)
    {
      hide Listed;
      var found := FindByAddress(neighbors, order, input.ip);
      if found.None? || found.value !in neighbors {
        return;
      }
      var username := found.value;
      match input {
        case ServerConnection(_) =>
          neighbors := neighbors[username := neighbors[username].(serverSoftDisconnected := false)];
          assert neighbors.Keys == old(neighbors.Keys);
          StartReconnectUser(username);
        case ServerLost(_) =>
          neighbors := neighbors[username := neighbors[username].(serverSoftDisconnected := true)];
          assert neighbors.Keys == old(neighbors.Keys);
          if forall u :: u in neighbors ==> neighbors[u].serverSoftDisconnected {
            StartReconnect();
          }
        case ServerBack(_) =>
          neighbors := neighbors[username := neighbors[username].(
            serverSoftDisconnected := false, disconnected := true)];
          assert neighbors.Keys == old(neighbors.Keys);
          StartReconnectUser(username);
      }
    }

    method StartReconnect()
      requires Valid()
      modifies this
      ensures Valid() && neighbors.Keys == old(neighbors.Keys)
      ensures Abstract() == Reconnect(old(Abstract()))
    {
      hide Listed;
      if reconnecting {
        return;
      }
      reconnecting := true;
      var healthy := AllHealthy(neighbors);
      passes := passes[nextPass := if healthy then Rejoining else Closing];
      nextPass := nextPass + 1;
      if healthy {
        StartRejoining();
      }
    }

    /** The loop over all neighbours that ends the part of a pass before its last wait. */
    method StartRejoining()
      requires Valid()
      modifies this`neighbors
      ensures Valid() && neighbors.Keys == old(neighbors.Keys)
      ensures Abstract() == RejoinAll(old(Abstract()), order)
    {
      hide Listed;
      var i := 0;
      while i < |order|
        invariant 0 <= i <= |order|
        invariant Valid() && neighbors.Keys == old(neighbors.Keys)
        invariant Abstract() == RejoinAll(old(Abstract()), order[..i])
      {
        assert order[..i + 1][..i] == order[..i];
        StartReconnectUser(order[i]);
        i := i + 1;
      }
      assert order[..i] == order;
    }

    method StartReconnectUser(username: string)
      requires Valid()
      modifies this`neighbors
      ensures Valid() && neighbors.Keys == old(neighbors.Keys)
      ensures Abstract() == ReconnectUser(old(Abstract()), username)
    {
      hide Listed;
      if username in neighbors {
        neighbors := neighbors[username := neighbors[username].(
          rebuildingSocket := !neighbors[username].rebuildingSocket && neighbors[username].disconnected)];
        assert neighbors.Keys == old(neighbors.Keys);
      }
    }

    method ResumePass(id: nat)
      requires Valid()
      modifies this
      ensures Valid() && neighbors.Keys == old(neighbors.Keys)
      ensures Abstract() == Advance(old(Abstract()), id)
    {
      hide Listed;
      if id !in passes {
        return;
      }
      match passes[id] {
        case Closing =>
          handlers := 0;
          passes := passes[id := Draining];
        case Draining =>
          handlers := 0;
          passes := passes[id := Listening];
        case Listening =>
          handlers := handlers + 1;
          passes := passes[id := Rejoining];
          StartRejoining();
        case Rejoining =>
          reconnecting := false;
          passes := passes - {id};
      }
    }

    method GetNeighborStatus() returns (status: seq<(string, bool)>)
      requires Valid()
      ensures |status| == |order|
      ensures forall i :: 0 <= i < |order| ==>
                status[i] == (order[i], !(neighbors[order[i]].disconnected || neighbors[order[i]].softDisconnected))
    {
      status := [];
      for i := 0 to |order|
        invariant |status| == i
        invariant forall j :: 0 <= j < i ==> status[j] == (order[j], !IsDisconnected(neighbors[order[j]]))
      {
        status := status + [(order[i], !IsDisconnected(neighbors[order[i]]))];
      }
    }
  }

  // ---- one set of handlers, one pass ----

  predicate Destroyed(phase: Phase) { phase.Draining? || phase.Listening? }

  /**
   * A pass is in flight exactly while `reconnecting` is set, never two at once; the reconnect handlers
   * are registered once, except between the server's close and its rebuild, when there are none.
   */
  ghost predicate SingleFlight(s: State) {
    && (s.reconnecting <==> s.passes != map[])
    && (forall id, id' :: id in s.passes && id' in s.passes ==> id == id')
    && s.handlers == if exists id :: id in s.passes && Destroyed(s.passes[id]) then 0 else 1
  }

  lemma ReconnectKeepsFlight(s: State)
    requires SingleFlight(s)
    ensures SingleFlight(Reconnect(s))
  {
    if !s.reconnecting {
      var started := s.(reconnecting := true, nextPass := s.nextPass + 1, passes := s.passes[s.nextPass := Rejoining]);
      RejoinKeepsFlight(started, s.order);
      var s' := Reconnect(s);
      assert s.nextPass in s'.passes && !Destroyed(s'.passes[s.nextPass]);
      assert forall id :: id in s'.passes ==> id == s.nextPass;
    }
  }

  /** What leaves the passes and the handlers alone leaves the invariant alone. */
  predicate SameFlight(s: State, s': State) {
    s'.reconnecting == s.reconnecting && s'.passes == s.passes && s'.handlers == s.handlers
  }

  /** Two tables that differ in no more than who is rebuilding a socket. */
  predicate SameButRebuilding(t: Table, t': Table) {
    && t'.Keys == t.Keys
    && forall u :: u in t ==> t'[u] == t[u].(rebuildingSocket := t'[u].rebuildingSocket)
  }

  lemma {:induction false} RejoinKeepsFlight(s: State, names: seq<string>)
    ensures RejoinAll(s, names) == s.(table := RejoinAll(s, names).table)
    ensures SameButRebuilding(s.table, RejoinAll(s, names).table)
  {
    if names != [] {
      RejoinKeepsFlight(s, names[..|names| - 1]);
      RejoinOneKeepsFlight(s, RejoinAll(s, names[..|names| - 1]), names[|names| - 1]);
      hide ReconnectUser;
    }
  }

  lemma RejoinOneKeepsFlight(s: State, m: State, name: string)
    requires m == s.(table := m.table) && SameButRebuilding(s.table, m.table)
    ensures var m' := ReconnectUser(m, name);
            m' == s.(table := m'.table) && SameButRebuilding(s.table, m'.table)
  {
  }

  lemma AdvanceKeepsFlight(s: State, id: nat)
    requires SingleFlight(s)
    ensures SingleFlight(Advance(s, id))
  {
    if id in s.passes {
      var s' := Advance(s, id);
      match s.passes[id] {
        case Closing =>
          assert s'.passes[id] == Draining;
        case Draining =>
          assert s'.passes[id] == Listening;
        case Listening =>
          RejoinKeepsFlight(s.(handlers := s.handlers + 1, passes := s.passes[id := Rejoining]), s.order);
          assert s'.passes[id] == Rejoining;
          assert forall other :: other in s'.passes ==> other == id;
        case Rejoining =>
          assert s'.passes == map[];
      }
    }
  }

  lemma StepKeepsFlight(s: State, input: Input)
    requires SingleFlight(s)
    ensures SingleFlight(React(s, input))
  {
    match input {
      case PassStep(id) => AdvanceKeepsFlight(s, id);
      case SocketClosed(name) => LossKeepsFlight(s, input, name);
      case PeerLost(name) => LossKeepsFlight(s, input, name);
      case ServerConnection(_) => ServerKeepsFlight(s, input);
      case ServerBack(_) => ServerKeepsFlight(s, input);
      case ServerLost(_) => ServerKeepsFlight(s, input);
      case _ => assert SameFlight(s, React(s, input));
    }
  }

  /** What a client-side loss writes. */
  function Marked(n: Neighbor, input: Input): Neighbor {
    if input.SocketClosed? then n.(disconnected := true) else n.(softDisconnected := true)
  }

  lemma LossKeepsFlight(s: State, input: Input, name: string)
    requires SingleFlight(s) && (input == SocketClosed(name) || input == PeerLost(name))
    ensures SingleFlight(React(s, input))
  {
    if name in s.table {
      var n := Marked(s.table[name], input);
      var marked := Update(s, name, n);
      ReconnectKeepsFlight(marked);
      hide Reconnect;
      assert SameFlight(marked, React(s, input)) || SameFlight(Reconnect(marked), React(s, input));
    }
  }

  lemma ServerKeepsFlight(s: State, input: Input)
    requires SingleFlight(s) && (input.ServerConnection? || input.ServerLost? || input.ServerBack?)
    ensures SingleFlight(React(s, input))
  {
    OneHandlerRun(s, input);
    var name := FindByAddress(s.table, s.order, input.ip);
    if s.handlers == 1 && name.Some? && name.value in s.table {
      var n := s.table[name.value];
      if input.ServerLost? {
        ReconnectKeepsFlight(Update(s, name.value, n.(serverSoftDisconnected := true)));
        hide Reconnect;
      } else {
        assert SameFlight(s, ServerHandler(s, input));
      }
    }
  }

  /** With at most one set of handlers a server event runs its handler at most once. */
  lemma OneHandlerRun(s: State, input: Input)
    requires s.handlers <= 1
    ensures Repeated(s, input, s.handlers) == if s.handlers == 1 then ServerHandler(s, input) else s
  {
    if s.handlers == 1 {
      assert Repeated(s, input, 0) == s;
    }
  }

  /** The invariant holds in every interleaving. */
  lemma {:induction false} ReconnectIsSingleFlight(s: State, inputs: seq<Input>)
    requires Fresh(s)
    ensures SingleFlight(Run(s, inputs))
  {
    if inputs != [] {
      ReconnectIsSingleFlight(s, inputs[..|inputs| - 1]);
      StepKeepsFlight(Run(s, inputs[..|inputs| - 1]), inputs[|inputs| - 1]);
    }
  }

  /**
   * A pass always rebuilds the server: whenever a step starts one, some neighbour is unhealthy, so the
   * shortcut past the rebuild is never taken.
   */
  lemma PassesStartByClosing(s: State, inputs: seq<Input>, input: Input, id: nat)
    requires Fresh(s)
    requires id !in Run(s, inputs).passes && id in React(Run(s, inputs), input).passes
    ensures React(Run(s, inputs), input).passes[id] == Closing
  {
    ReconnectIsSingleFlight(s, inputs);
    NewPassCloses(Run(s, inputs), input, id);
  }

  lemma NewPassCloses(m: State, input: Input, id: nat)
    requires m.handlers <= 1
    requires id !in m.passes && id in React(m, input).passes
    ensures React(m, input).passes[id] == Closing
  {
    match input {
      case SocketClosed(name) =>
        UnhealthyCloses(Update(m, name, m.table[name].(disconnected := true)), name, id);
        hide Reconnect;
      case PeerLost(name) =>
        UnhealthyCloses(Update(m, name, m.table[name].(softDisconnected := true)), name, id);
        hide Reconnect;
      case ServerLost(ip) =>
        OneHandlerRun(m, input);
        var name := FindByAddress(m.table, m.order, ip).value;
        UnhealthyCloses(Update(m, name, m.table[name].(serverSoftDisconnected := true)), name, id);
        hide Reconnect;
      case ServerConnection(_) => OneHandlerRun(m, input);
      case ServerBack(_) => OneHandlerRun(m, input);
      case PassStep(other) =>
        if other in m.passes && m.passes[other].Listening? {
          RejoinKeepsFlight(m.(handlers := m.handlers + 1, passes := m.passes[other := Rejoining]), m.order);
        }
      case _ =>
    }
  }

  lemma UnhealthyCloses(s: State, name: string, id: nat)
    requires name in s.table && !IsHealthy(s.table[name])
    ensures id !in s.passes && id in Reconnect(s).passes ==> Reconnect(s).passes[id] == Closing
  {
  }

  // ---- when a pass starts, and what it does ----

  /** The first neighbour at an address, in the order of the table, unless its name is empty. */
  ghost predicate IsFirstAt(table: Table, order: seq<string>, ip: string, u: string, i: nat) {
    && i < |order| && order[i] == u && u in table && table[u].ip == ip
    && forall j :: 0 <= j < i && order[j] in table ==> table[order[j]].ip != ip
  }

  lemma {:induction false} FoundIsFirst(table: Table, order: seq<string>, ip: string)
    ensures forall u :: FindByAddress(table, order, ip) == Some(u) <==>
                        u != "" && exists i: nat :: IsFirstAt(table, order, ip, u, i)
  {
    if order != [] {
      var rest := order[1..];
      FoundIsFirst(table, rest, ip);
      forall u
        ensures FindByAddress(table, order, ip) == Some(u) <==>
                u != "" && exists i: nat :: IsFirstAt(table, order, ip, u, i)
      {
        if order[0] in table && table[order[0]].ip == ip {
          assert IsFirstAt(table, order, ip, order[0], 0);
        } else {
          if i: nat :| IsFirstAt(table, order, ip, u, i) {
            assert forall j :: 0 <= j < i - 1 ==> rest[j] == order[j + 1];
            assert IsFirstAt(table, rest, ip, u, i - 1);
          }
          if i: nat :| IsFirstAt(table, rest, ip, u, i) {
            assert IsFirstAt(table, order, ip, u, i + 1);
          }
        }
      }
    }
  }

  /** The loss that `input` brings to a known neighbour leaves none that the same kind of loss has not reached. */
  ghost predicate LosesLast(s: State, input: Input) {
    match input
    case SocketClosed(name) =>
      name in s.table && forall u :: u in s.table ==> u == name || s.table[u].disconnected
    case PeerLost(name) =>
      name in s.table && forall u :: u in s.table ==>
        (u == name || s.table[u].softDisconnected) && !s.table[u].disconnected
    case ServerLost(ip) =>
      && s.handlers == 1
      && exists name :: FindByAddress(s.table, s.order, ip) == Some(name) && name in s.table
                        && forall u :: u in s.table ==> u == name || s.table[u].serverSoftDisconnected
    case _ => false
  }

  /**
   * A pass starts exactly when none is in flight and a loss completes the losses of its kind, and it starts
   * by closing the server; no other input starts one.
   */
  lemma PassStartsIff(s: State, input: Input)
    requires SingleFlight(s)
    ensures var s' := React(s, input);
            && ((exists id :: id in s'.passes && id !in s.passes) <==> s.passes == map[] && LosesLast(s, input))
            && (s.passes == map[] && LosesLast(s, input) ==> s'.passes == map[s.nextPass := Closing] && s'.reconnecting)
  {
    match input {
      case SocketClosed(name) => LossStarts(s, input, name);
      case PeerLost(name) => LossStarts(s, input, name);
      case ServerLost(ip) => ServerLossStarts(s, ip);
      case ServerConnection(_) => OneHandlerRun(s, input);
      case ServerBack(_) => OneHandlerRun(s, input);
      case PassStep(id) =>
        if id in s.passes && s.passes[id].Listening? {
          RejoinKeepsFlight(s.(handlers := s.handlers + 1, passes := s.passes[id := Rejoining]), s.order);
        }
      case _ =>
    }
    if s.passes == map[] && LosesLast(s, input) {
      assert s.nextPass in React(s, input).passes;
    }
  }

  lemma LossStarts(s: State, input: Input, name: string)
    requires SingleFlight(s) && (input == SocketClosed(name) || input == PeerLost(name))
    ensures var s' := React(s, input);
            if s.passes == map[] && LosesLast(s, input)
            then s'.passes == map[s.nextPass := Closing] && s'.reconnecting else s'.passes == s.passes
  {
    if name in s.table {
      var marked := Update(s, name, Marked(s.table[name], input));
      UnhealthyStarts(marked, name);
      assert forall u :: u in s.table && u != name ==> marked.table[u] == s.table[u];
      var all := if input.SocketClosed? then forall u :: u in marked.table ==> marked.table[u].disconnected
                 else forall u :: u in marked.table ==>
                        marked.table[u].softDisconnected && !marked.table[u].disconnected;
      assert all <==> LosesLast(s, input) by {
        if all {
          assert forall u :: u in s.table ==> u in marked.table;
        }
      }
      assert React(s, input).passes == ReconnectIf(marked, all).passes;
      assert React(s, input).reconnecting == ReconnectIf(marked, all).reconnecting;
      hide Reconnect;
    }
  }

  lemma ServerLossStarts(s: State, ip: string)
    requires SingleFlight(s)
    ensures var s' := React(s, ServerLost(ip));
            if s.passes == map[] && LosesLast(s, ServerLost(ip))
            then s'.passes == map[s.nextPass := Closing] && s'.reconnecting else s'.passes == s.passes
  {
    OneHandlerRun(s, ServerLost(ip));
    var found := FindByAddress(s.table, s.order, ip);
    if s.handlers == 1 && found.Some? && found.value in s.table {
      var name := found.value;
      var marked := Update(s, name, s.table[name].(serverSoftDisconnected := true));
      UnhealthyStarts(marked, name);
      assert forall u :: u in s.table && u != name ==> marked.table[u] == s.table[u];
      var all := forall u :: u in marked.table ==> marked.table[u].serverSoftDisconnected;
      assert all <==> LosesLast(s, ServerLost(ip)) by {
        if all {
          assert forall u :: u in s.table ==> u in marked.table;
        }
      }
      assert ServerHandler(s, ServerLost(ip)) == ReconnectIf(marked, all);
      hide Reconnect;
    }
  }

  lemma UnhealthyStarts(s: State, name: string)
    requires name in s.table && !IsHealthy(s.table[name])
    requires s.reconnecting <==> s.passes != map[]
    ensures Reconnect(s) ==
            if s.passes != map[] then s
            else s.(reconnecting := true, nextPass := s.nextPass + 1, passes := map[s.nextPass := Closing])
  {
  }

  /** A reconnect does nothing while one is in flight; with all neighbours healthy it goes on to rejoin them. */
  lemma ReconnectLaw(s: State)
    ensures var s' := Reconnect(s);
            var healthy := forall u :: u in s.table ==>
              var n := s.table[u];
              !n.disconnected && !n.softDisconnected && !n.serverSoftDisconnected;
            if s.reconnecting then s' == s
            else
              && s' == s.(table := s'.table, reconnecting := true, nextPass := s.nextPass + 1, passes := s'.passes)
              && s'.passes == s.passes[s.nextPass := if healthy then Rejoining else Closing]
              && SameButRebuilding(s.table, s'.table) && (!healthy ==> s'.table == s.table)
  {
    if !s.reconnecting && AllHealthy(s.table) {
      var passes := s.passes[s.nextPass := Rejoining];
      RejoinKeepsFlight(s.(reconnecting := true, nextPass := s.nextPass + 1, passes := passes), s.order);
    }
  }

  /** Which neighbours start to rebuild their socket when a pass rejoins them, or when they are seen again. */
  predicate Rejoins(n: Neighbor) { !n.rebuildingSocket && n.disconnected }

  lemma {:induction false} RejoinAllFlags(s: State, names: seq<string>, u: string)
    requires u in s.table && forall i, j :: 0 <= i < j < |names| ==> names[i] != names[j]
    ensures var s' := RejoinAll(s, names);
            && u in s'.table
            && s'.table[u] == if u in names then s.table[u].(rebuildingSocket := Rejoins(s.table[u])) else s.table[u]
  {
    if names != [] {
      var init, last := names[..|names| - 1], names[|names| - 1];
      RejoinAllFlags(s, init, u);
      assert last !in init;
    }
  }

  /**
   * What a step of a pass does: it waits for the server to close, for its clients, for the new server with
   * its handlers, which is when every listed neighbour that needs it starts to rebuild its socket, and for
   * all of those; only then is the next pass possible.
   */
  lemma PassLaw(s: State, id: nat)
    requires id in s.passes && Listed(s.table.Keys, s.order)
    ensures var s' := React(s, PassStep(id));
            match s.passes[id]
            case Closing => s' == s.(handlers := 0, passes := s.passes[id := Draining])
            case Draining => s' == s.(handlers := 0, passes := s.passes[id := Listening])
            case Listening =>
              && s'.handlers == s.handlers + 1 && s'.passes == s.passes[id := Rejoining]
              && s'.reconnecting == s.reconnecting && s'.emitted == s.emitted && s'.table.Keys == s.table.Keys
              && (forall u :: u in s.table ==>
                    var n := s.table[u];
                    s'.table[u] == n.(rebuildingSocket := !n.rebuildingSocket && n.disconnected))
            case Rejoining => s' == s.(reconnecting := false, passes := s.passes - {id})
  {
    if s.passes[id].Listening? {
      var ready := s.(handlers := s.handlers + 1, passes := s.passes[id := Rejoining]);
      RejoinKeepsFlight(ready, s.order);
      forall u | u in s.table
        ensures RejoinAll(ready, s.order).table[u] == s.table[u].(rebuildingSocket := Rejoins(s.table[u]))
      {
        RejoinAllFlags(ready, s.order, u);
      }
    }
  }

  /** Outside a pass, what each input makes of the rebuilding flag of a neighbour. */
  lemma RebuildingLaw(s: State, input: Input, u: string)
    requires SingleFlight(s) && u in s.table && !input.PassStep?
    ensures var n, heard := s.table[u], HeardFrom(s, input, u);
            && u in React(s, input).table
            && React(s, input).table[u].rebuildingSocket ==
               if input == TlsConnected(u) || input == RejoinSettles(u) then false
               else if heard && input.ServerConnection? then !n.rebuildingSocket && n.disconnected
               else if heard && input.ServerBack? then !n.rebuildingSocket
               else n.rebuildingSocket
  {
    match input {
      case ServerConnection(_) => OneHandlerRun(s, input);
      case ServerBack(_) => OneHandlerRun(s, input);
      case ServerLost(ip) =>
        OneHandlerRun(s, input);
        var found := FindByAddress(s.table, s.order, ip);
        if s.handlers == 1 && found.Some? && found.value in s.table {
          var marked := Update(s, found.value, s.table[found.value].(serverSoftDisconnected := true));
          ReconnectLeavesStatus(marked, found.value);
          hide ReconnectIf;
        }
      case SocketClosed(name) => LossKeepsRebuilding(s, input, name, u);
      case PeerLost(name) => LossKeepsRebuilding(s, input, name, u);
      case _ =>
    }
  }

  lemma LossKeepsRebuilding(s: State, input: Input, name: string, u: string)
    requires u in s.table && (input == SocketClosed(name) || input == PeerLost(name))
    ensures var s' := React(s, input); u in s'.table && s'.table[u].rebuildingSocket == s.table[u].rebuildingSocket
  {
    if name in s.table {
      ReconnectLeavesStatus(Update(s, name, Marked(s.table[name], input)), name);
      hide ReconnectIf;
    }
  }

  /** A new neighbour comes last, with the address, port and keys it was introduced with and no flag set. */
  lemma LearnsLaw(s: State, info: NodeInfo)
    ensures var s' := React(s, Learns(info));
            if info.userName in s.table || (info.userName == s.identifier && info.port == s.port) then s' == s
            else
              && s'.order == s.order + [info.userName]
              && s'.table == s.table[info.userName :=
                   if info.Handshaken? then Neighbor(info.ip, info.port, info.key, info.key, false, false, false, false)
                   else Neighbor(info.ip, info.port, info.sendKey, info.receiveKey, false, false, false, false)]
              && s'.(table := s.table, order := s.order) == s
  {
  }

  // ---- events and status ----

  /** A server event from the address under which the node looks `u` up, while its handlers are registered. */
  ghost predicate HeardFrom(s: State, input: Input, u: string) {
    && (input.ServerConnection? || input.ServerLost? || input.ServerBack?)
    && s.handlers == 1 && FindByAddress(s.table, s.order, input.ip) == Some(u)
  }

  /** What one input does to one neighbour's flags and events. */
  ghost predicate StatusStep(s: State, input: Input, s': State, u: string)
    requires u in s.table
  {
    && u in s'.table
    && EventStep(s, input, s', u)
    && FlagStep(s, input, s', u)
  }

  /** The events that tell of a neighbour's status. */
  ghost predicate EventStep(s: State, input: Input, s': State, u: string)
    requires u in s.table && u in s'.table
  {
    var before, after := IsDisconnected(s.table[u]), IsDisconnected(s'.table[u]);
    && s.emitted <= s'.emitted
    && var news := s'.emitted[|s.emitted|..];
       && |news| <= 1
       && (Disconnected(u) in news <==> !before && after && !input.ServerBack?)
       && (before && !after ==> Connected(u) in news || Reconnected(u) in news)
       && (Connected(u) in news <==> input == TlsConnected(u))
       && (Reconnected(u) in news <==> input == PeerBack(u))
  }

  ghost predicate FlagStep(s: State, input: Input, s': State, u: string)
    requires u in s.table && u in s'.table
  {
    var n, heard := s.table[u], HeardFrom(s, input, u);
    && s'.table[u].disconnected == (if input == TlsConnected(u) then false
                                    else if input == SocketClosed(u) || (heard && input.ServerBack?) then true
                                    else n.disconnected)
    && s'.table[u].serverSoftDisconnected == (if input == TlsConnected(u) then false
                                              else if heard then input.ServerLost?
                                              else n.serverSoftDisconnected)
    && s'.table[u].softDisconnected == (if input == TlsConnected(u) || input == PeerBack(u) then false
                                        else if input == PeerLost(u) then true
                                        else n.softDisconnected)
  }

  lemma HandlerStatus(s: State, input: Input, u: string)
    requires u in s.table && (input.ServerConnection? || input.ServerLost? || input.ServerBack?) && s.handlers == 1
    ensures StatusStep(s, input, ServerHandler(s, input), u)
  {
    var name := FindByAddress(s.table, s.order, input.ip);
    NewsIs(s, s, []);
    if name.Some? && name.value in s.table {
      var n := s.table[name.value];
      if input.ServerLost? {
        var marked := Update(s, name.value, n.(serverSoftDisconnected := true));
        ReconnectLeavesStatus(marked, name.value);
        hide ReconnectIf;
        FlagsStatus(s, input, name.value, ServerHandler(s, input), u);
      } else {
        FlagsStatus(s, input, name.value, ServerHandler(s, input), u);
      }
    }
  }

  /** A server handler's change of flags, when it emits nothing. */
  lemma FlagsStatus(s: State, input: Input, name: string, s': State, u: string)
    requires u in s.table && (input.ServerConnection? || input.ServerLost? || input.ServerBack?) && s.handlers == 1
    requires FindByAddress(s.table, s.order, input.ip) == Some(name) && name in s.table
    requires s'.emitted == s.emitted && s'.table.Keys == s.table.Keys
    requires forall v :: v in s.table && v != name ==> s'.table[v] == s.table[v]
    requires s'.table[name].(rebuildingSocket := false) ==
             s.table[name].(rebuildingSocket := false, serverSoftDisconnected := input.ServerLost?,
                            disconnected := s.table[name].disconnected || input.ServerBack?)
    ensures StatusStep(s, input, s', u)
  {
    NewsIs(s, s', []);
  }

  lemma NoStatus(s: State, input: Input, s': State, u: string)
    requires u in s.table && u in s'.table && s'.emitted == s.emitted
    requires s'.table[u] == s.table[u].(rebuildingSocket := s'.table[u].rebuildingSocket)
    requires input != TlsConnected(u) && input != PeerBack(u) && input != PeerLost(u) && input != SocketClosed(u)
    requires (input.ServerConnection? || input.ServerLost? || input.ServerBack?) ==> s.handlers != 1
    ensures StatusStep(s, input, s', u)
  {
    assert s'.emitted[|s.emitted|..] == [];
  }

  /**
   * The exact effect of every input on every neighbour, with one set of handlers: a status turns to
   * disconnected with a disconnected event, except that the server-side reconnected event turns it
   * silently; it never turns back without an event.
   */
  lemma StepStatus(s: State, input: Input, u: string)
    requires s.handlers <= 1 && u in s.table
    ensures StatusStep(s, input, React(s, input), u)
  {
    match input {
      case ServerConnection(_) => ServerStatus(s, input, u);
      case ServerLost(_) => ServerStatus(s, input, u);
      case ServerBack(_) => ServerStatus(s, input, u);
      case PassStep(id) => PassStatus(s, id, u);
      case RejoinSettles(_) => NoStatus(s, input, React(s, input), u);
      case Learns(_) => NoStatus(s, input, React(s, input), u);
      case TlsConnected(name) => BackStatus(s, input, name, u);
      case PeerBack(name) => BackStatus(s, input, name, u);
      case SocketClosed(name) => LossStatus(s, input, name, u);
      case PeerLost(name) => LossStatus(s, input, name, u);
    }
  }

  /** The silent turn: the first neighbour at an address is shown as disconnected, and nobody is told. */
  lemma SilentLoss(s: State, u: string)
    requires Fresh(s) && u in s.table && FindByAddress(s.table, s.order, s.table[u].ip) == Some(u)
    ensures !IsDisconnected(s.table[u])
    ensures var s' := React(s, ServerBack(s.table[u].ip));
            u in s'.table && IsDisconnected(s'.table[u]) && s'.emitted == s.emitted
  {
    OneHandlerRun(s, ServerBack(s.table[u].ip));
  }

  /** A fresh node with one neighbour, to which it happens. */
  lemma SilentLossHappens()
    ensures var n := Entry("10.0.0.2", 5000, None, None);
            var s := State("host", 5000, map["client" := n], ["client"], false, map[], 0, 1, []);
            var s' := React(s, ServerBack("10.0.0.2"));
            && Fresh(s) && !IsDisconnected(s.table["client"])
            && "client" in s'.table && IsDisconnected(s'.table["client"]) && s'.emitted == []
  {
    var n := Entry("10.0.0.2", 5000, None, None);
    var s := State("host", 5000, map["client" := n], ["client"], false, map[], 0, 1, []);
    assert FindByAddress(s.table, s.order, "10.0.0.2") == Some("client");
    SilentLoss(s, "client");
  }

  lemma PassStatus(s: State, id: nat, u: string)
    requires u in s.table
    ensures StatusStep(s, PassStep(id), React(s, PassStep(id)), u)
  {
    if id in s.passes && s.passes[id].Listening? {
      RejoinKeepsFlight(s.(handlers := s.handlers + 1, passes := s.passes[id := Rejoining]), s.order);
    }
    NoStatus(s, PassStep(id), React(s, PassStep(id)), u);
  }

  /** The two client-side events that report a neighbour as back. */
  lemma BackStatus(s: State, input: Input, name: string, u: string)
    requires u in s.table && (input == TlsConnected(name) || input == PeerBack(name))
    ensures StatusStep(s, input, React(s, input), u)
  {
    NewsIs(s, React(s, input), if input.TlsConnected? then [Connected(name)]
                               else if name in s.table then [Reconnected(name)] else []);
  }

  lemma NewsIs(s: State, s': State, news: seq<NodeEvent>)
    requires s'.emitted == s.emitted + news
    ensures s.emitted <= s'.emitted && s'.emitted[|s.emitted|..] == news
  {
  }

  /** Starting a pass while some neighbour is unhealthy touches neither the table nor the events. */
  lemma ReconnectLeavesStatus(s: State, name: string)
    requires name in s.table && !IsHealthy(s.table[name])
    ensures forall condition ::
              ReconnectIf(s, condition).table == s.table && ReconnectIf(s, condition).emitted == s.emitted
  {
  }

  /** A loss that is marked in the table and reported unless it was known. */
  lemma MarkedStatus(s: State, input: Input, name: string, n: Neighbor, s': State, u: string)
    requires u in s.table && name in s.table && (input == SocketClosed(name) || input == PeerLost(name))
    requires n == Marked(s.table[name], input)
    requires s'.table == s.table[name := n]
    requires s'.emitted == s.emitted + if IsDisconnected(s.table[name]) then [] else [Disconnected(name)]
    ensures StatusStep(s, input, s', u)
  {
    NewsIs(s, s', if IsDisconnected(s.table[name]) then [] else [Disconnected(name)]);
  }

  /** The two client-side events that may report a loss. */
  lemma LossStatus(s: State, input: Input, name: string, u: string)
    requires u in s.table && (input == SocketClosed(name) || input == PeerLost(name))
    ensures StatusStep(s, input, React(s, input), u)
  {
    var s' := React(s, input);
    if name !in s.table {
      NewsIs(s, s', []);
    } else {
      var n := Marked(s.table[name], input);
      ReconnectLeavesStatus(Update(s, name, n), name);
      hide ReconnectIf, StatusStep;
      MarkedStatus(s, input, name, n, s', u);
    }
  }

  lemma ServerStatus(s: State, input: Input, u: string)
    requires s.handlers <= 1 && u in s.table && (input.ServerConnection? || input.ServerLost? || input.ServerBack?)
    ensures StatusStep(s, input, React(s, input), u)
  {
    OneHandlerRun(s, input);
    if s.handlers == 1 {
      HandlerStatus(s, input, u);
    } else {
      NoStatus(s, input, s, u);
    }
  }

  /** What one input does for a name that is not a neighbour: at most it becomes one, clear of all flags. */
  ghost predicate StrangerStep(s: State, input: Input, s': State, u: string)
    requires u !in s.table
  {
    && s.emitted <= s'.emitted
    && var news := s'.emitted[|s.emitted|..];
       && |news| <= 1
       && Disconnected(u) !in news && Reconnected(u) !in news
       && (Connected(u) in news <==> input == TlsConnected(u))
       && (u in s'.table <==> input.Learns? && input.info.userName == u && !IsSelf(s.identifier, s.port, input.info))
       && (u in s'.table ==> IsHealthy(s'.table[u]))
  }

  lemma StrangerStatus(s: State, input: Input, u: string)
    requires s.handlers <= 1 && u !in s.table
    ensures StrangerStep(s, input, React(s, input), u)
  {
    var s' := React(s, input);
    match input {
      case ServerConnection(_) => ServerLeavesStrangers(s, input, u);
      case ServerLost(_) => ServerLeavesStrangers(s, input, u);
      case ServerBack(_) => ServerLeavesStrangers(s, input, u);
      case PassStep(id) => PassLeavesStrangers(s, id, u);
      case SocketClosed(name) => LossLeavesStrangers(s, input, name, u);
      case PeerLost(name) => LossLeavesStrangers(s, input, name, u);
      case TlsConnected(name) => NewsIs(s, s', [Connected(name)]);
      case PeerBack(name) => NewsIs(s, s', if name in s.table then [Reconnected(name)] else []);
      case Learns(_) => NewsIs(s, s', []);
      case RejoinSettles(_) => NewsIs(s, s', []);
    }
  }

  lemma PassLeavesStrangers(s: State, id: nat, u: string)
    requires u !in s.table
    ensures StrangerStep(s, PassStep(id), React(s, PassStep(id)), u)
  {
    if id in s.passes && s.passes[id].Listening? {
      RejoinKeepsFlight(s.(handlers := s.handlers + 1, passes := s.passes[id := Rejoining]), s.order);
    }
    NewsIs(s, React(s, PassStep(id)), []);
    hide RejoinAll;
  }

  lemma LossLeavesStrangers(s: State, input: Input, name: string, u: string)
    requires u !in s.table && (input == SocketClosed(name) || input == PeerLost(name))
    ensures StrangerStep(s, input, React(s, input), u)
  {
    var s' := React(s, input);
    if name !in s.table {
      NewsIs(s, s', []);
    } else {
      var n := Marked(s.table[name], input);
      ReconnectLeavesStatus(Update(s, name, n), name);
      hide ReconnectIf;
      NewsIs(s, s', if IsDisconnected(s.table[name]) then [] else [Disconnected(name)]);
    }
  }

  lemma ServerLeavesStrangers(s: State, input: Input, u: string)
    requires s.handlers <= 1 && u !in s.table && (input.ServerConnection? || input.ServerLost? || input.ServerBack?)
    ensures StrangerStep(s, input, React(s, input), u)
  {
    OneHandlerRun(s, input);
    NewsIs(s, s, []);
    var name := FindByAddress(s.table, s.order, input.ip);
    if s.handlers == 1 && input.ServerLost? && name.Some? && name.value in s.table {
      ReconnectLeavesStatus(Update(s, name.value, s.table[name.value].(serverSoftDisconnected := true)), name.value);
      hide ReconnectIf;
    }
    assert React(s, input).emitted == s.emitted && React(s, input).table.Keys == s.table.Keys;
  }

  /** The last event about a neighbour, if any. */
  function LastAbout(emitted: seq<NodeEvent>, u: string): Option<NodeEvent> {
    if emitted == [] then None
    else if emitted[|emitted| - 1].username == u then Some(emitted[|emitted| - 1])
    else LastAbout(emitted[..|emitted| - 1], u)
  }

  /** Between two disconnected events about a neighbour there is one that says it is back. */
  ghost predicate Disciplined(emitted: seq<NodeEvent>, u: string) {
    forall i, j :: 0 <= i < j < |emitted| && emitted[i] == Disconnected(u) && emitted[j] == Disconnected(u) ==>
      exists k :: i < k < j && (emitted[k] == Connected(u) || emitted[k] == Reconnected(u))
  }

  lemma {:induction false} LastAboutIs(emitted: seq<NodeEvent>, u: string, i: nat)
    requires i < |emitted| && emitted[i] == Disconnected(u)
    ensures LastAbout(emitted, u) == Some(Disconnected(u)) ||
            exists k :: i < k < |emitted| && (emitted[k] == Connected(u) || emitted[k] == Reconnected(u))
  {
    var n := |emitted| - 1;
    if emitted[n].username != u {
      LastAboutIs(emitted[..n], u, i);
      if LastAbout(emitted, u) != Some(Disconnected(u)) {
        var k :| i < k < n && (emitted[..n][k] == Connected(u) || emitted[..n][k] == Reconnected(u));
        assert emitted[k] == emitted[..n][k];
      }
    } else if emitted[n] != Disconnected(u) {
      assert i < n && (emitted[n] == Connected(u) || emitted[n] == Reconnected(u));
    }
  }

  lemma DisciplineGrows(emitted: seq<NodeEvent>, event: NodeEvent, u: string)
    requires Disciplined(emitted, u)
    requires event == Disconnected(u) ==> LastAbout(emitted, u) != Some(Disconnected(u))
    ensures Disciplined(emitted + [event], u)
  {
    var all := emitted + [event];
    forall i, j | 0 <= i < j < |all| && all[i] == Disconnected(u) && all[j] == Disconnected(u)
      ensures exists k :: i < k < j && (all[k] == Connected(u) || all[k] == Reconnected(u))
    {
      if j < |emitted| {
        var k :| i < k < j && (emitted[k] == Connected(u) || emitted[k] == Reconnected(u));
        assert all[k] == emitted[k];
      } else {
        LastAboutIs(emitted, u, i);
        var k :| i < k < |emitted| && (emitted[k] == Connected(u) || emitted[k] == Reconnected(u));
        assert all[k] == emitted[k];
      }
    }
  }

  /** The discipline for one name, and what its last event says while it is a neighbour or before it is. */
  ghost predicate DisciplinedSoFar(s: State, u: string) {
    && Disciplined(s.emitted, u)
    && (LastAbout(s.emitted, u) == Some(Disconnected(u)) ==> u in s.table && IsDisconnected(s.table[u]))
  }

  /**
   * Event discipline, for every name and every interleaving, whenever the name becomes a neighbour: two
   * disconnected events have a connected or reconnected event between them; and while the last event
   * about a name says disconnected, it is a neighbour and so does its status.
   */
  lemma {:induction false} EventDiscipline(s: State, inputs: seq<Input>, u: string)
    requires Fresh(s)
    ensures DisciplinedSoFar(Run(s, inputs), u)
    ensures u in s.table ==> u in Run(s, inputs).table
  {
    if inputs != [] {
      var init, last := inputs[..|inputs| - 1], inputs[|inputs| - 1];
      var m, m' := Run(s, init), Run(s, inputs);
      EventDiscipline(s, init, u);
      ReconnectIsSingleFlight(s, init);
      if u in m.table {
        StepStatus(m, last, u);
      } else {
        StrangerStatus(m, last, u);
      }
      assert m' == React(m, last);
      hide React, Run, DisciplinedSoFar, StatusStep, StrangerStep;
      DisciplineStep(m, last, m', u);
    }
  }

  lemma DisciplineStep(m: State, input: Input, m': State, u: string)
    requires DisciplinedSoFar(m, u)
    requires if u in m.table then StatusStep(m, input, m', u) else StrangerStep(m, input, m', u)
    ensures DisciplinedSoFar(m', u) && (u in m.table ==> u in m'.table)
  {
    hide FlagStep, Disciplined, LastAbout;
    var news := m'.emitted[|m.emitted|..];
    assert m'.emitted == m.emitted + news;
    if news == [] {
      assert m'.emitted == m.emitted;
    } else {
      var event := news[0];
      assert news == [event];
      LastAppend(m.emitted, event, u);
      DisciplineGrows(m.emitted, event, u);
    }
  }

  lemma LastAppend(emitted: seq<NodeEvent>, event: NodeEvent, u: string)
    ensures LastAbout(emitted + [event], u) == if event.username == u then Some(event) else LastAbout(emitted, u)
  {
    assert (emitted + [event])[..|emitted|] == emitted;
  }

  // ---- status and the heartbeat watchdogs ----

  /** The node with the watchdog of each neighbour whose TLS connection is up. */
  datatype Linked = Linked(node: State, up: map<string, Heartbeat.Config>)

  datatype LinkedInput =
    | Opens(username: string, idle: Heartbeat.Watchdog, start: nat, payload: nat)
    | Watches(username: string, action: Heartbeat.Action)
    | Closes(username: string)
    | Else(input: Input)

  /** A watchdog's new reports reach the node as its events; one step makes at most one. */
  function Told(s: State, name: string, before: seq<bool>, after: seq<bool>): State {
    if |after| <= |before| then s
    else if after[|before|] then React(s, PeerLost(name))
    else React(s, PeerBack(name))
  }

  ghost function LinkedStep(l: Linked, input: LinkedInput): Linked {
    match input
    case Opens(name, idle, start, payload) =>
      if name !in l.node.table then l
      else Linked(React(l.node, TlsConnected(name)),
                  l.up[name := Heartbeat.Config(start, Heartbeat.Connect(idle, start, payload))])
    case Watches(name, action) =>
      if name !in l.up then l
      else
        var c := Heartbeat.Step(l.up[name], action);
        Linked(Told(l.node, name, Heartbeat.Reports(l.up[name].w.log), Heartbeat.Reports(c.w.log)), l.up[name := c])
    case Closes(name) => Linked(React(l.node, SocketClosed(name)), l.up - {name})
    case Else(other) =>
      if other.TlsConnected? || other.PeerLost? || other.PeerBack? || other.SocketClosed? then l
      else l.(node := React(l.node, other))
  }

  ghost function LinkedRun(s: State, inputs: seq<LinkedInput>): Linked {
    if inputs == [] then Linked(s, map[]) else LinkedStep(LinkedRun(s, inputs[..|inputs| - 1]), inputs[|inputs| - 1])
  }

  ghost predicate LinkedInv(l: Linked) {
    && SingleFlight(l.node)
    && forall u :: u in l.up ==>
         u in l.node.table && Heartbeat.Safe(l.up[u]) && l.node.table[u].softDisconnected == !l.up[u].w.alive
  }

  lemma NodeStepKeepsLinks(l: Linked, input: Input, up: map<string, Heartbeat.Config>)
    requires LinkedInv(l)
    requires forall u :: u in up ==> u in l.node.table && Heartbeat.Safe(up[u])
    requires forall u :: u in up ==>
               up[u].w.alive == if input == TlsConnected(u) || input == PeerBack(u) then true
                                else if input == PeerLost(u) then false
                                else !l.node.table[u].softDisconnected
    ensures LinkedInv(Linked(React(l.node, input), up))
  {
    StepKeepsFlight(l.node, input);
    forall u | u in up
      ensures u in React(l.node, input).table && React(l.node, input).table[u].softDisconnected == !up[u].w.alive
    {
      StepStatus(l.node, input, u);
    }
  }

  lemma LinkedStepKeepsInv(l: Linked, input: LinkedInput)
    requires LinkedInv(l)
    ensures LinkedInv(LinkedStep(l, input))
  {
    hide React, SingleFlight, Heartbeat.Safe, Heartbeat.Reports, Heartbeat.Step;
    match input {
      case Opens(name, idle, start, payload) =>
        if name in l.node.table {
          Heartbeat.ExecSafe(idle, start, payload, []);
          NodeStepKeepsLinks(l, TlsConnected(name), LinkedStep(l, input).up);
        }
      case Watches(name, action) =>
        if name in l.up {
          Heartbeat.StepSafe(l.up[name], action);
          var before, after := l.up[name].w, Heartbeat.Step(l.up[name], action).w;
          if before.alive && !after.alive {
            NodeStepKeepsLinks(l, PeerLost(name), LinkedStep(l, input).up);
          } else if !before.alive && after.alive {
            NodeStepKeepsLinks(l, PeerBack(name), LinkedStep(l, input).up);
          }
        }
      case Closes(name) =>
        NodeStepKeepsLinks(l, SocketClosed(name), l.up - {name});
      case Else(other) =>
        if !(other.TlsConnected? || other.PeerLost? || other.PeerBack? || other.SocketClosed?) {
          NodeStepKeepsLinks(l, other, l.up);
        }
    }
  }

  lemma {:induction false} LinkedRunKeepsInv(s: State, inputs: seq<LinkedInput>)
    requires Fresh(s)
    ensures LinkedInv(LinkedRun(s, inputs))
  {
    if inputs != [] {
      LinkedRunKeepsInv(s, inputs[..|inputs| - 1]);
      LinkedStepKeepsInv(LinkedRun(s, inputs[..|inputs| - 1]), inputs[|inputs| - 1]);
    }
  }

  /**
   * Status refines the watchdogs: in every run, a neighbour whose connection is up is shown as
   * connected exactly when its hard flag is clear and its watchdog is alive.
   */
  lemma StatusRefinesWatchdog(s: State, inputs: seq<LinkedInput>, u: string)
    requires Fresh(s) && u in LinkedRun(s, inputs).up
    ensures var l := LinkedRun(s, inputs);
            && u in l.node.table
            && var n := l.node.table[u];
               (!(n.disconnected || n.softDisconnected) <==> !n.disconnected && l.up[u].w.alive)
  {
    LinkedRunKeepsInv(s, inputs);
  }
}

/**
 * How the star around the host becomes a mesh: the host introduces all clients to each other with a
 * hello, each client expands its one-entry table and acknowledges, and the host waits for all
 * acknowledgements before it reports the session as started. Names travel as the transport carries them.
 */
module Mesh {
  import opened Wrappers
  import opened Srp
  import opened Neighbors
  import opened Transport
  import opened Certificate

  datatype HelloNode = HelloNode(username: string, ip: string, port: int, sendKey: Option<Key>, receiveKey: Option<Key>)

  /** A node message; the payload of a hello is sealed with the sender's key for its receiver. */
  datatype Message =
    | Hello(from: string, sealedWith: Key, nodes: seq<HelloNode>)
    | AckHello(from: string)
    | Other(from: string)

  datatype Packet = Packet(to: string, message: Message)

  function NodeOf(username: string, neighbor: Neighbor): HelloNode {
    HelloNode(username, neighbor.ip, neighbor.serverPort, neighbor.sendKey, neighbor.receiveKey)
  }

  /** The payload lists every neighbour exactly once, in some order. */
  ghost predicate Lists(nodes: seq<HelloNode>, table: Table) {
    && (forall i :: 0 <= i < |nodes| ==>
          nodes[i].username in table && nodes[i] == NodeOf(nodes[i].username, table[nodes[i].username]))
    && (forall i, j :: 0 <= i < j < |nodes| ==> nodes[i].username != nodes[j].username)
    && (forall name :: name in table ==> exists i :: 0 <= i < |nodes| && nodes[i].username == name)
  }

  /** The payload as its receiver reads it. */
  function AsRead(nodes: seq<HelloNode>): (read: seq<HelloNode>)
    ensures |read| == |nodes|
    ensures forall i :: 0 <= i < |nodes| ==> read[i] == nodes[i].(username := Garbled(nodes[i].username))
  {
    seq(|nodes|, i requires 0 <= i < |nodes| => nodes[i].(username := Garbled(nodes[i].username)))
  }

  // ---- the client's side ----

  /** The receive key that the payload holds for the client itself. */
  function OwnReceiveKey(nodes: seq<HelloNode>, identifier: string, port: int): Option<Key> {
    if nodes == [] then None
    else if nodes[0].username == identifier && nodes[0].port == port then nodes[0].receiveKey
    else OwnReceiveKey(nodes[1..], identifier, port)
  }

  /** The table after going through the payload: only unknown names are added. */
  function Expand(table: Table, identifier: string, port: int, nodes: seq<HelloNode>, receiveKey: Option<Key>): Table {
    if nodes == [] then table
    else
      var expanded := Expand(table, identifier, port, nodes[..|nodes| - 1], receiveKey);
      var node := nodes[|nodes| - 1];
      if node.username in expanded then expanded
      else AddNeighbor(expanded, identifier, port,
                       Introduced(node.username, node.ip, node.port, node.sendKey, receiveKey))
  }

  datatype ClientState = ClientState(identifier: string, port: int, table: Table)

  /** A client accepts a hello only as its first, from its one neighbour, and under the right key. */
  predicate Accepts(w: Wire, c: ClientState, message: Message, remoteAddress: string) {
    && message.Hello? && |c.table| == 1
    && var from := Arrives(w, message.from);
       && from.Some? && from.value in c.table
       && c.table[from.value].ip == remoteAddress && c.table[from.value].receiveKey == Some(message.sealedWith)
  }

  /** One message at a client: the new state and the acknowledgement it sends, if any. */
  function ClientHandle(w: Wire, c: ClientState, message: Message, remoteAddress: string)
    : (ClientState, Option<Packet>)
  {
    if !Accepts(w, c, message, remoteAddress) then (c, None)
    else
      var from := Arrives(w, message.from).value;
      (c.(table := ExpandAsRead(c.table, c.identifier, c.port, message.nodes)),
       if c.table[from].sendKey.None? then None else Some(Packet(from, AckHello(c.identifier))))
  }

  /** What a client makes of a payload: it looks for its own key, then adds whom it does not know. */
  function ExpandAsRead(table: Table, identifier: string, port: int, nodes: seq<HelloNode>): Table {
    Expand(table, identifier, port, AsRead(nodes), OwnReceiveKey(AsRead(nodes), identifier, port))
  }

  /** The own key is the receive key of the first entry with the node's name and port, and missing if there is none. */
  lemma {:induction false} OwnKeyIsFirst(nodes: seq<HelloNode>, identifier: string, port: int, i: nat)
    requires i <= |nodes| && forall j :: 0 <= j < i ==> nodes[j].username != identifier || nodes[j].port != port
    ensures i == |nodes| ==> OwnReceiveKey(nodes, identifier, port) == None
    ensures i < |nodes| && nodes[i].username == identifier && nodes[i].port == port ==>
              OwnReceiveKey(nodes, identifier, port) == nodes[i].receiveKey
    decreases i
  {
    if i > 0 {
      assert forall j :: 0 <= j < i - 1 ==> nodes[1..][j] == nodes[j + 1];
      OwnKeyIsFirst(nodes[1..], identifier, port, i - 1);
    }
  }

  /**
   * A client heeds a message exactly if it is a hello, the client knows a single node, the message is that
   * node's, comes from that node's address and is sealed with its receive key. It then expands its table
   * and acknowledges if it can; in every other case nothing changes and nothing is sent.
   */
  lemma HelloLaw(w: Wire, c: ClientState, message: Message, remoteAddress: string, host: string)
    requires c.table.Keys == {host}
    ensures var known, read := c.table[host], AsRead(if message.Hello? then message.nodes else []);
            ClientHandle(w, c, message, remoteAddress) ==
            if message.Hello? && Arrives(w, message.from) == Some(host) && known.ip == remoteAddress
               && known.receiveKey == Some(message.sealedWith)
            then (ClientState(c.identifier, c.port,
                              Expand(c.table, c.identifier, c.port, read, OwnReceiveKey(read, c.identifier, c.port))),
                  if known.sendKey.None? then None else Some(Packet(host, AckHello(c.identifier))))
            else (c, None)
  {
    assert |c.table| == |c.table.Keys| == 1;
  }

  /** A client that knows several nodes, or none, heeds no hello. */
  lemma LaterHelloLaw(w: Wire, c: ClientState, message: Message, remoteAddress: string)
    requires |c.table| != 1
    ensures ClientHandle(w, c, message, remoteAddress) == (c, None)
  {
  }

  predicate IsOther(identifier: string, port: int, node: HelloNode) {
    node.username != identifier || node.port != port
  }

  ghost function OtherNames(identifier: string, port: int, nodes: seq<HelloNode>): set<string> {
    set i | 0 <= i < |nodes| && IsOther(identifier, port, nodes[i]) :: nodes[i].username
  }

  /** Entry `i` is another node's, and the first of that name that is. */
  ghost predicate FirstOf(identifier: string, port: int, nodes: seq<HelloNode>, i: nat) {
    && i < |nodes| && IsOther(identifier, port, nodes[i])
    && forall j :: 0 <= j < i && IsOther(identifier, port, nodes[j]) ==> nodes[j].username != nodes[i].username
  }

  lemma {:induction false} ExpandedNames(table: Table, identifier: string, port: int, nodes: seq<HelloNode>,
                                         key: Option<Key>)
    ensures var t := Expand(table, identifier, port, nodes, key);
            && t.Keys == table.Keys + OtherNames(identifier, port, nodes)
            && (forall name :: name in table ==> t[name] == table[name])
  {
    if nodes != [] {
      var init, last := nodes[..|nodes| - 1], nodes[|nodes| - 1];
      ExpandedNames(table, identifier, port, init, key);
      assert OtherNames(identifier, port, nodes) ==
             OtherNames(identifier, port, init) + if IsOther(identifier, port, last) then {last.username} else {};
    }
  }

  lemma {:induction false} FirstEntryStays(table: Table, identifier: string, port: int, nodes: seq<HelloNode>,
                                           key: Option<Key>, i: nat)
    requires FirstOf(identifier, port, nodes, i) && nodes[i].username !in table
    ensures var t := Expand(table, identifier, port, nodes, key);
            && nodes[i].username in t
            && t[nodes[i].username] == Entry(nodes[i].ip, nodes[i].port, nodes[i].sendKey, key)
    decreases |nodes|
  {
    var init, last := nodes[..|nodes| - 1], nodes[|nodes| - 1];
    if i < |init| {
      FirstEntryStays(table, identifier, port, init, key, i);
    } else {
      ExpandedNames(table, identifier, port, init, key);
      assert last.username !in OtherNames(identifier, port, init);
    }
  }

  /**
   * Expansion, whatever the payload: exactly the listed names of other nodes are added, known names
   * keep their entries, and an unknown name gets the first entry that lists it, with the listed send
   * key and the client's own receive key.
   */
  lemma ExpandContents(table: Table, identifier: string, port: int, nodes: seq<HelloNode>, key: Option<Key>)
    ensures var t := Expand(table, identifier, port, nodes, key);
            && t.Keys == table.Keys + OtherNames(identifier, port, nodes)
            && (forall name :: name in table ==> t[name] == table[name])
            && (forall i: nat :: FirstOf(identifier, port, nodes, i) && nodes[i].username !in table ==>
                  && nodes[i].username in t
                  && t[nodes[i].username] ==
                     Neighbor(nodes[i].ip, nodes[i].port, nodes[i].sendKey, key, false, false, false, false))
  {
    ExpandedNames(table, identifier, port, nodes, key);
    var t := Expand(table, identifier, port, nodes, key);
    forall i: nat | FirstOf(identifier, port, nodes, i) && nodes[i].username !in table
      ensures nodes[i].username in t
      ensures t[nodes[i].username] ==
              Neighbor(nodes[i].ip, nodes[i].port, nodes[i].sendKey, key, false, false, false, false)
    {
      FirstEntryStays(table, identifier, port, nodes, key, i);
    }
  }

  class ClientNode {
    const wire: Wire
    const identifier: string
    const port: int
    var neighbors: Table

    ghost function Abstract(): ClientState
      reads this
    {
      ClientState(identifier, port, neighbors)
    }

    constructor (wire: Wire, identifier: string, port: int, neighbor: NodeInfo)
      ensures this.wire == wire
      ensures Abstract() == ClientState(identifier, port, AddNeighbor(map[], identifier, port, neighbor))
    {
      this.wire := wire;
      this.identifier := identifier;
      this.port := port;
      neighbors := AddNeighbor(map[], identifier, port, neighbor);
    }

    /**
     * The hello branch of the message handler; every other message is left to the message path. An
     * accepted hello makes the client connect to all its neighbours.
     */
    method HandleClientMessage(message: Message, remoteAddress: string)
      returns (send: Option<Packet>, connect: set<string>)
      modifies this
      ensures (Abstract(), send) == ClientHandle(wire, old(Abstract()), message, remoteAddress)
      ensures connect == if Accepts(wire, old(Abstract()), message, remoteAddress) then neighbors.Keys else {}
    {
      if !message.Hello? || |neighbors| != 1 {
        return None, {};
      }
      var from := Arrives(wire, message.from);
      if from.None? || from.value !in neighbors || neighbors[from.value].ip != remoteAddress {
        return None, {};
      }
      var sender := from.value;
      var neighbor := neighbors[sender];
      if neighbor.receiveKey != Some(message.sealedWith) {
        return None, {};
      }
      assert Accepts(wire, Abstract(), message, remoteAddress);
      hide Accepts, Arrives, Expand, OwnReceiveKey;
      var nodes := AsRead(message.nodes);
      AddUnknown(nodes, OwnReceiveKey(nodes, identifier, port));
      return if neighbor.sendKey.None? then None else Some(Packet(sender, AckHello(identifier))), neighbors.Keys;
    }

    /** The loop over the payload. */
    method AddUnknown(nodes: seq<HelloNode>, receiveKey: Option<Key>)
      modifies this
      ensures neighbors == Expand(old(neighbors), identifier, port, nodes, receiveKey)
    {
      var i := 0;
      while i < |nodes|
        invariant 0 <= i <= |nodes|
        invariant neighbors == Expand(old(neighbors), identifier, port, nodes[..i], receiveKey)
      {
        var node := nodes[i];
        assert nodes[..i + 1][..i] == nodes[..i];
        if node.username !in neighbors {
          neighbors := AddNeighbor(neighbors, identifier, port,
                                   Introduced(node.username, node.ip, node.port, node.sendKey, receiveKey));
        }
        i := i + 1;
      }
      assert nodes[..i] == nodes;
    }
  }

  // ---- the host's side ----

  /** `started` counts the session-started events. */
  datatype HostState = HostState(identifier: string, port: int, table: Table, acked: set<string>, started: nat)

  function HostHandle(w: Wire, h: HostState, message: Message, remoteAddress: string): HostState {
    var from := Arrives(w, message.from);
    if !message.AckHello? || from.None? || from.value !in h.table || h.table[from.value].ip != remoteAddress then h
    else
      var acked := h.acked + {from.value};
      if |acked| == |h.table| then h.(acked := {}, started := h.started + 1) else h.(acked := acked)
  }

  /**
   * The host counts a message exactly if it is an acknowledgement that arrives under the name of a
   * neighbour and from that neighbour's address; the last missing one starts the session and empties the
   * count.
   */
  lemma AckLaw(w: Wire, h: HostState, message: Message, remoteAddress: string)
    ensures var h' := HostHandle(w, h, message, remoteAddress);
            var from := Arrives(w, message.from);
            if message.AckHello? && from.Some? && from.value in h.table && h.table[from.value].ip == remoteAddress then
              if |h.acked + {from.value}| == |h.table|
              then h' == HostState(h.identifier, h.port, h.table, {}, h.started + 1)
              else h' == HostState(h.identifier, h.port, h.table, h.acked + {from.value}, h.started)
            else h' == h
  {
  }

  /** The hellos that go out: one for each neighbour that has a key. */
  ghost function Hellos(h: HostState, nodes: seq<HelloNode>): set<Packet> {
    set name | name in h.table && h.table[name].sendKey.Some? ::
      Packet(name, Hello(h.identifier, h.table[name].sendKey.value, nodes))
  }

  class ServerNode {
    const wire: Wire
    const identifier: string
    const port: int
    var neighbors: Table
    var ackedNeighbors: set<string>
    var started: nat

    ghost function Abstract(): HostState
      reads this
    {
      HostState(identifier, port, neighbors, ackedNeighbors, started)
    }

    constructor (wire: Wire, identifier: string, port: int, infos: seq<NodeInfo>)
      ensures this.wire == wire
      ensures Abstract() == HostState(identifier, port, AddAll(map[], identifier, port, infos), {}, 0)
    {
      this.wire := wire;
      this.identifier := identifier;
      this.port := port;
      ackedNeighbors := {};
      started := 0;
      neighbors := map[];
      new;
      var i := 0;
      while i < |infos|
        invariant 0 <= i <= |infos|
        invariant neighbors == AddAll(map[], identifier, port, infos[..i])
        invariant this.wire == wire && this.identifier == identifier && this.port == port
        invariant ackedNeighbors == {} && started == 0
      {
        assert infos[..i + 1][..i] == infos[..i];
        neighbors := AddNeighbor(neighbors, identifier, port, infos[i]);
        i := i + 1;
      }
      assert infos[..i] == infos;
    }

    method GenerateHelloMessage() returns (nodes: seq<HelloNode>)
      ensures Lists(nodes, neighbors)
      ensures forall i :: 0 <= i < |nodes| ==>
                var n := neighbors[nodes[i].username];
                nodes[i] == HelloNode(nodes[i].username, n.ip, n.serverPort, n.sendKey, n.receiveKey)
    {
      nodes := [];
      var rest := neighbors.Keys;
      while rest != {}
        invariant rest <= neighbors.Keys
        invariant forall i :: 0 <= i < |nodes| ==>
                    nodes[i].username in neighbors && nodes[i].username !in rest
                    && nodes[i] == NodeOf(nodes[i].username, neighbors[nodes[i].username])
        invariant forall i, j :: 0 <= i < j < |nodes| ==> nodes[i].username != nodes[j].username
        invariant forall name :: name in neighbors.Keys - rest ==>
                    exists i :: 0 <= i < |nodes| && nodes[i].username == name
        decreases |rest|
      {
        var username :| username in rest;
        ghost var before, left := nodes, rest;
        nodes := nodes + [NodeOf(username, neighbors[username])];
        rest := rest - {username};
        forall name | name in neighbors.Keys - rest
          ensures exists i :: 0 <= i < |nodes| && nodes[i].username == name
        {
          if name == username {
            assert nodes[|nodes| - 1].username == name;
          } else {
            assert name in neighbors.Keys - left;
            var i :| 0 <= i < |before| && before[i].username == name;
            assert nodes[i].username == name;
          }
        }
      }
      assert neighbors.Keys - rest == neighbors.Keys;
    }

    method SayHello() returns (nodes: seq<HelloNode>, packets: set<Packet>)
      ensures Lists(nodes, neighbors)
      ensures packets == Hellos(Abstract(), nodes)
      ensures packets == set name | name in neighbors && neighbors[name].sendKey.Some? ::
                           Packet(name, Hello(identifier, neighbors[name].sendKey.value, nodes))
    {
      nodes := GenerateHelloMessage();
      packets := {};
      var rest := neighbors.Keys;
      while rest != {}
        invariant rest <= neighbors.Keys
        invariant packets == set name | name in neighbors.Keys - rest && neighbors[name].sendKey.Some? ::
                               Packet(name, Hello(identifier, neighbors[name].sendKey.value, nodes))
        decreases |rest|
      {
        var username :| username in rest;
        if neighbors[username].sendKey.Some? {
          packets := packets + {Packet(username, Hello(identifier, neighbors[username].sendKey.value, nodes))};
        }
        rest := rest - {username};
      }
    }

    method HandleClientMessage(message: Message, remoteAddress: string)
      modifies this`ackedNeighbors, this`started
      ensures Abstract() == HostHandle(wire, old(Abstract()), message, remoteAddress)
    {
      if message.AckHello? {
        var from := Arrives(wire, message.from);
        if from.None? || from.value !in neighbors || neighbors[from.value].ip != remoteAddress {
          return;
        }
        ackedNeighbors := ackedNeighbors + {from.value};
        if |ackedNeighbors| == |neighbors| {
          started := started + 1;
          ackedNeighbors := {};
        }
      }
    }
  }

  // ---- the distributed system ----

  /**
   * A client: the key that the host has for it, if any, and what the client joined with: its own key and
   * the host's address as it was told.
   */
  datatype Member = Member(ip: string, port: int, key: Option<Key>, held: Key, hostIp: string)

  /** Who takes part: the host, under the name by which the clients know it, and the clients. */
  datatype Session = Session(host: string, hostPort: int, roster: map<string, Member>)

  /** Names are pairwise distinct, the host's included. */
  predicate Distinct(session: Session) { session.host !in session.roster }

  predicate AsciiRoster(session: Session) { forall c :: c in session.roster ==> AsciiName(c) }

  /** The names of a session that comes out of a join: the coordinator authenticates ASCII names only. */
  predicate Named(session: Session) { Distinct(session) && AsciiRoster(session) }

  /** Everything that must hold for the session to start. */
  ghost predicate CanStart(session: Session) {
    && session.roster != map[] && AsciiName(session.host) && Dialable(session.host, session.hostPort)
    && forall c :: c in session.roster ==> InStep(session, c) && Dialable(c, session.roster[c].port)
  }

  /** The host's key for a client is the one that the client holds. */
  predicate InStep(session: Session, name: string) {
    name in session.roster ==> session.roster[name].key == Some(session.roster[name].held)
  }

  datatype System = System(host: HostState, clients: map<string, ClientState>, packets: set<Packet>)

  function HostView(session: Session): Table {
    map name | name in session.roster ::
      Entry(session.roster[name].ip, session.roster[name].port, session.roster[name].key, session.roster[name].key)
  }

  /** What a client knows before the hello: the host, with the key it joined with. */
  function StarView(session: Session, c: string): Table
    requires c in session.roster
  {
    var key := Some(session.roster[c].held);
    map[session.host := Entry(session.roster[c].hostIp, session.hostPort, key, key)]
  }

  /** What a client knows in the mesh: it sends with the receiver's key and receives with its own. */
  function MeshView(session: Session, c: string): Table
    requires c in session.roster
  {
    (map name | name in session.roster && name != c ::
       Entry(session.roster[name].ip, session.roster[name].port, session.roster[name].key, session.roster[c].key))
    + StarView(session, c)
  }

  ghost function Start(session: Session): System {
    System(HostState(session.host, session.hostPort, HostView(session), {}, 0),
           map c | c in session.roster :: ClientState(c, session.roster[c].port, StarView(session, c)),
           {})
  }

  datatype Action =
    | SayHello(nodes: seq<HelloNode>)
    | Deliver(packet: Packet, remoteAddress: string)

  /**
   * What a node hands over for sending waits for its connection to the receiver, which never opens if the
   * certificate check refuses the receiver's name.
   */
  predicate Reaches(lib: Buffers, s: System, packet: Packet) {
    if packet.to == s.host.identifier then Opens(lib.certificate, packet.to, s.host.port)
    else packet.to in s.clients && Opens(lib.certificate, packet.to, s.clients[packet.to].port)
  }

  function Sent(lib: Buffers, s: System, packets: set<Packet>): set<Packet> {
    set p | p in packets && Reaches(lib, s, p)
  }

  /** One action; packets stay in flight, so they may be delivered late, in any order, or repeatedly. */
  ghost function Step(lib: Buffers, s: System, action: Action): System {
    match action
    case SayHello(nodes) =>
      if Lists(nodes, s.host.table) then s.(packets := s.packets + Sent(lib, s, Hellos(s.host, nodes))) else s
    case Deliver(packet, remoteAddress) =>
      if packet !in s.packets then s
      else if packet.to == s.host.identifier then s.(host := HostHandle(lib.tls, s.host, packet.message, remoteAddress))
      else if packet.to in s.clients then
        var (c, send) := ClientHandle(lib.tls, s.clients[packet.to], packet.message, remoteAddress);
        var acks := if send.Some? then {send.value} else {};
        s.(clients := s.clients[packet.to := c], packets := s.packets + Sent(lib, s, acks))
      else s
  }

  ghost function Exec(lib: Buffers, session: Session, actions: seq<Action>): System {
    if actions == [] then Start(session)
    else Step(lib, Exec(lib, session, actions[..|actions| - 1]), actions[|actions| - 1])
  }

  // ---- one hello ----

  lemma AsciiReadsAsWritten(session: Session, nodes: seq<HelloNode>)
    requires AsciiRoster(session) && Lists(nodes, HostView(session))
    ensures AsRead(nodes) == nodes
  {
    forall i | 0 <= i < |nodes|
      ensures AsRead(nodes)[i] == nodes[i]
    {
      assert nodes[i].username in HostView(session);
      GarbledIff(nodes[i].username);
    }
  }

  /** `n` is not ASCII, and no shorter than any other such name. */
  ghost predicate LongestIn(names: set<string>, n: string) {
    n in names && !AsciiName(n) && forall m :: m in names && !AsciiName(m) ==> |Units(m)| <= |Units(n)|
  }

  lemma {:induction false} LongestForeign(names: set<string>, n: string)
    requires n in names && !AsciiName(n)
    ensures exists longest :: LongestIn(names, longest)
    decreases |names|
  {
    hide AsciiName, Units;
    if m :| m in names && !AsciiName(m) && |Units(m)| > |Units(n)| {
      LongestForeign(names - {n}, m);
      var longest :| LongestIn(names - {n}, longest);
      assert LongestIn(names, longest);
    } else {
      assert LongestIn(names, n);
    }
  }

  /** The longest foreign name is read as a name that nobody has. */
  lemma ReadAsNobody(session: Session, n: string)
    requires AsciiName(session.host) && LongestIn(session.roster.Keys, n)
    ensures Garbled(n) !in Members(session)
  {
    GarbledIff(n);
    GarbledStaysForeign(n);
    hide AsciiName, Units, Garbled;
  }

  /** With a name outside ASCII in the roster, some name in the expansion is nobody's. */
  lemma ForeignNameSpoils(session: Session, c: string, nodes: seq<HelloNode>)
    requires Distinct(session) && AsciiName(session.host) && c in session.roster && Lists(nodes, HostView(session))
    requires !AsciiRoster(session)
    ensures ExpandAsRead(StarView(session, c), c, session.roster[c].port, nodes) != MeshView(session, c)
  {
    hide AsciiName, Units, Garbled, Expand, OtherNames;
    var foreign :| foreign in session.roster && !AsciiName(foreign);
    LongestForeign(session.roster.Keys, foreign);
    var n :| LongestIn(session.roster.Keys, n);
    ReadAsNobody(session, n);
    assert n in HostView(session);
    var i :| 0 <= i < |nodes| && nodes[i].username == n;
    var port, read := session.roster[c].port, AsRead(nodes);
    hide AsciiRoster, LongestIn, Lists, HostView;
    ExpandedNames(StarView(session, c), c, port, read, OwnReceiveKey(read, c, port));
    ListedIsOther(c, port, read, i);
    assert Garbled(n) !in MeshView(session, c).Keys;
  }

  lemma ListedIsOther(identifier: string, port: int, nodes: seq<HelloNode>, i: nat)
    requires i < |nodes| && nodes[i].username != identifier
    ensures nodes[i].username in OtherNames(identifier, port, nodes)
  {
  }

  /** What expansion makes of one name that the host lists, read as it was written. */
  lemma ListedEntry(session: Session, c: string, nodes: seq<HelloNode>, name: string)
    requires Distinct(session) && c in session.roster && Lists(nodes, HostView(session)) && name in session.roster
    ensures var member, port := session.roster[name], session.roster[c].port;
            var t := Expand(StarView(session, c), c, port, nodes, session.roster[c].key);
            && (name in t <==> name != c)
            && (name != c ==> t[name] == Entry(member.ip, member.port, member.key, session.roster[c].key))
  {
    var star, port, key := StarView(session, c), session.roster[c].port, session.roster[c].key;
    assert name in HostView(session);
    var j :| 0 <= j < |nodes| && nodes[j].username == name;
    assert nodes[j] == NodeOf(name, HostView(session)[name]);
    ExpandedNames(star, c, port, nodes, key);
    if name != c {
      FirstEntryStays(star, c, port, nodes, key, j);
    } else {
      assert forall i :: 0 <= i < |nodes| && nodes[i].username == c ==> i == j;
    }
  }

  lemma OwnKeyListed(session: Session, c: string, nodes: seq<HelloNode>)
    requires c in session.roster && Lists(nodes, HostView(session))
    ensures OwnReceiveKey(nodes, c, session.roster[c].port) == session.roster[c].key
  {
    assert c in HostView(session);
    var i :| 0 <= i < |nodes| && nodes[i].username == c;
    assert nodes[i] == NodeOf(c, HostView(session)[c]);
    OwnKeyIsFirst(nodes, c, session.roster[c].port, i);
  }

  lemma AsciiHelloMeshes(session: Session, c: string, nodes: seq<HelloNode>)
    requires Named(session) && c in session.roster && Lists(nodes, HostView(session))
    ensures ExpandAsRead(StarView(session, c), c, session.roster[c].port, nodes) == MeshView(session, c)
  {
    var port, key := session.roster[c].port, session.roster[c].key;
    AsciiReadsAsWritten(session, nodes);
    OwnKeyListed(session, c, nodes);
    var star, full := StarView(session, c), MeshView(session, c);
    var table := Expand(star, c, port, nodes, key);
    ExpandedNames(star, c, port, nodes, key);
    assert OtherNames(c, port, nodes) <= session.roster.Keys by {
      assert forall i :: 0 <= i < |nodes| ==> nodes[i].username in HostView(session);
    }
    assert ExpandAsRead(star, c, port, nodes) == table;
    hide Expand, ExpandAsRead, OtherNames, AsciiName, AsciiRoster, Lists, HostView;
    forall name
      ensures name in table <==> name in full
      ensures name in full ==> table[name] == full[name]
    {
      if name in session.roster {
        ListedEntry(session, c, nodes, name);
      }
    }
  }

  /**
   * A hello that its receiver accepts turns the star around the host into the full mesh exactly when
   * every name in the roster is ASCII.
   */
  lemma HelloMeshes(session: Session, c: string, nodes: seq<HelloNode>)
    requires Distinct(session) && AsciiName(session.host) && c in session.roster && Lists(nodes, HostView(session))
    ensures ExpandAsRead(StarView(session, c), c, session.roster[c].port, nodes) == MeshView(session, c)
            <==> AsciiRoster(session)
  {
    if AsciiRoster(session) {
      AsciiHelloMeshes(session, c, nodes);
    } else {
      ForeignNameSpoils(session, c, nodes);
    }
  }

  // ---- the invariant ----

  ghost predicate Meshed(session: Session, s: System, c: string)
    requires c in session.roster && c in s.clients
  {
    s.clients[c].table == MeshView(session, c)
  }

  /** A client that has accepted a hello, which takes an open connection, a readable host name and the right key. */
  ghost predicate Joined(session: Session, s: System, c: string)
    requires c in session.roster && c in s.clients
  {
    Meshed(session, s, c) && Fit(session, c)
  }

  /** What it takes for a hello of the host to reach a client and to be accepted. */
  predicate Fit(session: Session, c: string)
    requires c in session.roster
  {
    InStep(session, c) && AsciiName(session.host) && Dialable(c, session.roster[c].port)
  }

  ghost predicate GoodPacket(session: Session, s: System, packet: Packet) {
    match packet.message
    case Hello(from, key, nodes) =>
      && packet.to in session.roster && from == session.host
      && Some(key) == session.roster[packet.to].key && Lists(nodes, HostView(session))
      && Dialable(packet.to, session.roster[packet.to].port)
    case AckHello(from) =>
      && packet.to == session.host && Dialable(session.host, session.hostPort)
      && from in session.roster && from in s.clients && Joined(session, s, from)
    case Other(_) => false
  }

  ghost predicate GoodClient(session: Session, s: System, c: string)
    requires c in session.roster && c in s.clients
  {
    && s.clients[c].identifier == c && s.clients[c].port == session.roster[c].port
    && (s.clients[c].table == StarView(session, c) || Joined(session, s, c))
  }

  ghost predicate AllJoined(session: Session, s: System, names: set<string>)
    requires s.clients.Keys == session.roster.Keys
  {
    forall c :: c in names ==> c in session.roster && Joined(session, s, c)
  }

  ghost predicate SystemInv(session: Session, s: System) {
    && s.host.identifier == session.host && s.host.port == session.hostPort && s.host.table == HostView(session)
    && s.clients.Keys == session.roster.Keys
    && (forall c :: c in s.clients ==> GoodClient(session, s, c))
    && (forall p :: p in s.packets ==> GoodPacket(session, s, p))
    && AllJoined(session, s, s.host.acked)
    && (s.host.acked != {} || s.host.started > 0 ==> Dialable(session.host, session.hostPort))
    && (s.host.started > 0 ==> session.roster != map[] && AllJoined(session, s, session.roster.Keys))
  }

  lemma JoinedKept(session: Session, s: System, s': System)
    requires SystemInv(session, s)
    requires s'.clients.Keys == s.clients.Keys
    requires forall c :: c in s.clients ==> (Joined(session, s, c) ==> Joined(session, s', c))
    ensures forall p :: p in s.packets ==> GoodPacket(session, s', p)
  {
    forall p | p in s.packets
      ensures GoodPacket(session, s', p)
    {
      assert GoodPacket(session, s, p);
    }
  }

  lemma SentHelloIsGood(lib: Buffers, session: Session, s: System, nodes: seq<HelloNode>, packet: Packet)
    requires Named(session) && SystemInv(session, s) && Lists(nodes, s.host.table)
    requires packet in Sent(lib, s, Hellos(s.host, nodes))
    ensures GoodPacket(session, s, packet)
  {
    hide Opens, Dialable, Lists, AsciiName;
    var c := packet.to;
    assert c in s.clients && GoodClient(session, s, c);
    OpensIff(lib.certificate, c, s.clients[c].port);
    assert Dialable(c, session.roster[c].port);
    hide SystemInv, Joined;
  }

  lemma SayHelloKeepsInv(lib: Buffers, session: Session, s: System, nodes: seq<HelloNode>)
    requires Named(session) && SystemInv(session, s) && Lists(nodes, s.host.table)
    ensures SystemInv(session, Step(lib, s, SayHello(nodes)))
  {
    var hellos := Sent(lib, s, Hellos(s.host, nodes));
    forall p | p in hellos
      ensures GoodPacket(session, s, p)
    {
      SentHelloIsGood(lib, session, s, nodes, p);
    }
    assert Step(lib, s, SayHello(nodes)) == s.(packets := s.packets + hellos);
    hide Hellos, Sent;
    GoodPacketsJoin(session, s, hellos);
  }

  lemma GoodPacketsJoin(session: Session, s: System, packets: set<Packet>)
    requires SystemInv(session, s) && forall p :: p in packets ==> GoodPacket(session, s, p)
    ensures SystemInv(session, s.(packets := s.packets + packets))
  {
    var s' := s.(packets := s.packets + packets);
    hide MeshView, StarView, HostView, Lists, Fit;
    forall p | p in s'.packets
      ensures GoodPacket(session, s', p)
    {
      assert GoodPacket(session, s, p);
    }
    forall c | c in s'.clients
      ensures GoodClient(session, s', c)
    {
      assert GoodClient(session, s, c);
    }
  }

  /** An acknowledgement is heard under the name of the client that sent it. */
  lemma AckEffect(lib: Buffers, session: Session, s: System, packet: Packet, remoteAddress: string)
    requires Named(session) && SystemInv(session, s) && packet in s.packets && packet.to == session.host
    ensures var h, h' := s.host, HostHandle(lib.tls, s.host, packet.message, remoteAddress);
            || h' == h
            || (packet.message.AckHello? && packet.message.from in session.roster
                && Dialable(session.host, session.hostPort) && Joined(session, s, packet.message.from)
                && remoteAddress == session.roster[packet.message.from].ip
                && var acked := h.acked + {packet.message.from};
                   h' == if |acked| == |h.table| then h.(acked := {}, started := h.started + 1) else h.(acked := acked))
  {
    assert GoodPacket(session, s, packet);
    assert s.host.table == HostView(session);
    hide SystemInv, Arrives, Joined, Lists, Dialable;
    if packet.message.AckHello? {
      ArrivesIff(lib.tls, packet.message.from);
      assert AsciiName(packet.message.from);
      hide AsciiName, AsciiRoster;
    }
  }

  lemma HostKeepsInv(lib: Buffers, session: Session, s: System, packet: Packet, remoteAddress: string)
    requires Named(session) && SystemInv(session, s) && packet in s.packets && packet.to == session.host
    ensures SystemInv(session, Step(lib, s, Deliver(packet, remoteAddress)))
  {
    AckEffect(lib, session, s, packet, remoteAddress);
    var h := HostHandle(lib.tls, s.host, packet.message, remoteAddress);
    assert Step(lib, s, Deliver(packet, remoteAddress)) == s.(host := h);
    hide HostHandle, Step;
    if h != s.host {
      AckKeepsInv(session, s, packet.message.from, h);
    }
  }

  /** Nothing but the host's acknowledgements has changed, and all that are counted have joined. */
  lemma HostChanges(session: Session, s: System, h: HostState)
    requires SystemInv(session, s)
    requires h == s.host.(acked := h.acked, started := h.started) && AllJoined(session, s, h.acked)
    requires Dialable(session.host, session.hostPort)
    requires h.started > 0 ==> session.roster != map[] && AllJoined(session, s, session.roster.Keys)
    ensures SystemInv(session, s.(host := h))
  {
    var s' := s.(host := h);
    hide MeshView, StarView, HostView, AsciiName, Lists;
    JoinedKept(session, s, s');
    forall c | c in s'.clients
      ensures GoodClient(session, s', c)
    {
      assert GoodClient(session, s, c);
    }
  }

  lemma AckKeepsInv(session: Session, s: System, from: string, h: HostState)
    requires SystemInv(session, s) && from in session.roster && Joined(session, s, from)
    requires Dialable(session.host, session.hostPort)
    requires var acked := s.host.acked + {from};
             h == if |acked| == |s.host.table| then s.host.(acked := {}, started := s.host.started + 1)
                  else s.host.(acked := acked)
    ensures SystemInv(session, s.(host := h))
  {
    hide Joined, GoodClient, GoodPacket, InStep, AsciiName;
    var acked := s.host.acked + {from};
    assert s.host.table.Keys == session.roster.Keys && s.clients.Keys == session.roster.Keys;
    assert AllJoined(session, s, s.host.acked);
    assert s.host.started > 0 ==> session.roster != map[] && AllJoined(session, s, session.roster.Keys);
    hide SystemInv, HostView;
    assert acked <= session.roster.Keys && AllJoined(session, s, acked);
    if |acked| == |s.host.table| {
      SameSize(acked, session.roster.Keys);
    }
    HostChanges(session, s, h);
  }

  lemma SameSize<T>(a: set<T>, b: set<T>)
    requires a <= b && |a| == |b|
    ensures a == b
  {
    if x :| x in b && x !in a {
      assert a <= b - {x};
      Smaller(a, b - {x});
    }
  }

  lemma {:induction false} Smaller<T>(a: set<T>, b: set<T>)
    requires a <= b
    ensures |a| <= |b|
    decreases |a|
  {
    if x :| x in a {
      Smaller(a - {x}, b - {x});
    }
  }

  /** A delivery to a client changes nothing, or the client joins the mesh and sends its acknowledgement. */
  lemma ClientEffect(lib: Buffers, session: Session, s: System, packet: Packet, remoteAddress: string)
    requires Named(session) && SystemInv(session, s) && packet in s.packets && packet.to in s.clients
    ensures var c := packet.to;
            var (after, send) := ClientHandle(lib.tls, s.clients[c], packet.message, remoteAddress);
            || (after == s.clients[c] && send.None?)
            || (after == s.clients[c].(table := MeshView(session, c)) && send == Some(Packet(session.host, AckHello(c)))
                && Fit(session, c) && packet.message.Hello? && remoteAddress == session.roster[c].hostIp)
  {
    hide MeshView, ExpandAsRead, AsciiRoster, AsciiName, Arrives, Lists, HostView;
    var c := packet.to;
    assert GoodPacket(session, s, packet) && GoodClient(session, s, c);
    if packet.message.Hello? && |s.clients[c].table| == 1 {
      ArrivesIff(lib.tls, session.host);
      AsciiHelloMeshes(session, c, packet.message.nodes);
      if Joined(session, s, c) {
        StarOrBigger(session, c);
      }
      assert s.clients[c].table == StarView(session, c);
      hide SystemInv, GoodClient, GoodPacket, Joined;
    }
  }

  lemma MeshingKeepsInv(session: Session, s: System, s': System, c: string, acks: set<Packet>)
    requires Named(session) && SystemInv(session, s) && c in s.clients
    requires Fit(session, c) && acks <= {Packet(session.host, AckHello(c))}
    requires acks != {} ==> Dialable(session.host, session.hostPort)
    requires s' == s.(clients := s.clients[c := s.clients[c].(table := MeshView(session, c))],
                      packets := s.packets + acks)
    ensures SystemInv(session, s')
  {
    hide MeshView, StarView, HostView, Lists, AsciiName, AsciiRoster;
    forall d | d in s'.clients
      ensures GoodClient(session, s', d)
      ensures Joined(session, s, d) ==> Joined(session, s', d)
    {
      assert GoodClient(session, s, d);
    }
    JoinedKept(session, s, s');
    assert acks != {} ==> GoodPacket(session, s', Packet(session.host, AckHello(c)));
  }

  lemma ClientKeepsInv(lib: Buffers, session: Session, s: System, packet: Packet, remoteAddress: string)
    requires Named(session) && SystemInv(session, s) && packet in s.packets && packet.to in s.clients
    requires packet.to != session.host
    ensures SystemInv(session, Step(lib, s, Deliver(packet, remoteAddress)))
  {
    hide ClientHandle, MeshView, GoodClient, GoodPacket, Joined, AsciiName, AsciiRoster;
    var c := packet.to;
    var s' := Step(lib, s, Deliver(packet, remoteAddress));
    assert s.host.identifier == session.host && s.clients.Keys == session.roster.Keys;
    ClientEffect(lib, session, s, packet, remoteAddress);
    var (after, send) := ClientHandle(lib.tls, s.clients[c], packet.message, remoteAddress);
    hide SystemInv;
    if send.None? {
      assert s.clients[c := after] == s.clients && s.packets + Sent(lib, s, {}) == s.packets;
      assert s' == s;
    } else {
      var acks := Sent(lib, s, {send.value});
      OpensIff(lib.certificate, session.host, session.hostPort);
      assert acks != {} ==> Reaches(lib, s, send.value);
      MeshingKeepsInv(session, s, s', c, acks);
    }
  }

  /** A mesh view with a single entry is the star. */
  lemma StarOrBigger(session: Session, c: string)
    requires Distinct(session) && c in session.roster && |MeshView(session, c)| == 1
    ensures MeshView(session, c) == StarView(session, c)
  {
    var full := MeshView(session, c);
    assert session.host in full;
    assert {session.host} <= full.Keys;
    SameSize({session.host}, full.Keys);
    assert full.Keys == StarView(session, c).Keys;
  }

  lemma StepKeepsInv(lib: Buffers, session: Session, s: System, action: Action)
    requires Named(session) && SystemInv(session, s)
    ensures SystemInv(session, Step(lib, s, action))
  {
    match action {
      case SayHello(nodes) =>
        if Lists(nodes, s.host.table) {
          SayHelloKeepsInv(lib, session, s, nodes);
        }
      case Deliver(packet, remoteAddress) =>
        if packet in s.packets {
          if packet.to == session.host {
            HostKeepsInv(lib, session, s, packet, remoteAddress);
          } else if packet.to in s.clients {
            ClientKeepsInv(lib, session, s, packet, remoteAddress);
          }
        }
    }
  }

  lemma {:induction false} ExecKeepsInv(lib: Buffers, session: Session, actions: seq<Action>)
    requires Named(session)
    ensures SystemInv(session, Exec(lib, session, actions))
  {
    if actions != [] {
      ExecKeepsInv(lib, session, actions[..|actions| - 1]);
      StepKeepsInv(lib, session, Exec(lib, session, actions[..|actions| - 1]), actions[|actions| - 1]);
    }
  }

  // ---- what holds in every run ----

  function Members(session: Session): set<string> {
    session.roster.Keys + {session.host}
  }

  /** The table of a member, host or client. */
  ghost function TableOf(session: Session, s: System, name: string): Table
    requires name in Members(session) && s.clients.Keys == session.roster.Keys
  {
    if name == session.host then s.host.table else s.clients[name].table
  }

  lemma ViewsAreWhole(session: Session, c: string)
    requires Distinct(session)
    ensures HostView(session).Keys == Members(session) - {session.host}
    ensures c in session.roster ==> MeshView(session, c).Keys == Members(session) - {c}
  {
  }

  /**
   * The barrier: in every run, once the host has reported the session as started, every member's
   * table holds exactly the other members.
   */
  lemma Barrier(lib: Buffers, session: Session, actions: seq<Action>, name: string)
    requires Named(session) && name in Members(session)
    requires Exec(lib, session, actions).host.started > 0
    ensures Exec(lib, session, actions).clients.Keys == session.roster.Keys
    ensures TableOf(session, Exec(lib, session, actions), name).Keys == Members(session) - {name}
  {
    ExecKeepsInv(lib, session, actions);
    var s := Exec(lib, session, actions);
    assert name != session.host ==> Joined(session, s, name);
    hide Exec, AsciiRoster, SystemInv, HostView, MeshView;
    ViewsAreWhole(session, name);
  }

  /**
   * Who holds what once the session has started: a client sends to another with the other's key, receives
   * from it with its own, and shares its own key with the host.
   */
  lemma StartedEntries(lib: Buffers, session: Session, actions: seq<Action>, x: string, y: string)
    requires Named(session) && x in session.roster && y in session.roster
    requires Exec(lib, session, actions).host.started > 0
    ensures var s, m, n := Exec(lib, session, actions), session.roster[x], session.roster[y];
            && x in s.clients && y in s.host.table && session.host in s.clients[x].table
            && s.host.table[y] == Neighbor(n.ip, n.port, Some(n.held), Some(n.held), false, false, false, false)
            && s.clients[x].table[session.host] ==
               Neighbor(m.hostIp, session.hostPort, Some(m.held), Some(m.held), false, false, false, false)
            && (x != y ==>
                  && y in s.clients[x].table
                  && s.clients[x].table[y] ==
                     Neighbor(n.ip, n.port, Some(n.held), Some(m.held), false, false, false, false))
  {
    ExecKeepsInv(lib, session, actions);
    var s := Exec(lib, session, actions);
    hide Exec, AsciiRoster, GoodClient, GoodPacket, HostView, MeshView, StarView, Dialable;
    assert s.clients.Keys == session.roster.Keys && s.host.table == HostView(session);
    assert Joined(session, s, x) && Joined(session, s, y);
    assert s.clients[x].table == MeshView(session, x) && InStep(session, x) && InStep(session, y);
    hide SystemInv, Joined, AllJoined;
    MeshEntries(session, x, y);
  }

  lemma MeshEntries(session: Session, x: string, y: string)
    requires Distinct(session) && x in session.roster && y in session.roster && InStep(session, x) && InStep(session, y)
    ensures var m, n := session.roster[x], session.roster[y];
            var host, table := HostView(session), MeshView(session, x);
            && y in host && session.host in table
            && host[y] == Neighbor(n.ip, n.port, Some(n.held), Some(n.held), false, false, false, false)
            && table[session.host] ==
               Neighbor(m.hostIp, session.hostPort, Some(m.held), Some(m.held), false, false, false, false)
            && (x != y ==>
                  && y in table
                  && table[y] == Neighbor(n.ip, n.port, Some(n.held), Some(m.held), false, false, false, false))
  {
  }

  /** A session has started only if it can start. */
  lemma StartedCanStart(lib: Buffers, session: Session, actions: seq<Action>)
    requires Named(session) && Exec(lib, session, actions).host.started > 0
    ensures CanStart(session)
  {
    ExecKeepsInv(lib, session, actions);
    var s := Exec(lib, session, actions);
    hide Exec, AsciiName, AsciiRoster, Dialable;
    var c :| c in session.roster;
    assert Joined(session, s, c);
    forall d | d in session.roster
      ensures InStep(session, d) && Dialable(d, session.roster[d].port)
    {
      assert Joined(session, s, d);
    }
  }

  /** What a client's table may say about another member. */
  lemma ClientEntry(session: Session, s: System, c: string, name: string)
    requires Named(session) && SystemInv(session, s) && c in session.roster && name in s.clients[c].table
    ensures name in Members(session) && name != c
    ensures var entry, member := s.clients[c].table[name], session.roster[c];
            if name == session.host then entry.receiveKey == entry.sendKey == Some(member.held)
            else InStep(session, c) && entry.receiveKey == member.key && entry.sendKey == session.roster[name].key
  {
    assert GoodClient(session, s, c);
    hide AsciiName, AsciiRoster;
  }

  /**
   * Key agreement in every reachable state, started or not: when two members list each other, what one
   * sends with is what the other receives with, and not missing, exactly when the host's keys for the
   * two are those they hold. Between two clients that list each other this is always so.
   */
  lemma KeyAgreement(lib: Buffers, session: Session, actions: seq<Action>, x: string, y: string)
    requires Named(session) && x in Members(session) && y in Members(session)
    ensures var s := Exec(lib, session, actions);
            && s.clients.Keys == session.roster.Keys
            && var (tx, ty) := (TableOf(session, s, x), TableOf(session, s, y));
               y in tx && x in ty ==>
                 && (tx[y].sendKey.Some? && tx[y].sendKey == ty[x].receiveKey
                     <==> InStep(session, x) && InStep(session, y))
                 && (x in session.roster && y in session.roster ==> InStep(session, x) && InStep(session, y))
  {
    ExecKeepsInv(lib, session, actions);
    var s := Exec(lib, session, actions);
    hide Exec, AsciiName, AsciiRoster;
    if y in TableOf(session, s, x) && x in TableOf(session, s, y) {
      if x != session.host {
        ClientEntry(session, s, x, y);
      }
      if y != session.host {
        ClientEntry(session, s, y, x);
      }
    }
  }

  /** The address under which one member knows another. */
  function AddressOf(session: Session, viewer: string, name: string): string
    requires viewer in Members(session) && name in Members(session) && viewer != name
  {
    if name in session.roster then session.roster[name].ip else session.roster[viewer].hostIp
  }

  function PortOf(session: Session, name: string): int
    requires name in Members(session)
  {
    if name in session.roster then session.roster[name].port else session.hostPort
  }

  lemma ClientKnows(session: Session, s: System, c: string, y: string)
    requires Named(session) && SystemInv(session, s) && c in session.roster && y in s.clients[c].table
    ensures y in Members(session) && y != c
    ensures s.clients[c].table[y].ip == AddressOf(session, c, y)
    ensures s.clients[c].table[y].serverPort == PortOf(session, y)
  {
    hide AsciiRoster, Fit, GoodPacket, AllJoined, HostView;
    assert GoodClient(session, s, c);
  }

  /** Whatever a table lists, it lists with the member's own address and port. */
  lemma KnownAddress(lib: Buffers, session: Session, actions: seq<Action>, x: string, y: string)
    requires Named(session) && x in Members(session)
    ensures var s := Exec(lib, session, actions);
            && s.clients.Keys == session.roster.Keys
            && (y in TableOf(session, s, x) ==>
                  && y in Members(session) && y != x
                  && TableOf(session, s, x)[y].ip == AddressOf(session, x, y)
                  && TableOf(session, s, x)[y].serverPort == PortOf(session, y))
  {
    ExecKeepsInv(lib, session, actions);
    var s := Exec(lib, session, actions);
    hide Exec, AsciiRoster, GoodClient, GoodPacket, AllJoined;
    if x != session.host && y in s.clients[x].table {
      ClientKnows(session, s, x, y);
    }
  }

  /** A client's table, once expanded, is never changed again. */
  lemma {:induction false} MeshIsStable(lib: Buffers, session: Session, actions: seq<Action>, n: nat, c: string)
    requires Named(session) && c in session.roster && n <= |actions|
    requires c in Exec(lib, session, actions[..n]).clients && Meshed(session, Exec(lib, session, actions[..n]), c)
    ensures c in Exec(lib, session, actions).clients && Meshed(session, Exec(lib, session, actions), c)
    decreases |actions|
  {
    if n == |actions| {
      assert actions[..n] == actions;
    } else {
      var init, last := actions[..|actions| - 1], actions[|actions| - 1];
      assert init[..n] == actions[..n];
      MeshIsStable(lib, session, init, n, c);
      ExecKeepsInv(lib, session, init);
      StableStep(lib, session, Exec(lib, session, init), last, c);
    }
  }

  lemma StableStep(lib: Buffers, session: Session, s: System, action: Action, c: string)
    requires Named(session) && SystemInv(session, s) && c in session.roster && Meshed(session, s, c)
    ensures c in Step(lib, s, action).clients && Meshed(session, Step(lib, s, action), c)
  {
    hide ClientHandle, MeshView, HostHandle, Hellos, Sent, Lists, AsciiRoster, GoodClient, GoodPacket, AllJoined;
    assert s.clients.Keys == session.roster.Keys;
    if action.Deliver? && action.packet in s.packets && action.packet.to == c {
      ClientEffect(lib, session, s, action.packet, action.remoteAddress);
    }
    hide SystemInv;
  }

  // ---- the order of acknowledgements ----

  ghost function FirstNames(order: seq<string>, n: nat): set<string>
    requires n <= |order|
  {
    set i | 0 <= i < n :: order[i]
  }

  lemma FirstNamesGrow(order: seq<string>, n: nat)
    requires n < |order|
    ensures FirstNames(order, n + 1) == FirstNames(order, n) + {order[n]}
  {
  }

  ghost predicate Distinctly(order: seq<string>, names: set<string>) {
    && (forall i, j :: 0 <= i < j < |order| ==> order[i] != order[j])
    && names == FirstNames(order, |order|)
  }

  /** The effect of the next acknowledgement in an order of all names. */
  lemma NextAck(w: Wire, h: HostState, order: seq<string>, n: nat)
    requires n < |order| && Distinctly(order, h.table.Keys) && AsciiName(order[n])
    requires h.acked == FirstNames(order, n)
    ensures order[n] in h.table
    ensures HostHandle(w, h, AckHello(order[n]), h.table[order[n]].ip) ==
            if n + 1 == |order| then h.(acked := {}, started := h.started + 1)
            else h.(acked := FirstNames(order, n + 1))
  {
    ArrivesIff(w, order[n]);
    FirstNamesGrow(order, n);
    assert order[n] in FirstNames(order, |order|);
    DistinctCount(order, n + 1);
    DistinctCount(order, |order|);
    hide AsciiName, Arrives, FirstNames, Distinctly;
    var acked := h.acked + {order[n]};
    assert |acked| == n + 1 && |h.table.Keys| == |order|;
  }

  /**
   * The acknowledgements of all clients, delivered once each in any order, report the session as
   * started exactly once, with the last of them.
   */
  lemma {:induction false} AcksInAnyOrder(w: Wire, h: HostState, order: seq<string>, n: nat)
    requires h.acked == {} && n <= |order| && Distinctly(order, h.table.Keys)
    requires forall i :: 0 <= i < |order| ==> AsciiName(order[i])
    ensures DeliverAcks(w, h, order[..n]) ==
            if n == |order| > 0 then h.(started := h.started + 1) else h.(acked := FirstNames(order, n))
    decreases n
  {
    if n == 0 {
      assert FirstNames(order, 0) == {};
    } else {
      hide HostHandle, AsciiName, FirstNames, Distinctly;
      AcksInAnyOrder(w, h, order, n - 1);
      assert order[..n][..n - 1] == order[..n - 1];
      NextAck(w, h.(acked := FirstNames(order, n - 1)), order, n - 1);
    }
  }

  ghost function DeliverAcks(w: Wire, h: HostState, order: seq<string>): HostState {
    if order == [] then h
    else
      var h' := DeliverAcks(w, h, order[..|order| - 1]);
      var name := order[|order| - 1];
      if name in h'.table then HostHandle(w, h', AckHello(name), h'.table[name].ip) else h'
  }

  lemma {:induction false} DistinctCount(order: seq<string>, n: nat)
    requires n <= |order|
    requires forall i, j :: 0 <= i < j < |order| ==> order[i] != order[j]
    ensures |FirstNames(order, n)| == n
  {
    if n > 0 {
      DistinctCount(order, n - 1);
      FirstNamesGrow(order, n - 1);
    }
  }
}

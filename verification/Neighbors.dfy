/** The neighbour table that every node keeps, and how an entry gets into it. */
module Neighbors {
  import opened Wrappers
  import opened Srp
  import opened Coordinator

  datatype Neighbor = Neighbor(ip: string, serverPort: int, sendKey: Option<Key>, receiveKey: Option<Key>,
                               disconnected: bool, softDisconnected: bool, serverSoftDisconnected: bool,
                               rebuildingSocket: bool)

  /** A node to add: with one key for both directions, or with one for each. */
  datatype NodeInfo =
    | Handshaken(userName: string, ip: string, port: int, key: Option<Key>)
    | Introduced(userName: string, ip: string, port: int, sendKey: Option<Key>, receiveKey: Option<Key>)

  type Table = map<string, Neighbor>

  function Entry(ip: string, port: int, sendKey: Option<Key>, receiveKey: Option<Key>): Neighbor {
    Neighbor(ip, port, sendKey, receiveKey, false, false, false, false)
  }

  function EntryOf(info: NodeInfo): Neighbor {
    match info
    case Handshaken(_, ip, port, key) => Entry(ip, port, key, key)
    case Introduced(_, ip, port, sendKey, receiveKey) => Entry(ip, port, sendKey, receiveKey)
  }

  /** A node recognises itself by name and port together. */
  predicate IsSelf(identifier: string, port: int, info: NodeInfo) {
    info.userName == identifier && info.port == port
  }

  /** A node never adds itself. */
  function AddNeighbor(table: Table, identifier: string, port: int, info: NodeInfo): Table {
    if IsSelf(identifier, port, info) then table else table[info.userName := EntryOf(info)]
  }

  function AddAll(table: Table, identifier: string, port: int, infos: seq<NodeInfo>): Table {
    if infos == [] then table
    else AddNeighbor(AddAll(table, identifier, port, infos[..|infos| - 1]), identifier, port, infos[|infos| - 1])
  }

  // ---- from the coordinator's export to the host's table ----

  /** The mapping in `startP2PSession`; a null or undefined key stays undefined. */
  function ToNodeInfo(exported: Exported): NodeInfo {
    Handshaken(exported.userName, exported.ip, exported.port,
               if exported.serverSessionKey.Present? then Some(exported.serverSessionKey.key) else None)
  }

  function ToNodeInfos(list: seq<Exported>): (infos: seq<NodeInfo>)
    ensures |infos| == |list| && forall i :: 0 <= i < |list| ==> infos[i] == ToNodeInfo(list[i])
  {
    seq(|list|, i requires 0 <= i < |list| => ToNodeInfo(list[i]))
  }

  /** Entry `i` is another node's, and the last of that name that is. */
  ghost predicate LastOf(identifier: string, port: int, infos: seq<NodeInfo>, i: nat) {
    && i < |infos| && !IsSelf(identifier, port, infos[i])
    && forall j :: i < j < |infos| && !IsSelf(identifier, port, infos[j]) ==> infos[j].userName != infos[i].userName
  }

  /** The names under which other nodes are listed. */
  ghost function Names(identifier: string, port: int, infos: seq<NodeInfo>): set<string> {
    set i | 0 <= i < |infos| && !IsSelf(identifier, port, infos[i]) :: infos[i].userName
  }

  /** The table holds every listed name once, entries for the node itself aside. */
  lemma {:induction false} TableNames(identifier: string, port: int, infos: seq<NodeInfo>)
    ensures AddAll(map[], identifier, port, infos).Keys == Names(identifier, port, infos)
  {
    if infos != [] {
      var init, last := infos[..|infos| - 1], infos[|infos| - 1];
      TableNames(identifier, port, init);
      assert Names(identifier, port, infos) ==
             Names(identifier, port, init) + if IsSelf(identifier, port, last) then {} else {last.userName};
    }
  }

  /** A user listed more than once is left with its last entry. */
  lemma {:induction false} LastEntryStays(identifier: string, port: int, infos: seq<NodeInfo>, i: nat)
    requires LastOf(identifier, port, infos, i)
    ensures infos[i].userName in AddAll(map[], identifier, port, infos)
    ensures AddAll(map[], identifier, port, infos)[infos[i].userName] == EntryOf(infos[i])
    decreases |infos|
  {
    if i < |infos| - 1 {
      LastEntryStays(identifier, port, infos[..|infos| - 1], i);
    }
  }

  lemma InfoOf(cfg: Config, inputs: seq<Input>, i: nat)
    requires i < |Run(cfg, inputs).authenticated|
    ensures var info := Run(cfg, inputs).authenticated[i];
            ToNodeInfos(Export(Run(cfg, inputs)))[i]
            == Handshaken(info.userName, info.ip, info.port, LatestKey(cfg, inputs, info.userName))
  {
    var s := Run(cfg, inputs);
    ExportIsCorrect(cfg, inputs, i);
    var latest := LatestKey(cfg, inputs, s.authenticated[i].userName);
    hide Run, LatestKey;
    var infos := ToNodeInfos(Export(s));
    assert infos[i] == ToNodeInfo(Export(s)[i]);
    assert latest == if latest.None? then None else Some(latest.value);
  }

  /** The names of the authenticated clients, without any that is the node itself. */
  function AuthenticatedNames(identifier: string, port: int, s: State): set<string> {
    set i | 0 <= i < |s.authenticated| && !IsItself(identifier, port, s.authenticated[i]) :: s.authenticated[i].userName
  }

  predicate IsItself(identifier: string, port: int, info: Info) {
    info.userName == identifier && info.port == port
  }

  lemma NamesOfExport(identifier: string, port: int, s: State)
    ensures Names(identifier, port, ToNodeInfos(Export(s))) == AuthenticatedNames(identifier, port, s)
  {
    var infos := ToNodeInfos(Export(s));
    assert forall i :: 0 <= i < |infos| ==>
      infos[i].userName == s.authenticated[i].userName && infos[i].port == s.authenticated[i].port;
  }

  /** Client `i` is not the node itself, and the last of its name that is not. */
  ghost predicate LastClient(identifier: string, port: int, clients: seq<Info>, i: nat) {
    && i < |clients| && !IsItself(identifier, port, clients[i])
    && forall j :: i < j < |clients| && !IsItself(identifier, port, clients[j]) ==>
         clients[j].userName != clients[i].userName
  }

  /**
   * The host's table after any run of the coordinator: one entry for each authenticated name, with
   * the address and port of the name's last authentication and the key of its latest success.
   */
  lemma HostTable(cfg: Config, inputs: seq<Input>, identifier: string, port: int, i: nat)
    requires LastClient(identifier, port, Run(cfg, inputs).authenticated, i)
    ensures var s := Run(cfg, inputs);
            var table := AddAll(map[], identifier, port, ToNodeInfos(Export(s)));
            var info, key := s.authenticated[i], LatestKey(cfg, inputs, s.authenticated[i].userName);
            && table.Keys == AuthenticatedNames(identifier, port, s)
            && info.userName in table
            && table[info.userName] == Neighbor(info.ip, info.port, key, key, false, false, false, false)
  {
    var s := Run(cfg, inputs);
    var infos := ToNodeInfos(Export(s));
    hide Run, Export, ToNodeInfos, LatestKey;
    NamesOfExport(identifier, port, s);
    TableNames(identifier, port, infos);
    forall j | 0 <= j < |infos|
      ensures infos[j].userName == s.authenticated[j].userName && infos[j].port == s.authenticated[j].port
    {
      InfoOf(cfg, inputs, j);
    }
    InfoOf(cfg, inputs, i);
    LastEntryStays(identifier, port, infos, i);
  }
}

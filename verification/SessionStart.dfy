/**
 * From the join phase to a started session: what the coordinator exports is what the mesh starts
 * from, and the exact condition under which the session can start.
 */
module SessionStart {
  import opened Wrappers
  import opened Neighbors
  import opened Transport
  import opened Certificate
  import opened Mesh
  import Coordinator
  import Handshake

  // ---- the table ----

  /** The roster says of every authenticated name what its last authentication and latest success say. */
  ghost predicate RosterFits(cfg: Coordinator.Config, inputs: seq<Coordinator.Input>, session: Session) {
    var s := Coordinator.Run(cfg, inputs);
    && session.roster.Keys == AuthenticatedNames(session.host, session.hostPort, s)
    && forall i: nat :: LastClient(session.host, session.hostPort, s.authenticated, i) ==>
         FitsClient(cfg, inputs, session.roster, s.authenticated[i])
  }

  ghost predicate FitsClient(cfg: Coordinator.Config, inputs: seq<Coordinator.Input>, roster: map<string, Member>,
                             info: Coordinator.Info)
  {
    && info.userName in roster
    && roster[info.userName].ip == info.ip && roster[info.userName].port == info.port
    && roster[info.userName].key == Coordinator.LatestKey(cfg, inputs, info.userName)
  }

  lemma {:induction false} LastExists(host: string, port: int, clients: seq<Coordinator.Info>, i: nat)
    requires i < |clients| && !IsItself(host, port, clients[i])
    ensures exists k: nat :: LastClient(host, port, clients, k) && clients[k].userName == clients[i].userName
    decreases |clients| - i
  {
    if !LastClient(host, port, clients, i) {
      var j: nat :| i < j < |clients| && !IsItself(host, port, clients[j])
                    && clients[j].userName == clients[i].userName;
      LastExists(host, port, clients, j);
    }
  }

  /**
   * After any run of the coordinator, the host's constructor fed with the export gives exactly the
   * table from which a session with the fitting roster starts, keys that are missing included.
   */
  lemma ExportStartsSession(cfg: Coordinator.Config, inputs: seq<Coordinator.Input>, session: Session)
    requires RosterFits(cfg, inputs, session)
    ensures AddAll(map[], session.host, session.hostPort, ToNodeInfos(Coordinator.Export(Coordinator.Run(cfg, inputs))))
         == HostView(session)
  {
    hide RosterFits, AddAll, ToNodeInfos, Coordinator.Export, Coordinator.Run;
    var infos := ToNodeInfos(Coordinator.Export(Coordinator.Run(cfg, inputs)));
    var table := AddAll(map[], session.host, session.hostPort, infos);
    HostNames(cfg, inputs, session);
    forall name | name in session.roster
      ensures name in table && table[name] == HostView(session)[name]
    {
      HostEntry(cfg, inputs, session, name);
    }
    assert table.Keys == HostView(session).Keys;
  }

  lemma HostNames(cfg: Coordinator.Config, inputs: seq<Coordinator.Input>, session: Session)
    requires RosterFits(cfg, inputs, session)
    ensures var infos := ToNodeInfos(Coordinator.Export(Coordinator.Run(cfg, inputs)));
            AddAll(map[], session.host, session.hostPort, infos).Keys == session.roster.Keys
  {
    var s := Coordinator.Run(cfg, inputs);
    TableNames(session.host, session.hostPort, ToNodeInfos(Coordinator.Export(s)));
    NamesOfExport(session.host, session.hostPort, s);
    hide AddAll, Names, AuthenticatedNames, ToNodeInfos, Coordinator.Export, Coordinator.Run, FitsClient;
  }

  lemma HostEntry(cfg: Coordinator.Config, inputs: seq<Coordinator.Input>, session: Session, name: string)
    requires RosterFits(cfg, inputs, session) && name in session.roster
    ensures var s := Coordinator.Run(cfg, inputs);
            var table := AddAll(map[], session.host, session.hostPort, ToNodeInfos(Coordinator.Export(s)));
            name in table && table[name] == HostView(session)[name]
  {
    var s := Coordinator.Run(cfg, inputs);
    var i :| 0 <= i < |s.authenticated| && !IsItself(session.host, session.hostPort, s.authenticated[i])
             && s.authenticated[i].userName == name;
    LastExists(session.host, session.hostPort, s.authenticated, i);
    var k: nat :| LastClient(session.host, session.hostPort, s.authenticated, k) && s.authenticated[k].userName == name;
    HostTable(cfg, inputs, session.host, session.hostPort, k);
    assert FitsClient(cfg, inputs, session.roster, s.authenticated[k]);
  }

  // ---- every run that delivers starts the session ----

  function AckOf(session: Session, c: string): Action
    requires c in session.roster
  {
    Deliver(Packet(session.host, AckHello(c)), session.roster[c].ip)
  }

  /** Action `i` delivers a hello that is in flight to the client, from the address it has for the host. */
  ghost predicate HelloAt(lib: Buffers, session: Session, actions: seq<Action>, i: nat, c: string)
    requires i < |actions| && c in session.roster
  {
    && actions[i].Deliver? && actions[i].packet.to == c && actions[i].packet.message.Hello?
    && actions[i].remoteAddress == session.roster[c].hostIp
    && actions[i].packet in Exec(lib, session, actions[..i]).packets
  }

  /** A hello is delivered to the client, and later its acknowledgement from the client's address. */
  ghost predicate Served(lib: Buffers, session: Session, actions: seq<Action>, c: string)
    requires c in session.roster
  {
    exists i: nat, j: nat ::
      i < j < |actions| && HelloAt(lib, session, actions, i, c) && actions[j] == AckOf(session, c)
  }

  ghost predicate Announced(session: Session, s: System, c: string) {
    Packet(session.host, AckHello(c)) in s.packets
  }

  predicate Counted(s: System, c: string) { s.host.started > 0 || c in s.host.acked }

  /** A client that knows more than the host has announced it, and the barrier never stands at its limit. */
  ghost predicate BarrierInv(session: Session, s: System) {
    && SystemInv(session, s)
    && (forall c :: c in session.roster ==> s.clients[c].table == StarView(session, c) || Announced(session, s, c))
    && (s.host.started == 0 ==> s.host.acked != session.roster.Keys)
  }

  /** Nothing that is in flight is lost, and no acknowledgement is forgotten before the start. */
  ghost predicate Grows(s: System, s': System) {
    s.packets <= s'.packets && forall c :: Counted(s, c) ==> Counted(s', c)
  }

  lemma AckIsSent(lib: Buffers, session: Session, s: System, c: string)
    requires CanStart(session) && SystemInv(session, s)
    ensures var ack := Packet(session.host, AckHello(c)); Sent(lib, s, {ack}) == {ack}
  {
    AsciiOpens(lib.certificate, session.host, session.hostPort);
    hide Opens, Dialable, AsciiName, GoodClient, GoodPacket;
  }

  lemma ClientStep(lib: Buffers, session: Session, s: System, packet: Packet, remoteAddress: string)
    requires Named(session) && CanStart(session) && BarrierInv(session, s)
    requires packet in s.packets && packet.to in s.clients
    ensures var s' := Step(lib, s, Deliver(packet, remoteAddress)); BarrierInv(session, s') && Grows(s, s')
  {
    hide ClientHandle, Sent, MeshView, StarView, Fit, GoodClient, GoodPacket, AllJoined, AsciiRoster, CanStart;
    var s', c := Step(lib, s, Deliver(packet, remoteAddress)), packet.to;
    assert c != s.host.identifier && s.clients.Keys == session.roster.Keys;
    StepKeepsInv(lib, session, s, Deliver(packet, remoteAddress));
    ClientEffect(lib, session, s, packet, remoteAddress);
    AckIsSent(lib, session, s, c);
    hide SystemInv;
    var (after, send) := ClientHandle(lib.tls, s.clients[c], packet.message, remoteAddress);
    assert s'.host == s.host && s'.clients == s.clients[c := after];
    assert s'.packets == s.packets + Sent(lib, s, if send.Some? then {send.value} else {});
    hide Step;
  }

  lemma HostStep(lib: Buffers, session: Session, s: System, packet: Packet, remoteAddress: string)
    requires Named(session) && CanStart(session) && BarrierInv(session, s)
    requires packet in s.packets && packet.to == session.host
    ensures var s' := Step(lib, s, Deliver(packet, remoteAddress)); BarrierInv(session, s') && Grows(s, s')
  {
    hide HostHandle, StarView, HostView, Fit, Joined, GoodClient, GoodPacket, AllJoined, AsciiRoster;
    var s' := Step(lib, s, Deliver(packet, remoteAddress));
    StepKeepsInv(lib, session, s, Deliver(packet, remoteAddress));
    AckEffect(lib, session, s, packet, remoteAddress);
    assert s' == s.(host := HostHandle(lib.tls, s.host, packet.message, remoteAddress));
    TableSize(session, s);
    hide SystemInv, Step, Dialable, CanStart;
  }

  lemma TableSize(session: Session, s: System)
    requires SystemInv(session, s)
    ensures |s.host.table| == |session.roster.Keys|
  {
    hide GoodClient, GoodPacket, AllJoined;
    assert s.host.table.Keys == session.roster.Keys;
  }

  lemma BarrierStep(lib: Buffers, session: Session, s: System, action: Action)
    requires Named(session) && CanStart(session) && BarrierInv(session, s)
    ensures BarrierInv(session, Step(lib, s, action)) && Grows(s, Step(lib, s, action))
  {
    match action {
      case SayHello(nodes) =>
        StepKeepsInv(lib, session, s, action);
        hide SystemInv, Sent, Hellos, StarView, Lists;
      case Deliver(packet, remoteAddress) =>
        assert s.host.identifier == session.host;
        hide BarrierInv, Named, CanStart, HostHandle, ClientHandle, Sent;
        if packet in s.packets {
          if packet.to == session.host {
            HostStep(lib, session, s, packet, remoteAddress);
          } else if packet.to in s.clients {
            ClientStep(lib, session, s, packet, remoteAddress);
          }
        }
    }
  }

  lemma BarrierAtStart(lib: Buffers, session: Session)
    requires Named(session) && CanStart(session)
    ensures BarrierInv(session, Exec(lib, session, []))
  {
    ExecKeepsInv(lib, session, []);
    hide SystemInv, StarView, HostView, Named;
  }

  lemma {:induction false} BarrierRun(lib: Buffers, session: Session, actions: seq<Action>, n: nat)
    requires Named(session) && CanStart(session) && n <= |actions|
    ensures BarrierInv(session, Exec(lib, session, actions))
    ensures Grows(Exec(lib, session, actions[..n]), Exec(lib, session, actions))
    decreases |actions|
  {
    hide BarrierInv, Step, Named, CanStart;
    if actions == [] {
      BarrierAtStart(lib, session);
      assert actions[..n] == actions;
    } else {
      var init := actions[..|actions| - 1];
      var m := if n < |actions| then n else n - 1;
      BarrierRun(lib, session, init, m);
      BarrierStep(lib, session, Exec(lib, session, init), actions[|actions| - 1]);
      assert init[..m] == actions[..m];
      assert n == |actions| ==> actions[..n] == actions;
    }
  }

  /** A hello that is delivered makes its receiver announce that it has joined, unless it has before. */
  lemma HelloIsAnswered(lib: Buffers, session: Session, s: System, packet: Packet)
    requires Named(session) && CanStart(session) && BarrierInv(session, s)
    requires packet in s.packets && packet.to in session.roster && packet.message.Hello?
    ensures Announced(session, Step(lib, s, Deliver(packet, session.roster[packet.to].hostIp)), packet.to)
  {
    hide AsciiName, Arrives, Lists, Sent, ExpandAsRead, MeshView, HostView, Dialable, Joined, AllJoined;
    var c, hostIp := packet.to, session.roster[packet.to].hostIp;
    assert GoodPacket(session, s, packet) && InStep(session, c);
    assert s.clients.Keys == session.roster.Keys && c != s.host.identifier && GoodClient(session, s, c);
    ArrivesIff(lib.tls, session.host);
    AckIsSent(lib, session, s, c);
    hide SystemInv, Named, CanStart;
    if !Announced(session, s, c) {
      assert Accepts(lib.tls, s.clients[c], packet.message, hostIp);
      assert ClientHandle(lib.tls, s.clients[c], packet.message, hostIp).1 == Some(Packet(session.host, AckHello(c)));
    }
  }

  lemma AnswerIsCounted(lib: Buffers, session: Session, s: System, c: string)
    requires Named(session) && CanStart(session) && BarrierInv(session, s)
    requires c in session.roster && Announced(session, s, c)
    ensures Counted(Step(lib, s, AckOf(session, c)), c)
  {
    hide AsciiName, CanStart, GoodPacket, GoodClient, AllJoined, StarView, HostHandle;
    assert s.host.identifier == session.host && c in s.host.table && s.host.table[c].ip == session.roster[c].ip;
    assert AsciiName(c);
    hide SystemInv, BarrierInv, AsciiRoster, HostView;
    AckIsHeard(lib.tls, s.host, c);
    assert Step(lib, s, AckOf(session, c)).host == HostHandle(lib.tls, s.host, AckHello(c), session.roster[c].ip);
  }

  lemma AckIsHeard(w: Wire, h: HostState, c: string)
    requires AsciiName(c) && c in h.table
    ensures var h' := HostHandle(w, h, AckHello(c), h.table[c].ip); h'.started > 0 || c in h'.acked
  {
    ArrivesIff(w, c);
    hide Arrives, AsciiName;
  }

  lemma ServedIsCounted(lib: Buffers, session: Session, actions: seq<Action>, c: string)
    requires Named(session) && CanStart(session) && c in session.roster && Served(lib, session, actions, c)
    ensures Counted(Exec(lib, session, actions), c)
  {
    hide Exec, Step, Named, CanStart, BarrierInv;
    var i: nat, j: nat :|
      i < j < |actions| && HelloAt(lib, session, actions, i, c) && actions[j] == AckOf(session, c);
    BarrierRun(lib, session, actions[..i], 0);
    HelloIsAnswered(lib, session, Exec(lib, session, actions[..i]), actions[i].packet);
    ExecNext(lib, session, actions, i);
    BarrierRun(lib, session, actions[..j], i + 1);
    assert actions[..j][..i + 1] == actions[..i + 1];
    AnswerIsCounted(lib, session, Exec(lib, session, actions[..j]), c);
    ExecNext(lib, session, actions, j);
    BarrierRun(lib, session, actions, j + 1);
  }

  lemma ExecNext(lib: Buffers, session: Session, actions: seq<Action>, n: nat)
    requires n < |actions|
    ensures Exec(lib, session, actions[..n + 1]) == Step(lib, Exec(lib, session, actions[..n]), actions[n])
  {
    assert actions[..n + 1][..n] == actions[..n];
  }

  /**
   * Whenever the session can start, it does: every run that delivers to each client a hello, and later
   * its acknowledgement to the host, in any order, with any other deliveries and repetitions between
   * them, reports the session as started.
   */
  lemma EveryServedRunStarts(lib: Buffers, session: Session, actions: seq<Action>)
    requires Named(session) && CanStart(session)
    requires forall c :: c in session.roster ==> Served(lib, session, actions, c)
    ensures Exec(lib, session, actions).host.started > 0
  {
    hide Exec, CanStart, Named, Served, SystemInv, AllJoined;
    var s := Exec(lib, session, actions);
    BarrierRun(lib, session, actions, 0);
    forall c | c in session.roster
      ensures Counted(s, c)
    {
      ServedIsCounted(lib, session, actions, c);
    }
    AckedAreMembers(session, s);
    assert s.host.started == 0 ==> s.host.acked == session.roster.Keys;
  }

  lemma AckedAreMembers(session: Session, s: System)
    requires SystemInv(session, s)
    ensures s.host.acked <= session.roster.Keys
  {
    hide Joined, GoodClient, GoodPacket;
    assert AllJoined(session, s, s.host.acked);
  }

  // ---- and no other run does ----

  /** Some action before the end delivered a hello to the client from the address it has for the host. */
  ghost predicate Greeted(lib: Buffers, session: Session, actions: seq<Action>, c: string)
    requires c in session.roster
  {
    exists i: nat :: i < |actions| && HelloAt(lib, session, actions, i, c)
  }

  lemma GreetedStays(lib: Buffers, session: Session, actions: seq<Action>, n: nat, c: string)
    requires c in session.roster && n <= |actions| && Greeted(lib, session, actions[..n], c)
    ensures Greeted(lib, session, actions, c)
  {
    var i: nat :| i < n && HelloAt(lib, session, actions[..n], i, c);
    assert actions[..n][..i] == actions[..i];
    hide Exec;
    assert HelloAt(lib, session, actions, i, c);
  }

  lemma ServedStays(lib: Buffers, session: Session, actions: seq<Action>, n: nat, c: string)
    requires c in session.roster && n <= |actions| && Served(lib, session, actions[..n], c)
    ensures Served(lib, session, actions, c)
  {
    var i: nat, j: nat :|
      i < j < n && HelloAt(lib, session, actions[..n], i, c) && actions[..n][j] == AckOf(session, c);
    assert actions[..n][..i] == actions[..i];
    hide Exec;
    assert HelloAt(lib, session, actions, i, c) && actions[j] == AckOf(session, c);
  }

  lemma ChangeNeedsHello(lib: Buffers, session: Session, s: System, action: Action, c: string)
    requires Named(session) && SystemInv(session, s) && c in session.roster
    ensures var s' := Step(lib, s, action);
            && s'.clients.Keys == session.roster.Keys
            && (|| s'.clients[c].table != s.clients[c].table
                || (Announced(session, s', c) && !Announced(session, s, c)) ==>
                  && action.Deliver? && action.packet in s.packets && action.packet.to == c
                  && action.packet.message.Hello? && action.remoteAddress == session.roster[c].hostIp)
  {
    hide ClientHandle, HostHandle, MeshView, StarView, Fit, GoodClient, GoodPacket, AllJoined, AsciiRoster, Reaches;
    assert s.clients.Keys == session.roster.Keys && s.host.identifier == session.host;
    if action.Deliver? && action.packet in s.packets && action.packet.to in s.clients {
      ClientEffect(lib, session, s, action.packet, action.remoteAddress);
    }
    hide SystemInv;
  }

  /** Whoever has left the star, or acknowledges, was sent a hello from the address it has for the host. */
  lemma {:induction false} LeftStarByHello(lib: Buffers, session: Session, actions: seq<Action>, c: string)
    requires Named(session) && c in session.roster
    ensures var s := Exec(lib, session, actions);
            && s.clients.Keys == session.roster.Keys
            && (s.clients[c].table != StarView(session, c) || Announced(session, s, c) ==>
                  Greeted(lib, session, actions, c))
  {
    if actions != [] {
      var init, last := actions[..|actions| - 1], actions[|actions| - 1];
      LeftStarByHello(lib, session, init, c);
      ExecKeepsInv(lib, session, init);
      var s := Exec(lib, session, init);
      ChangeNeedsHello(lib, session, s, last, c);
      hide Exec, Step, SystemInv, StarView, Named;
      if Greeted(lib, session, init, c) {
        GreetedStays(lib, session, actions, |actions| - 1, c);
      } else if last.Deliver? && last.packet in s.packets && last.packet.to == c && last.packet.message.Hello?
                && last.remoteAddress == session.roster[c].hostIp {
        assert HelloAt(lib, session, actions, |actions| - 1, c);
      }
    }
  }

  /** All that the host has counted, and everybody once it has reported the start, was served. */
  ghost predicate CountedAreServed(lib: Buffers, session: Session, actions: seq<Action>) {
    forall c :: c in session.roster && Counted(Exec(lib, session, actions), c) ==> Served(lib, session, actions, c)
  }

  /** The host's state after it has counted `c`. */
  function Count(session: Session, h: HostState, c: string): HostState {
    var acked := h.acked + {c};
    if |acked| == |session.roster.Keys| then h.(acked := {}, started := h.started + 1) else h.(acked := acked)
  }

  /** The host's count grows only with an acknowledgement in flight, delivered from its client's address. */
  lemma CountNeedsAck(lib: Buffers, session: Session, s: System, action: Action)
    requires Named(session) && SystemInv(session, s)
    ensures var h, h' := s.host, Step(lib, s, action).host;
            || h' == h
            || exists c :: c in session.roster && action == AckOf(session, c) && Announced(session, s, c)
                           && h' == Count(session, h, c)
  {
    hide ClientHandle, HostHandle, MeshView, StarView, Fit, GoodClient, AllJoined, AsciiRoster, HostView, Sent;
    if action.Deliver? && action.packet in s.packets && action.packet.to == s.host.identifier {
      AckEffect(lib, session, s, action.packet, action.remoteAddress);
      TableSize(session, s);
      var h' := HostHandle(lib.tls, s.host, action.packet.message, action.remoteAddress);
      if h' != s.host {
        var c := action.packet.message.from;
        assert action == AckOf(session, c) && h' == Count(session, s.host, c);
      }
    }
  }

  /** Counting one client makes no other count. */
  lemma CountsOne(session: Session, s: System, s': System, d: string, c: string)
    requires s.host.acked <= session.roster.Keys && d in session.roster && c in session.roster
    requires s'.host == Count(session, s.host, d) && Counted(s', c) && !Counted(s, c)
    ensures c == d
  {
    var acked := s.host.acked + {d};
    if |acked| == |session.roster.Keys| {
      SameSize(acked, session.roster.Keys);
    }
  }

  lemma {:induction false} OnlyServedCount(lib: Buffers, session: Session, actions: seq<Action>)
    requires Named(session)
    ensures CountedAreServed(lib, session, actions)
  {
    if actions != [] {
      OnlyServedCount(lib, session, actions[..|actions| - 1]);
      hide Exec, Served, Counted;
      forall c | c in session.roster && Counted(Exec(lib, session, actions), c)
        ensures Served(lib, session, actions, c)
      {
        NewlyServed(lib, session, actions, c);
      }
    }
  }

  lemma NewlyServed(lib: Buffers, session: Session, actions: seq<Action>, c: string)
    requires Named(session) && actions != [] && CountedAreServed(lib, session, actions[..|actions| - 1])
    requires c in session.roster && Counted(Exec(lib, session, actions), c)
    ensures Served(lib, session, actions, c)
  {
    hide Step, SystemInv, Served, Named, Announced, Counted;
    var n := |actions| - 1;
    var s := Exec(lib, session, actions[..n]);
    assert Counted(s, c) ==> Served(lib, session, actions[..n], c);
    assert Exec(lib, session, actions) == Step(lib, s, actions[n]);
    hide Exec, CountedAreServed;
    if Counted(s, c) {
      ServedStays(lib, session, actions, n, c);
    } else {
      ExecKeepsInv(lib, session, actions[..n]);
      CountedByItsAck(lib, session, s, actions[n], c);
      AckServes(lib, session, actions, c);
    }
  }

  /** A client is newly counted by its own acknowledgement alone. */
  lemma CountedByItsAck(lib: Buffers, session: Session, s: System, action: Action, c: string)
    requires Named(session) && SystemInv(session, s) && c in session.roster
    requires !Counted(s, c) && Counted(Step(lib, s, action), c)
    ensures action == AckOf(session, c) && Announced(session, s, c)
  {
    hide Step, SystemInv, Named, Announced, Count, Counted;
    var s' := Step(lib, s, action);
    AckedAreMembers(session, s);
    CountNeedsAck(lib, session, s, action);
    SameHostSameCount(s, s', c);
    var d :| d in session.roster && action == AckOf(session, d) && Announced(session, s, d)
             && s'.host == Count(session, s.host, d);
    CountsOne(session, s, s', d, c);
  }

  lemma SameHostSameCount(s: System, s': System, c: string)
    ensures s'.host == s.host ==> (Counted(s', c) <==> Counted(s, c))
  {
  }

  /** The delivery of an acknowledgement completes what it takes to be served. */
  lemma AckServes(lib: Buffers, session: Session, actions: seq<Action>, c: string)
    requires Named(session) && c in session.roster && actions != []
    requires var init := actions[..|actions| - 1];
             actions[|actions| - 1] == AckOf(session, c) && Announced(session, Exec(lib, session, init), c)
    ensures Served(lib, session, actions, c)
  {
    var n := |actions| - 1;
    LeftStarByHello(lib, session, actions[..n], c);
    hide Exec, Announced, Named;
    var i: nat :| i < n && HelloAt(lib, session, actions[..n], i, c);
    assert actions[..n][..i] == actions[..i];
    assert HelloAt(lib, session, actions, i, c);
  }

  /**
   * The exact runs that start the session, when it can start: those that deliver a hello to every client
   * from the address it has for the host, and later its acknowledgement from its own address.
   */
  lemma StartsExactlyWhenServed(lib: Buffers, session: Session, actions: seq<Action>)
    requires Named(session) && CanStart(session)
    ensures Exec(lib, session, actions).host.started > 0 <==>
              forall c :: c in session.roster ==> Served(lib, session, actions, c)
  {
    OnlyServedCount(lib, session, actions);
    hide Exec, Named, CanStart, Served;
    if forall c :: c in session.roster ==> Served(lib, session, actions, c) {
      EveryServedRunStarts(lib, session, actions);
    }
  }

  // ---- such a run exists ----

  lemma {:induction false} ListingExists(table: Table, names: set<string>) returns (nodes: seq<HelloNode>)
    requires names <= table.Keys
    ensures forall i :: 0 <= i < |nodes| ==>
              nodes[i].username in names && nodes[i] == NodeOf(nodes[i].username, table[nodes[i].username])
    ensures forall i, j :: 0 <= i < j < |nodes| ==> nodes[i].username != nodes[j].username
    ensures forall name :: name in names ==> exists i :: 0 <= i < |nodes| && nodes[i].username == name
    decreases |names|
  {
    if names == {} {
      nodes := [];
    } else {
      var name :| name in names;
      var rest := ListingExists(table, names - {name});
      nodes := rest + [NodeOf(name, table[name])];
      forall other | other in names
        ensures exists i :: 0 <= i < |nodes| && nodes[i].username == other
      {
        if other == name {
          assert nodes[|rest|].username == name;
        } else {
          assert other in names - {name};
          var i :| 0 <= i < |rest| && rest[i].username == other;
          assert nodes[i].username == other;
        }
      }
    }
  }

  function HelloTo(session: Session, nodes: seq<HelloNode>, c: string): Action
    requires c in session.roster
  {
    Deliver(Packet(c, Hello(session.host, session.roster[c].held, nodes)), session.roster[c].hostIp)
  }

  /** The host says hello; every listed client is reached, and then every one is heard. */
  function Script(session: Session, nodes: seq<HelloNode>): seq<Action>
    requires forall i :: 0 <= i < |nodes| ==> nodes[i].username in session.roster
  {
    [SayHello(nodes)]
    + seq(|nodes|, i requires 0 <= i < |nodes| => HelloTo(session, nodes, nodes[i].username))
    + seq(|nodes|, i requires 0 <= i < |nodes| => AckOf(session, nodes[i].username))
  }

  /** Once the host has said hello, every client's hello is in flight. */
  lemma HelloIsSent(lib: Buffers, session: Session, nodes: seq<HelloNode>, c: string)
    requires Named(session) && CanStart(session) && Lists(nodes, HostView(session)) && c in session.roster
    ensures HelloTo(session, nodes, c).packet in Exec(lib, session, [SayHello(nodes)]).packets
  {
    hide Opens, Lists, AsciiName, Dialable, ExpandAsRead;
    var packet := HelloTo(session, nodes, c).packet;
    assert InStep(session, c) && Dialable(c, session.roster[c].port) && AsciiName(c);
    AsciiOpens(lib.certificate, c, session.roster[c].port);
    assert [SayHello(nodes)][..0] == [];
    var s := Start(session);
    assert Exec(lib, session, [SayHello(nodes)]) == Step(lib, s, SayHello(nodes));
    hide Exec, Named, CanStart;
    assert c in s.host.table && s.host.table[c].sendKey == Some(session.roster[c].held);
    assert packet in Hellos(s.host, nodes);
    assert Reaches(lib, s, packet);
  }

  lemma ScriptServes(lib: Buffers, session: Session, nodes: seq<HelloNode>, i: nat)
    requires Named(session) && CanStart(session) && Lists(nodes, HostView(session)) && i < |nodes|
    requires forall i :: 0 <= i < |nodes| ==> nodes[i].username in session.roster
    ensures Served(lib, session, Script(session, nodes), nodes[i].username)
  {
    hide Exec, Named, CanStart, Lists, BarrierInv;
    var c, script := nodes[i].username, Script(session, nodes);
    var hello, ack := 1 + i, 1 + |nodes| + i;
    assert script[hello] == HelloTo(session, nodes, c) && script[ack] == AckOf(session, c);
    assert script[..hello][..1] == [SayHello(nodes)];
    hide Script;
    HelloIsSent(lib, session, nodes, c);
    BarrierRun(lib, session, script[..hello], 1);
    assert HelloAt(lib, session, script, hello, c);
  }

  /**
   * Some run reports the session as started exactly when there is a client, the host's name is ASCII,
   * every name can be dialed, and the host has for every client the key that the client holds.
   */
  lemma StartsIff(lib: Buffers, session: Session)
    requires Named(session)
    ensures (exists actions :: Exec(lib, session, actions).host.started > 0) <==> CanStart(session)
  {
    if actions :| Exec(lib, session, actions).host.started > 0 {
      StartedCanStart(lib, session, actions);
    }
    if CanStart(session) {
      var nodes := ListingExists(HostView(session), HostView(session).Keys);
      forall i | 0 <= i < |nodes|
        ensures nodes[i].username in session.roster
      {
        assert nodes[i].username in HostView(session);
      }
      assert Lists(nodes, HostView(session));
      forall c | c in session.roster
        ensures Served(lib, session, Script(session, nodes), c)
      {
        assert c in HostView(session).Keys;
        var i :| 0 <= i < |nodes| && nodes[i].username == c;
        ScriptServes(lib, session, nodes, i);
      }
      EveryServedRunStarts(lib, session, Script(session, nodes));
    }
  }

  /** With a client named a:b no run starts the session: the host's connection to it never opens. */
  lemma ColonBlocksSession(lib: Buffers, session: Session, actions: seq<Action>)
    requires Named(session) && "a:b" in session.roster
    ensures Exec(lib, session, actions).host.started == 0
  {
    assert "a:b"[1] == ':';
    if Exec(lib, session, actions).host.started > 0 {
      StartedCanStart(lib, session, actions);
    }
  }

  /** If an authenticated client registers again before the session is started, the session cannot start. */
  lemma RegisteringAgainBlocks(cfg: Coordinator.Config, inputs: seq<Coordinator.Input>, i: nat,
                               again: Coordinator.Input, lib: Buffers, session: Session, actions: seq<Action>)
    requires i < |Coordinator.Run(cfg, inputs).authenticated|
    requires var info := Coordinator.Run(cfg, inputs).authenticated[i];
             && !IsItself(session.host, session.hostPort, info)
             && again.Message? && again.ip == info.ip
             && again.request.Handshake1? && again.request.username == info.userName
    requires Named(session) && RosterFits(cfg, inputs + [again], session)
    ensures Exec(lib, session, actions).host.started == 0
  {
    var clients := Coordinator.Run(cfg, inputs).authenticated;
    var salt, A := again.request.salt, again.request.clientEphemeralPublic;
    Coordinator.RegisteringAgainLosesKey(cfg, inputs, i, salt, A, again.localAddress, again.b);
    Coordinator.ExportIsCorrect(cfg, inputs + [again], i);
    LastExists(session.host, session.hostPort, clients, i);
    hide Coordinator.Run, Coordinator.LatestKey, Coordinator.Export, Exec, AsciiName;
    var k: nat :| LastClient(session.host, session.hostPort, clients, k) && clients[k].userName == clients[i].userName;
    assert FitsClient(cfg, inputs + [again], session.roster, clients[k]);
    assert !InStep(session, clients[i].userName);
    if Exec(lib, session, actions).host.started > 0 {
      StartedCanStart(lib, session, actions);
    }
  }

  // ---- the whole way ----

  /**
   * Client `c` joined in attempt `id`, last of its name; it holds the key it resolved with, knows the
   * host's address from there, and listens on the port it announced.
   */
  ghost predicate JoinedBy(s: Handshake.System, session: Session, c: string, id: nat) {
    && c in session.roster && Handshake.ResolvedLast(s, id)
    && var attempt, member := s.attempts[id], session.roster[c];
       && attempt.identifier == c && attempt.nodePort == member.port
       && attempt.result.value.key == member.held
       && attempt.result.value.info.Some? && attempt.result.value.info.value.ip == member.hostIp
  }

  /** The session of a run of the join phase: the host under the coordinator's name, the clients as they joined. */
  ghost predicate ComesFrom(cfg: Coordinator.Config, lib: Buffers, joins: seq<Handshake.Action>, session: Session) {
    && session.host == cfg.sessionName && session.hostPort == cfg.nodePort
    && Distinct(session) && RosterFits(cfg, Handshake.ServerInputs(cfg, lib, joins), session)
    && forall c :: c in session.roster ==> exists id :: JoinedBy(Handshake.Exec(cfg, lib, joins), session, c, id)
  }

  /** What a client node is constructed with is what its attempt resolved with, and gives it the star. */
  lemma JoinedClientKnowsHost(cfg: Coordinator.Config, lib: Buffers, joins: seq<Handshake.Action>, session: Session,
                              c: string, id: nat)
    requires ComesFrom(cfg, lib, joins, session) && JoinedBy(Handshake.Exec(cfg, lib, joins), session, c, id)
    ensures var result := Handshake.Exec(cfg, lib, joins).attempts[id].result.value;
            var info := result.info.value;
            var node := Handshaken(info.userName, info.ip, info.port, Some(result.key));
            AddNeighbor(map[], c, session.roster[c].port, node) == StarView(session, c)
  {
    Handshake.ResolvedKnowsSession(cfg, lib, joins, id);
    hide Handshake.Exec, RosterFits;
  }

  /**
   * From the first message to the start: in a session that comes out of a run of the join phase names are
   * fit for the mesh and host and clients are in step. It can start exactly when somebody joined, the
   * host's name is ASCII and its port can be connected to, and so can every client's, whose name must
   * hold no colon.
   */
  lemma JoinedSessionStarts(cfg: Coordinator.Config, lib: Buffers, joins: seq<Handshake.Action>, session: Session)
    requires ComesFrom(cfg, lib, joins, session)
    ensures Named(session) && forall c :: c in session.roster ==> InStep(session, c)
    ensures (exists actions :: Exec(lib, session, actions).host.started > 0) <==>
              && session.roster != map[] && AsciiName(session.host) && IsPort(session.hostPort)
              && forall c :: c in session.roster ==> Dialable(c, session.roster[c].port)
  {
    hide AsciiName, Exec, Handshake.Exec, RosterFits;
    forall c | c in session.roster
      ensures AsciiName(c) && InStep(session, c) && ':' !in session.host
    {
      JoinedInStep(cfg, lib, joins, session, c);
      var id :| JoinedBy(Handshake.Exec(cfg, lib, joins), session, c, id);
      Handshake.ResolvedKnowsSession(cfg, lib, joins, id);
    }
    if c :| c in session.roster {
      assert ':' !in session.host;
    }
    StartsIff(lib, session);
  }

  lemma JoinedInStep(cfg: Coordinator.Config, lib: Buffers, joins: seq<Handshake.Action>, session: Session, c: string)
    requires RosterFits(cfg, Handshake.ServerInputs(cfg, lib, joins), session)
    requires c in session.roster && exists id :: JoinedBy(Handshake.Exec(cfg, lib, joins), session, c, id)
    ensures AsciiName(c) && InStep(session, c)
  {
    var inputs := Handshake.ServerInputs(cfg, lib, joins);
    var s := Coordinator.Run(cfg, inputs);
    var id :| JoinedBy(Handshake.Exec(cfg, lib, joins), session, c, id);
    Handshake.JoinedKeyIsLatest(cfg, lib, joins, id);
    Handshake.ServerIsARun(cfg, lib, joins);
    var i :| 0 <= i < |s.authenticated| && !IsItself(session.host, session.hostPort, s.authenticated[i])
             && s.authenticated[i].userName == c;
    Handshake.AuthenticatedAreAscii(cfg, lib, joins, s.authenticated[i]);
    hide AsciiName, Coordinator.Run, Handshake.Exec, Coordinator.LatestKey;
    LastExists(session.host, session.hostPort, s.authenticated, i);
    var k: nat :| LastClient(session.host, session.hostPort, s.authenticated, k) && s.authenticated[k].userName == c;
    assert FitsClient(cfg, inputs, session.roster, s.authenticated[k]);
  }
}

/**
 * The two-round join handshake between one coordinator and any number of client attempts over a
 * network that may delay, reorder, repeat and lose messages, and deliver a reply to any client. Names in
 * the clients' messages travel raw, so the server may read another name or nothing. A client whose
 * certificate check refuses the server sends nothing.
 */
module Handshake {
  import opened Wrappers
  import opened ModArith
  import opened Srp
  import opened Coordinator
  import opened Transport
  import opened Certificate

  /** The error and authenticated events of a client. */
  datatype ClientEvent = Failed | Authenticated

  /** One call of `start`: its SRP client, whether its promise has resolved, and the events so far. */
  datatype Attempt = Attempt(identifier: string, password: string, salt: string, a: nat, nodePort: int,
                             session: Option<Session>, result: Option<JoinResult>, emitted: seq<ClientEvent>)

  /** The information is null when the sealed answer could not be decrypted. */
  datatype JoinResult = JoinResult(info: Option<Info>, key: Key)

  function PrivateKey(G: Group, c: Attempt): nat {
    DerivePrivateKey(G, c.salt, c.identifier, c.password)
  }

  function FirstMessage(G: Group, c: Attempt): Request {
    Handshake1(c.identifier, c.salt, ClientPublic(G, c.a))
  }

  /** A request as the server parses it: its name travels raw, everything else in it is ASCII. */
  function Arriving(w: Wire, request: Request): Request {
    if request.Unparsable? then request
    else
      var name := Arrives(w, request.username);
      if name.None? then Unparsable else request.(username := name.value)
  }

  /** What parsing the sealed answer gives: an exception, null, or the information with the name as it was read. */
  datatype Parsed = Unreadable | Null | Read(info: Info)

  function Open(w: Wire, key: Key, sealed: Sealed): Parsed {
    if sealed.key != key then Null
    else
      var name := Unsealed(w, sealed.info.userName);
      if name.None? then Unreadable else Read(sealed.info.(userName := name.value))
  }

  function Emit(c: Attempt, event: ClientEvent): Attempt {
    c.(emitted := c.emitted + [event])
  }

  /** What a client does with one reply: its new state and the message it sends. */
  function Receive(G: Group, w: Wire, c: Attempt, reply: Reply): (Attempt, Option<Request>) {
    match reply
    case Silence => (c, None)
    case Challenge(B) =>
      var session := DeriveClientSession(G, c.a, B, c.salt, c.identifier, PrivateKey(G, c));
      if session.None? then (c, None)
      else (c.(session := session), Some(Handshake2(session.value.proof, c.identifier, c.nodePort)))
    case Welcome(sealed, serverProof) =>
      if !Verifies(G, c.a, c.session, serverProof) then (Emit(c, Failed), None)
      else
        var key := c.session.value.key;
        var parsed := Open(w, key, sealed);
        if parsed.Unreadable? then (c, None)
        else if c.result.Some? then (Emit(c, Authenticated), None)
        else
          var info := if parsed.Null? then None else Some(parsed.info);
          (Emit(c, Authenticated).(result := Some(JoinResult(info, key))), None)
    case _ => (Emit(c, Failed), None)
  }

  /** The client side as the class whose fields the callbacks of `start` rewrite. */
  class CoordinatorClient {
    const identifier: string
    const nodePort: int
    const buffer: Wire
    const srpClient: SRPClient
    var result: Option<JoinResult>
    var emitted: seq<ClientEvent>

    ghost function Abstract(): Attempt
      reads this, srpClient
    {
      Attempt(identifier, srpClient.password, srpClient.salt, srpClient.secret, nodePort, srpClient.clientSession,
              result, emitted)
    }

    ghost predicate Valid() {
      && srpClient.username == identifier
      && srpClient.privateKey == DerivePrivateKey(srpClient.G, srpClient.salt, identifier, srpClient.password)
    }

    constructor (G: Group, buffer: Wire, identifier: string, password: string, salt: string, a: nat, nodePort: int)
      ensures Valid() && fresh(srpClient) && srpClient.G == G && this.buffer == buffer
      ensures Abstract() == Attempt(identifier, password, salt, a, nodePort, None, None, [])
    {
      this.identifier := identifier;
      this.nodePort := nodePort;
      this.buffer := buffer;
      srpClient := new SRPClient(G, identifier, password, salt, a);
      result := None;
      emitted := [];
    }

    /** The data callback. The sealed information is decrypted only after the server's proof verifies. */
    method OnData(reply: Reply) returns (send: Option<Request>)
      requires Valid()
      modifies this, srpClient
      ensures Valid()
      ensures (Abstract(), send) == Receive(srpClient.G, buffer, old(Abstract()), reply)
    {
      send := None;
      match reply {
        case Silence =>
        case Challenge(serverEphemeralKey) =>
          var sessionProof := srpClient.DeriveSessionKey(serverEphemeralKey);
          if sessionProof.Some? {
            send := Some(Handshake2(sessionProof.value, identifier, nodePort));
          }
        case Welcome(sealed, serverProof) =>
          var verified := srpClient.VerifySession(serverProof);
          if !verified {
            emitted := emitted + [Failed];
          } else {
            var key := srpClient.clientSession.value.key;
            var parsed := Open(buffer, key, sealed);
            if !parsed.Unreadable? {
              emitted := emitted + [Authenticated];
              if result.None? {
                result := Some(JoinResult(if parsed.Null? then None else Some(parsed.info), key));
              }
            }
          }
        case _ =>
          emitted := emitted + [Failed];
      }
    }
  }

  // ---- what each reply does to a client ----

  /** Every refusal, and an answer whose proof does not verify, is reported as an error and nothing else. */
  lemma RefusalsAreReported(G: Group, w: Wire, c: Attempt, reply: Reply)
    requires || reply.NameTaken? || reply.NotRegistered? || reply.AddressMismatch? || reply.OutOfOrder?
             || reply.TooManyAttempts? || reply.Unverified?
             || (reply.Welcome? && !(c.session.Some? &&
                   reply.serverProof == ServerProof(Pow(G.g, c.a) % G.N, c.session.value.proof, c.session.value.key)))
    ensures Receive(G, w, c, reply) == (c.(emitted := c.emitted + [Failed]), None)
  {
  }

  /**
   * A challenge is answered with a proof over the client's own values, unless the server's value is zero
   * modulo N; it reports nothing.
   */
  lemma ChallengesAreAnswered(G: Group, w: Wire, c: Attempt, B: nat)
    ensures var A := Pow(G.g, c.a) % G.N;
            var x := G.hash(c.salt, c.identifier, c.password);
            var key := SessionKey(Pow(B - G.k * (Pow(G.g, x) % G.N), c.a + G.scramble(A, B) * x) % G.N);
            var proof := ClientProof(c.identifier, c.salt, A, B, key);
            Receive(G, w, c, Challenge(B)) ==
            if B % G.N == 0 then (c, None)
            else (c.(session := Some(Session(key, proof))), Some(Handshake2(proof, c.identifier, c.nodePort)))
  {
    hide Pow;
  }

  /** A welcome that verifies and can be read authenticates; the first one settles what the client resolves with. */
  lemma WelcomesAuthenticate(G: Group, w: Wire, c: Attempt, sealed: Sealed)
    requires c.session.Some?
    ensures var session := c.session.value;
            var proof := ServerProof(Pow(G.g, c.a) % G.N, session.proof, session.key);
            var name := Unsealed(w, sealed.info.userName);
            var (c', request) := Receive(G, w, c, Welcome(sealed, proof));
            && request == None && c'.session == c.session
            && (sealed.key == session.key && name.None? ==> c' == c)
            && (sealed.key != session.key || name.Some? ==>
                  && c'.emitted == c.emitted + [Authenticated]
                  && (c.result.Some? ==> c'.result == c.result)
                  && (c.result.None? && sealed.key == session.key ==>
                        var info := Info(name.value, sealed.info.ip, sealed.info.port);
                        c'.result == Some(JoinResult(Some(info), session.key)))
                  && (c.result.None? && sealed.key != session.key ==> c'.result == Some(JoinResult(None, session.key))))
  {
    hide Pow, Unsealed;
  }

  // ---- the system ----

  datatype System = System(server: State, attempts: map<nat, Attempt>,
                           toServer: set<Request>, toClients: set<Reply>,
                           log: seq<Fact>, crashed: bool)

  /** What has happened, in order, for the correspondence properties to refer to. */
  datatype Fact =
    | ServerRegistered(username: string)
    | ServerConnected(username: string, key: Key)
    | ClientDerived(id: nat, identifier: string, key: Key)
    | ClientResolved(id: nat, identifier: string, key: Key)

  datatype Action =
    | Start(id: nat, identifier: string, password: string, salt: string, a: nat, nodePort: int)
    | ToServer(request: Request, ip: string, localAddress: string, b: nat)
    | ToClient(id: nat, reply: Reply)
    | Server(input: Input)

  const Empty := System(Initial, map[], {}, {}, [], false)

  ghost function Facts(events: seq<Event>): seq<Fact> {
    if |events| != 1 then []
    else
      match events[0]
      case ConnectionAttempt(username) => [ServerRegistered(username)]
      case Connected(username, _, _, key) => [ServerConnected(username, key)]
      case _ => []
  }

  /** Whether the TLS connection of a client that looks for the session by its name opens. */
  predicate Connects(cfg: Config, lib: Buffers) {
    Opens(lib.certificate, cfg.sessionName, cfg.port)
  }

  /** The session's name and port, as a client needs them to get through to the server. */
  predicate Reachable(cfg: Config) {
    Dialable(cfg.sessionName, cfg.port) && SingleBytes(Units(cfg.sessionName))
  }

  /** One action. An action that is not enabled leaves the system as it is. */
  ghost function Step(cfg: Config, lib: Buffers, s: System, action: Action): System {
    match action
    case Start(id, identifier, password, salt, a, nodePort) =>
      if id in s.attempts then s
      else
        var c := Attempt(identifier, password, salt, a, nodePort, None, None, []);
        s.(attempts := s.attempts[id := c],
           toServer := s.toServer + if Connects(cfg, lib) then {FirstMessage(cfg.G, c)} else {})
    case ToServer(request, ip, localAddress, b) =>
      if request !in s.toServer then s
      else
        var o := Respond(cfg, s.server, Arriving(lib.tls, request), ip, localAddress, b);
        s.(server := o.state, toClients := s.toClients + {o.reply}, log := s.log + Facts(o.events),
           crashed := s.crashed || o.crashed)
    case ToClient(id, reply) =>
      if id !in s.attempts || reply !in s.toClients then s
      else
        var c := s.attempts[id];
        var (c', request) := Receive(cfg.G, lib.cipher, c, reply);
        s.(attempts := s.attempts[id := c'],
           toServer := s.toServer + (if request.Some? then {request.value} else {}),
           log := s.log
                  + (if request.Some? then [ClientDerived(id, c'.identifier, c'.session.value.key)] else [])
                  + (if c'.result != c.result then [ClientResolved(id, c'.identifier, c'.result.value.key)] else []))
    case Server(input) =>
      if input.Message? then s else s.(server := Apply(cfg, s.server, input).state)
  }

  ghost function Exec(cfg: Config, lib: Buffers, actions: seq<Action>): System {
    if actions == [] then Empty else Step(cfg, lib, Exec(cfg, lib, actions[..|actions| - 1]), actions[|actions| - 1])
  }

  // ---- correspondence ----

  /** A proof names the user whose session it is. */
  function ProofUser(p: Proof): string {
    match p
    case ClientProof(username, _, _, _, _) => username
    case ServerProof(_, clientProof, _) => ProofUser(clientProof)
  }

  ghost predicate Derived(log: seq<Fact>, identifier: string, key: Key) {
    exists i :: 0 <= i < |log| && log[i].ClientDerived? && log[i].identifier == identifier && log[i].key == key
  }

  ghost predicate GoodRequest(log: seq<Fact>, request: Request) {
    request.Handshake2? ==>
      && request.sessionProof.ClientProof? && request.sessionProof.username == request.username
      && Derived(log, request.username, request.sessionProof.key)
  }

  ghost predicate GoodReply(cfg: Config, log: seq<Fact>, reply: Reply) {
    reply.Welcome? ==>
      && reply.sealed.info.userName == cfg.sessionName && reply.sealed.info.port == cfg.nodePort
      && reply.serverProof.ServerProof? && reply.serverProof.clientProof.ClientProof?
      && reply.sealed.key == reply.serverProof.key
      && ServerConnected(ProofUser(reply.serverProof), reply.serverProof.key) in log
  }

  predicate GoodAttempt(cfg: Config, lib: Buffers, c: Attempt) {
    && (c.session.Some? ==>
          && c.session.value.proof.ClientProof?
          && c.session.value.proof.username == c.identifier)
    && (Authenticated in c.emitted <==> c.result.Some?)
    && (c.result.Some? ==>
          && Connects(cfg, lib) && c.result.value.info.Some?
          && Unsealed(lib.cipher, cfg.sessionName) == Some(c.result.value.info.value.userName)
          && c.result.value.info.value.port == cfg.nodePort)
  }

  predicate AllAscii(infos: seq<Info>) {
    forall i :: 0 <= i < |infos| ==> AsciiName(infos[i].userName)
  }

  /** Every fact of a kind that answers another comes after it. */
  ghost predicate Ordered(log: seq<Fact>) {
    forall i :: 0 <= i < |log| ==> Answered(log, i)
  }

  ghost predicate Answered(log: seq<Fact>, i: nat)
    requires i < |log|
  {
    match log[i]
    case ClientResolved(_, identifier, key) => ServerConnected(identifier, key) in log[..i]
    case ServerConnected(username, key) => Derived(log[..i], username, key)
    case _ => true
  }

  ghost predicate SystemInv(cfg: Config, lib: Buffers, s: System) {
    && Inv(s.server) && AllAscii(s.server.authenticated)
    && !s.crashed
    && (forall r :: r in s.toServer ==> GoodRequest(s.log, r))
    && (s.toServer != {} || s.toClients != {} ==> Connects(cfg, lib))
    && (forall r :: r in s.toClients ==> GoodReply(cfg, s.log, r))
    && (forall id :: id in s.attempts ==> GoodAttempt(cfg, lib, s.attempts[id]))
    && (forall id :: id in s.attempts && s.attempts[id].result.Some? ==>
          ClientResolved(id, s.attempts[id].identifier, s.attempts[id].result.value.key) in s.log)
    && Ordered(s.log)
  }

  lemma DerivedGrows(log: seq<Fact>, more: seq<Fact>, identifier: string, key: Key)
    requires Derived(log, identifier, key)
    ensures Derived(log + more, identifier, key)
  {
    var i :| 0 <= i < |log| && log[i].ClientDerived? && log[i].identifier == identifier && log[i].key == key;
    assert (log + more)[i] == log[i];
  }

  lemma GoodGrows(cfg: Config, log: seq<Fact>, more: seq<Fact>, requests: set<Request>, replies: set<Reply>)
    requires forall r :: r in requests ==> GoodRequest(log, r)
    requires forall r :: r in replies ==> GoodReply(cfg, log, r)
    ensures forall r :: r in requests ==> GoodRequest(log + more, r)
    ensures forall r :: r in replies ==> GoodReply(cfg, log + more, r)
  {
    forall r | r in requests && r.Handshake2?
      ensures GoodRequest(log + more, r)
    {
      DerivedGrows(log, more, r.username, r.sessionProof.key);
    }
  }

  lemma OrderedGrows(log: seq<Fact>, fact: Fact)
    requires Ordered(log)
    requires match fact
             case ClientResolved(_, identifier, key) => ServerConnected(identifier, key) in log
             case ServerConnected(username, key) => Derived(log, username, key)
             case _ => true
    ensures Ordered(log + [fact])
  {
    var log' := log + [fact];
    forall i | 0 <= i < |log'|
      ensures Answered(log', i)
    {
      if i < |log| {
        assert Answered(log, i);
        assert log'[..i] == log[..i];
      } else {
        assert log'[..i] == log;
      }
    }
  }

  /** A connection is reported only for a name that arrived as its sender wrote it, so for an ASCII name. */
  lemma ConnectedAsWritten(cfg: Config, w: Wire, s: State, log: seq<Fact>, request: Request, ip: string,
                           localAddress: string, b: nat)
    requires Inv(s) && GoodRequest(log, request)
    ensures var o := Respond(cfg, s, Arriving(w, request), ip, localAddress, b);
            && (o.reply.Welcome? || (Facts(o.events) != [] && Facts(o.events)[0].ServerConnected?) ==>
                  && request.Handshake2? && AsciiName(request.username)
                  && o.reply.Welcome? && o.reply.serverProof.ServerProof?
                  && o.reply.sealed.info.userName == cfg.sessionName && o.reply.sealed.info.port == cfg.nodePort
                  && o.reply.serverProof.clientProof == request.sessionProof
                  && o.reply.sealed.key == o.reply.serverProof.key == request.sessionProof.key
                  && Facts(o.events) == [ServerConnected(request.username, request.sessionProof.key)])
  {
    if !request.Unparsable? {
      ArrivesIff(w, request.username);
    }
  }

  lemma AuthenticatedStayAscii(cfg: Config, w: Wire, s: State, log: seq<Fact>, request: Request, ip: string,
                               localAddress: string, b: nat)
    requires Inv(s) && AllAscii(s.authenticated) && GoodRequest(log, request)
    ensures AllAscii(Respond(cfg, s, Arriving(w, request), ip, localAddress, b).state.authenticated)
  {
    ConnectedAsWritten(cfg, w, s, log, request, ip, localAddress, b);
    hide AsciiName, Arrives;
  }

  lemma ServerStepKeepsInv(cfg: Config, lib: Buffers, s: System, request: Request, ip: string,
                           localAddress: string, b: nat)
    requires SystemInv(cfg, lib, s) && request in s.toServer
    ensures SystemInv(cfg, lib, Step(cfg, lib, s, ToServer(request, ip, localAddress, b)))
  {
    var arriving := Arriving(lib.tls, request);
    var o := Respond(cfg, s.server, arriving, ip, localAddress, b);
    ApplyKeepsInv(cfg, s.server, Message(arriving, ip, localAddress, b));
    assert GoodRequest(s.log, request);
    AuthenticatedStayAscii(cfg, lib.tls, s.server, s.log, request, ip, localAddress, b);
    ConnectedAsWritten(cfg, lib.tls, s.server, s.log, request, ip, localAddress, b);
    hide Respond, Arriving, AllAscii, Inv, Connects, GoodAttempt, GoodRequest, Ordered;
    var facts := Facts(o.events);
    GoodGrows(cfg, s.log, facts, s.toServer, s.toClients);
    if facts == [] {
      assert s.log + facts == s.log;
    } else {
      assert facts == [facts[0]];
      OrderedGrows(s.log, facts[0]);
      assert facts[0] in s.log + facts;
      if o.reply.Welcome? {
        var proof := o.reply.serverProof;
        assert ProofUser(proof) == ProofUser(proof.clientProof) == request.username;
      }
      assert GoodReply(cfg, s.log + facts, o.reply);
    }
  }

  /** What a client may do with a good reply. */
  ghost predicate GoodReception(log: seq<Fact>, c: Attempt, c': Attempt, request: Option<Request>) {
    && c'.identifier == c.identifier
    && (request.Some? ==>
          && c'.result == c.result && c'.session.Some?
          && GoodRequest(log + [ClientDerived(0, c.identifier, c'.session.value.key)], request.value))
    && (request.None? && c'.result != c.result ==>
          c'.result.Some? && ServerConnected(c.identifier, c'.result.value.key) in log)
    && (c.result.Some? ==> c'.result == c.result)
  }

  lemma ReceiveKeepsGood(cfg: Config, lib: Buffers, log: seq<Fact>, c: Attempt, reply: Reply)
    requires Connects(cfg, lib) && GoodReply(cfg, log, reply) && GoodAttempt(cfg, lib, c)
    ensures var (c', request) := Receive(cfg.G, lib.cipher, c, reply);
            GoodAttempt(cfg, lib, c') && GoodReception(log, c, c', request)
  {
    hide Opens, Unsealed;
    var (c', request) := Receive(cfg.G, lib.cipher, c, reply);
    if request.Some? {
      var fact := ClientDerived(0, c.identifier, c'.session.value.key);
      assert (log + [fact])[|log|] == fact;
    } else if c'.result != c.result {
      assert ProofUser(reply.serverProof) == ProofUser(c.session.value.proof) == c.identifier;
    }
  }

  /** It does not matter which attempt has derived a key. */
  lemma DerivedByAny(log: seq<Fact>, id: nat, identifier: string, key: Key, request: Request)
    requires GoodRequest(log + [ClientDerived(0, identifier, key)], request)
    ensures GoodRequest(log + [ClientDerived(id, identifier, key)], request)
  {
    if request.Handshake2? {
      var before, after := log + [ClientDerived(0, identifier, key)], log + [ClientDerived(id, identifier, key)];
      var i :| 0 <= i < |before| && before[i].ClientDerived? && before[i].identifier == request.username
               && before[i].key == request.sessionProof.key;
      assert after[i].ClientDerived? && after[i].identifier == before[i].identifier && after[i].key == before[i].key;
    }
  }

  lemma ClientStepKeepsInv(cfg: Config, lib: Buffers, s: System, id: nat, reply: Reply)
    requires SystemInv(cfg, lib, s) && id in s.attempts && reply in s.toClients
    ensures SystemInv(cfg, lib, Step(cfg, lib, s, ToClient(id, reply)))
  {
    hide Inv, AllAscii, Connects, GoodAttempt, GoodReply, GoodRequest, Receive, Ordered;
    var c := s.attempts[id];
    var s' := Step(cfg, lib, s, ToClient(id, reply));
    var (c', request) := Receive(cfg.G, lib.cipher, c, reply);
    ReceiveKeepsGood(cfg, lib, s.log, c, reply);
    if request.Some? {
      var fact := ClientDerived(id, c.identifier, c'.session.value.key);
      DerivedByAny(s.log, id, c.identifier, c'.session.value.key, request.value);
      GoodGrows(cfg, s.log, [fact], s.toServer, s.toClients);
      OrderedGrows(s.log, fact);
      assert s'.log == s.log + [fact];
    } else if c'.result != c.result {
      var fact := ClientResolved(id, c.identifier, c'.result.value.key);
      GoodGrows(cfg, s.log, [fact], s.toServer, s.toClients);
      OrderedGrows(s.log, fact);
      assert s'.log == s.log + [fact];
      assert fact in s.log + [fact];
    } else {
      assert s'.log == s.log;
    }
  }

  lemma ApplyStaysAscii(cfg: Config, s: State, input: Input)
    requires AllAscii(s.authenticated) && !input.Message?
    ensures AllAscii(Apply(cfg, s, input).state.authenticated)
  {
    if input.ConnectionClosed? {
      WithoutAddressKeeps(s.authenticated, input.ip);
      var left := WithoutAddress(s.authenticated, input.ip);
      forall i | 0 <= i < |left|
        ensures AsciiName(left[i].userName)
      {
        assert left[i] in s.authenticated;
      }
    }
  }

  lemma StepKeepsInv(cfg: Config, lib: Buffers, s: System, action: Action)
    requires SystemInv(cfg, lib, s)
    ensures SystemInv(cfg, lib, Step(cfg, lib, s, action))
  {
    match action {
      case ToServer(request, ip, localAddress, b) =>
        if request in s.toServer {
          ServerStepKeepsInv(cfg, lib, s, request, ip, localAddress, b);
        }
      case ToClient(id, reply) =>
        if id in s.attempts && reply in s.toClients {
          ClientStepKeepsInv(cfg, lib, s, id, reply);
        }
      case Server(input) =>
        ApplyKeepsInv(cfg, s.server, input);
        if !input.Message? {
          ApplyStaysAscii(cfg, s.server, input);
        }
      case Start(_, _, _, _, _, _) =>
    }
  }

  lemma {:induction false} ExecKeepsInv(cfg: Config, lib: Buffers, actions: seq<Action>)
    ensures SystemInv(cfg, lib, Exec(cfg, lib, actions))
  {
    if actions != [] {
      ExecKeepsInv(cfg, lib, actions[..|actions| - 1]);
      StepKeepsInv(cfg, lib, Exec(cfg, lib, actions[..|actions| - 1]), actions[|actions| - 1]);
    }
  }

  /** Whatever names clients choose, those the server has authenticated are ASCII. */
  lemma AuthenticatedAreAscii(cfg: Config, lib: Buffers, actions: seq<Action>, info: Info)
    requires info in Exec(cfg, lib, actions).server.authenticated
    ensures AsciiName(info.userName)
  {
    ExecKeepsInv(cfg, lib, actions);
  }

  /** Whoever resolves knows the session by its own name and the port of its node. */
  lemma ResolvedKnowsSession(cfg: Config, lib: Buffers, actions: seq<Action>, id: nat)
    requires id in Exec(cfg, lib, actions).attempts && Exec(cfg, lib, actions).attempts[id].result.Some?
    ensures Reachable(cfg)
    ensures var info := Exec(cfg, lib, actions).attempts[id].result.value.info;
            info.Some? && info.value.userName == cfg.sessionName && info.value.port == cfg.nodePort
  {
    ExecKeepsInv(cfg, lib, actions);
    assert GoodAttempt(cfg, lib, Exec(cfg, lib, actions).attempts[id]);
    hide Exec, SystemInv, Opens, Unsealed, Dialable, SingleBytes;
    OpensIff(lib.certificate, cfg.sessionName, cfg.port);
    UnsealedIff(lib.cipher, cfg.sessionName);
  }

  /** In every run the authenticated event tells exactly of the clients that have resolved. */
  lemma {:induction false} AuthenticatedIffResolved(cfg: Config, lib: Buffers, actions: seq<Action>, id: nat)
    requires id in Exec(cfg, lib, actions).attempts
    ensures var c := Exec(cfg, lib, actions).attempts[id]; Authenticated in c.emitted <==> c.result.Some?
  {
    ExecKeepsInv(cfg, lib, actions);
    assert GoodAttempt(cfg, lib, Exec(cfg, lib, actions).attempts[id]);
  }

  /**
   * Correspondence over whole runs: a client whose `start` has resolved with a key was connected by
   * the server under that name and key before, which in turn came after a client of that name had
   * derived the very same key. Nobody crashes on the way.
   */
  lemma Correspondence(cfg: Config, lib: Buffers, actions: seq<Action>, id: nat)
    requires id in Exec(cfg, lib, actions).attempts && Exec(cfg, lib, actions).attempts[id].result.Some?
    ensures var s := Exec(cfg, lib, actions);
            var c := s.attempts[id];
            && !s.crashed
            && (exists k, j, i :: 0 <= k < j < i < |s.log|
                  && s.log[i] == ClientResolved(id, c.identifier, c.result.value.key)
                  && s.log[j] == ServerConnected(c.identifier, c.result.value.key)
                  && s.log[k].ClientDerived? && s.log[k].identifier == c.identifier
                  && s.log[k].key == c.result.value.key)
  {
    ExecKeepsInv(cfg, lib, actions);
    var s := Exec(cfg, lib, actions);
    var c, key := s.attempts[id], s.attempts[id].result.value.key;
    assert Ordered(s.log) && ClientResolved(id, c.identifier, key) in s.log && !s.crashed;
    hide Exec, SystemInv;
    var i :| 0 <= i < |s.log| && s.log[i] == ClientResolved(id, c.identifier, key);
    assert Answered(s.log, i);
    var j :| 0 <= j < i && s.log[..i][j] == ServerConnected(c.identifier, key);
    assert s.log[j] == ServerConnected(c.identifier, key);
    assert Answered(s.log, j);
    var log := s.log[..j];
    var k :| 0 <= k < |log| && log[k].ClientDerived? && log[k].identifier == c.identifier && log[k].key == key;
    assert s.log[k] == log[k];
  }

  /** The server stores `key` for the name and lists it as authenticated, and `log` is all there was so far. */
  ghost predicate Stored(s: System, log: seq<Fact>, username: string, key: Key) {
    && s.log == log && KeyOf(s.server.users, username) == Present(key)
    && exists info :: info in s.server.authenticated && info.userName == username
  }

  lemma ConnectedStep(cfg: Config, lib: Buffers, s: System, action: Action)
    requires Inv(s.server) && Step(cfg, lib, s, action).log != s.log
    ensures var s' := Step(cfg, lib, s, action);
            && s.log <= s'.log
            && forall j :: |s.log| <= j < |s'.log| && s'.log[j].ServerConnected? ==>
                 j == |s'.log| - 1 && Stored(s', s'.log[..j + 1], s'.log[j].username, s'.log[j].key)
  {
    if action.ToServer? && action.request in s.toServer {
      var request := Arriving(lib.tls, action.request);
      var o := Respond(cfg, s.server, request, action.ip, action.localAddress, action.b);
      if o.reply.Welcome? {
        assert o.state.authenticated[|s.server.authenticated|].userName == request.username;
      }
    }
  }

  /** Every connection in the log was reported in a state that stored the reported key. */
  lemma {:induction false} ConnectedKeyIsStored(cfg: Config, lib: Buffers, actions: seq<Action>, j: nat)
    requires j < |Exec(cfg, lib, actions).log| && Exec(cfg, lib, actions).log[j].ServerConnected?
    ensures var log := Exec(cfg, lib, actions).log;
            exists n :: 0 <= n <= |actions| &&
              Stored(Exec(cfg, lib, actions[..n]), log[..j + 1], log[j].username, log[j].key)
  {
    var before := actions[..|actions| - 1];
    var s, s' := Exec(cfg, lib, before), Exec(cfg, lib, actions);
    ExecKeepsInv(cfg, lib, before);
    assert Inv(s.server);
    assert s' == Step(cfg, lib, s, actions[|actions| - 1]);
    hide Exec, Step, Stored, SystemInv, Inv;
    if s'.log != s.log {
      ConnectedStep(cfg, lib, s, actions[|actions| - 1]);
    }
    if j < |s.log| {
      assert s'.log[j] == s.log[j] && s'.log[..j + 1] == s.log[..j + 1];
      ConnectedKeyIsStored(cfg, lib, before, j);
      var n :| 0 <= n <= |before| &&
               Stored(Exec(cfg, lib, before[..n]), s.log[..j + 1], s.log[j].username, s.log[j].key);
      assert actions[..n] == before[..n];
    } else {
      assert actions[..|actions|] == actions;
    }
  }

  // ---- the coordinator's part of a run ----

  /** What the coordinator takes in during a run of the system. */
  ghost function ServerInputs(cfg: Config, lib: Buffers, actions: seq<Action>): seq<Input> {
    if actions == [] then []
    else
      var init := actions[..|actions| - 1];
      var inputs := ServerInputs(cfg, lib, init);
      match actions[|actions| - 1]
      case ToServer(request, ip, localAddress, b) =>
        if request !in Exec(cfg, lib, init).toServer then inputs
        else inputs + [Message(Arriving(lib.tls, request), ip, localAddress, b)]
      case Server(input) => if input.Message? then inputs else inputs + [input]
      case _ => inputs
  }

  /** The server's state is that of the coordinator's own run on those inputs. */
  lemma {:induction false} ServerIsARun(cfg: Config, lib: Buffers, actions: seq<Action>)
    ensures Exec(cfg, lib, actions).server == Run(cfg, ServerInputs(cfg, lib, actions))
  {
    if actions != [] {
      ServerIsARun(cfg, lib, actions[..|actions| - 1]);
      hide Respond;
    }
  }

  /** The key of the last success of a name that the log shows, unless the name has registered since. */
  function LatestIn(log: seq<Fact>, username: string): Option<Key> {
    if log == [] then None
    else
      match log[|log| - 1]
      case ServerRegistered(name) => if name == username then None else LatestIn(log[..|log| - 1], username)
      case ServerConnected(name, key) => if name == username then Some(key) else LatestIn(log[..|log| - 1], username)
      case _ => LatestIn(log[..|log| - 1], username)
  }

  /** Clients' facts do not count, the server's one fact decides if it is about the name. */
  lemma LatestAppend(log: seq<Fact>, fact: Fact, username: string)
    ensures LatestIn(log + [fact], username) ==
            if fact == ServerRegistered(username) then None
            else if fact.ServerConnected? && fact.username == username then Some(fact.key)
            else LatestIn(log, username)
  {
    assert (log + [fact])[..|log|] == log;
  }

  lemma LatestOfEvents(log: seq<Fact>, events: seq<Event>, username: string)
    ensures LatestIn(log + Facts(events), username) ==
            if events == [ConnectionAttempt(username)] then None
            else if |events| == 1 && events[0].Connected? && events[0].username == username
            then Some(events[0].serverSessionKey)
            else LatestIn(log, username)
  {
    var facts := Facts(events);
    if facts == [] {
      assert log + facts == log;
    } else {
      assert facts == [facts[0]];
      LatestAppend(log, facts[0], username);
      assert |events| == 1 && events == [events[0]];
    }
  }

  /** The coordinator holds for a name what the log of the system says of it. */
  lemma {:induction false} HeldAsLogged(cfg: Config, lib: Buffers, actions: seq<Action>, username: string)
    ensures HeldKey(Exec(cfg, lib, actions).server.users, username) == LatestIn(Exec(cfg, lib, actions).log, username)
  {
    if actions != [] {
      var init, last := actions[..|actions| - 1], actions[|actions| - 1];
      HeldAsLogged(cfg, lib, init, username);
      ExecKeepsInv(cfg, lib, init);
      HeldStep(cfg, lib, Exec(cfg, lib, init), last, username);
    }
  }

  lemma HeldStep(cfg: Config, lib: Buffers, s: System, action: Action, username: string)
    requires Inv(s.server) && HeldKey(s.server.users, username) == LatestIn(s.log, username)
    ensures var s' := Step(cfg, lib, s, action);
            HeldKey(s'.server.users, username) == LatestIn(s'.log, username)
  {
    match action {
      case ToServer(request, ip, localAddress, b) =>
        var input := Message(Arriving(lib.tls, request), ip, localAddress, b);
        HeldKeyStep(cfg, s.server, input, username);
        LatestOfEvents(s.log, Apply(cfg, s.server, input).events, username);
        hide Respond, LatestIn, Facts;
      case ToClient(id, reply) =>
        if id in s.attempts && reply in s.toClients {
          ClientFactsDoNotCount(cfg, lib, s, id, reply, username);
        }
      case Server(input) =>
      case Start(_, _, _, _, _, _) =>
    }
  }

  lemma ClientFactsDoNotCount(cfg: Config, lib: Buffers, s: System, id: nat, reply: Reply, username: string)
    requires id in s.attempts && reply in s.toClients
    ensures LatestIn(Step(cfg, lib, s, ToClient(id, reply)).log, username) == LatestIn(s.log, username)
  {
    var c := s.attempts[id];
    var s' := Step(cfg, lib, s, ToClient(id, reply));
    var (c', request) := Receive(cfg.G, lib.cipher, c, reply);
    hide LatestIn;
    if request.Some? {
      var fact := ClientDerived(id, c'.identifier, c'.session.value.key);
      LatestAppend(s.log, fact, username);
      assert s'.log == s.log + [fact];
    } else if c'.result != c.result {
      var fact := ClientResolved(id, c'.identifier, c'.result.value.key);
      LatestAppend(s.log, fact, username);
      assert s'.log == s.log + [fact];
    } else {
      assert s'.log == s.log;
    }
  }

  lemma {:induction false} LatestStands(log: seq<Fact>, j: nat, username: string)
    requires j < |log| && log[j].ServerConnected? && log[j].username == username
    requires NothingSince(log, j, username)
    ensures LatestIn(log, username) == Some(log[j].key)
  {
    if j < |log| - 1 {
      LatestStands(log[..|log| - 1], j, username);
    }
  }

  /** After entry `j` the server has neither registered nor connected the name again. */
  predicate NothingSince(log: seq<Fact>, j: nat, username: string) {
    forall i :: j < i < |log| ==>
      log[i] != ServerRegistered(username) && (log[i].ServerConnected? ==> log[i].username != username)
  }

  /** The client resolved with a connection after which the server has seen nothing of its name. */
  ghost predicate ResolvedLast(s: System, id: nat) {
    && id in s.attempts && s.attempts[id].result.Some?
    && exists j :: 0 <= j < |s.log| && NothingSince(s.log, j, s.attempts[id].identifier)
                   && s.log[j] == ServerConnected(s.attempts[id].identifier, s.attempts[id].result.value.key)
  }

  /**
   * A client that resolved last holds exactly the key that the coordinator has for its name, so the one
   * that the host's table will hold.
   */
  lemma JoinedKeyIsLatest(cfg: Config, lib: Buffers, actions: seq<Action>, id: nat)
    requires ResolvedLast(Exec(cfg, lib, actions), id)
    ensures var c := Exec(cfg, lib, actions).attempts[id];
            LatestKey(cfg, ServerInputs(cfg, lib, actions), c.identifier) == Some(c.result.value.key)
  {
    var s := Exec(cfg, lib, actions);
    var name, key := s.attempts[id].identifier, s.attempts[id].result.value.key;
    var j :| 0 <= j < |s.log| && NothingSince(s.log, j, name) && s.log[j] == ServerConnected(name, key);
    LatestStands(s.log, j, name);
    HeldAsLogged(cfg, lib, actions, name);
    ServerIsARun(cfg, lib, actions);
    SessionIsLatest(cfg, ServerInputs(cfg, lib, actions), name);
  }

  // ---- completion ----

  /** The four deliveries of an undisturbed handshake of one fresh attempt, once its connection opens. */
  ghost function Exchange(cfg: Config, lib: Buffers, s: State, c: Attempt, ip: string, localAddress: string, b: nat)
    : (Option<State>, Attempt)
  {
    var first := Respond(cfg, s, Arriving(lib.tls, FirstMessage(cfg.G, c)), ip, localAddress, b);
    var (c1, request) := Receive(cfg.G, lib.cipher, c, first.reply);
    if !Connects(cfg, lib) then (None, c)
    else if request.None? then (None, c1)
    else
      var second := Respond(cfg, first.state, Arriving(lib.tls, request.value), ip, localAddress, b);
      var (c2, _) := Receive(cfg.G, lib.cipher, c1, second.reply);
      (Some(second.state), c2)
  }

  /** The name is free or already bound to the address, and this attempt leaves retries. */
  ghost predicate MayJoin(s: State, name: string, ip: string) {
    && (name in s.clients ==> s.clients[name].ip == ip)
    && RetrySum(s.clients, ip) + (if name in s.clients then 1 else 0) < MAX_SRP_RETRIES
  }

  /** The values of an attempt that the two secrets depend on. */
  predicate PasswordFits(cfg: Config, c: Attempt, b: nat) {
    && NoZero(cfg.G, c.salt, c.identifier, cfg.passcode, c.a, b)
    && Meets(cfg.G, c.salt, c.identifier, cfg.passcode, c.password, c.a, b)
  }

  /**
   * The undisturbed handshake of a fresh attempt with any password resolves exactly when the session's
   * name has single bytes only and holds no colon, its port can be connected to, the client's name is
   * ASCII, free or already bound to the address, retries are left, neither public value is zero modulo N,
   * and the secrets meet that the client derives from its password and the server from the passcode. The
   * client then knows the session by its own name, and the server exports the key that it resolved with.
   */
  lemma HandshakeCompletesIff(cfg: Config, lib: Buffers, s: State, c: Attempt, ip: string, localAddress: string, b: nat)
    requires Inv(s) && c.session == None && c.result == None
    ensures var (server, client) := Exchange(cfg, lib, s, c, ip, localAddress, b);
            && (client.result.Some? <==>
                  Reachable(cfg) && AsciiName(c.identifier) && MayJoin(s, c.identifier, ip) && PasswordFits(cfg, c, b))
            && (client.result.Some? ==>
                  && server.Some?
                  && client.result.value.info == Some(Info(cfg.sessionName, localAddress, cfg.nodePort))
                  && KeyOf(server.value.users, c.identifier) == Present(client.result.value.key)
                  && Info(c.identifier, ip, c.nodePort) in server.value.authenticated)
  {
    OpensIff(lib.certificate, cfg.sessionName, cfg.port);
    ArrivesIff(lib.tls, c.identifier);
    UnsealedIff(lib.cipher, cfg.sessionName);
    hide AsciiName, Arrives, Unsealed, Opens, Dialable, SingleBytes, PasswordFits;
    if Connects(cfg, lib) {
      if AsciiName(c.identifier) {
        AsciiExchange(cfg, lib, s, c, ip, localAddress, b);
      } else {
        ForeignNameFails(cfg, lib, s, c, ip, localAddress, b);
      }
    }
  }

  /** With the right passcode the secrets meet, so the last condition is that no public value is zero. */
  lemma RightPasscodeFits(cfg: Config, c: Attempt, b: nat)
    requires c.password == cfg.passcode
    ensures PasswordFits(cfg, c, b) <==> NoZero(cfg.G, c.salt, c.identifier, cfg.passcode, c.a, b)
  {
    PasscodeMeets(cfg.G, c.salt, c.identifier, cfg.passcode, c.a, b);
    hide Meets, NoZero;
  }

  /** A guess of 000000 at the passcode 123456, in a group in which it fails. */
  lemma WrongGuessFails(cfg: Config, lib: Buffers, s: State, c: Attempt, ip: string, localAddress: string)
    requires Inv(s) && c.session == None && c.result == None
    requires cfg.G == SmallGroup() && cfg.passcode == "123456" && c.password == "000000" && c.a == 1
    ensures Exchange(cfg, lib, s, c, ip, localAddress, 1).1.result == None
  {
    WrongPasswordIsRefused(c.salt, c.identifier);
    HandshakeCompletesIff(cfg, lib, s, c, ip, localAddress, 1);
    hide Exchange, Meets, NoZero;
  }

  lemma AsciiExchange(cfg: Config, lib: Buffers, s: State, c: Attempt, ip: string, localAddress: string, b: nat)
    requires Inv(s) && c.session == None && c.result == None && Connects(cfg, lib)
    requires Arrives(lib.tls, c.identifier) == Some(c.identifier)
    ensures var (server, client) := Exchange(cfg, lib, s, c, ip, localAddress, b);
            var name := Unsealed(lib.cipher, cfg.sessionName);
            && (client.result.Some? <==> MayJoin(s, c.identifier, ip) && PasswordFits(cfg, c, b) && name.Some?)
            && (client.result.Some? ==>
                  && server.Some?
                  && client.result.value.info == Some(Info(name.value, localAddress, cfg.nodePort))
                  && KeyOf(server.value.users, c.identifier) == Present(client.result.value.key)
                  && Info(c.identifier, ip, c.nodePort) in server.value.authenticated)
  {
    hide AsciiName, Arrives, Unsealed, Opens, Meets;
    assert Arriving(lib.tls, FirstMessage(cfg.G, c)) == FirstMessage(cfg.G, c);
    var first := Respond(cfg, s, FirstMessage(cfg.G, c), ip, localAddress, b);
    Agreement(cfg.G, c.identifier, cfg.passcode, c.password, c.salt, c.a, b);
    ValuesAsExchanged(cfg.G, c.identifier, cfg.passcode, c.salt, c.a, b);
    hide NoZero, DeriveServerSession, Registration;
    var name := c.identifier;
    if first.reply.Challenge? {
      assert first.state.clients == s.clients[name := first.state.clients[name]];
      RetrySumUpdate(s.clients, name, first.state.clients[name], ip);
    }
    var (c1, request) := Receive(cfg.G, lib.cipher, c, first.reply);
    if request.Some? {
      assert Arriving(lib.tls, request.value) == request.value;
      var second := Respond(cfg, first.state, request.value, ip, localAddress, b);
      assert second.reply.Welcome? <==> MayJoin(s, name, ip) && PasswordFits(cfg, c, b);
    }
  }

  /** A name that arrives as another is never verified: the proof names the one its sender wrote. */
  lemma ForeignNameFails(cfg: Config, lib: Buffers, s: State, c: Attempt, ip: string, localAddress: string, b: nat)
    requires c.session == None && c.result == None && Arrives(lib.tls, c.identifier) != Some(c.identifier)
    ensures Exchange(cfg, lib, s, c, ip, localAddress, b).1.result == None
  {
    hide Arrives, Opens;
    var first := Respond(cfg, s, Arriving(lib.tls, FirstMessage(cfg.G, c)), ip, localAddress, b);
    assert !first.reply.Welcome?;
    var (c1, request) := Receive(cfg.G, lib.cipher, c, first.reply);
    hide Respond;
    if request.Some? {
      WelcomeNamesProof(cfg, lib.tls, first.state, request.value, ip, localAddress, b);
      hide Arriving;
    }
  }

  lemma WelcomeNamesProof(cfg: Config, w: Wire, s: State, request: Request, ip: string, localAddress: string, b: nat)
    requires request.Handshake2? && request.sessionProof.ClientProof?
    ensures Respond(cfg, s, Arriving(w, request), ip, localAddress, b).reply.Welcome? ==>
              Arrives(w, request.username) == Some(request.sessionProof.username)
  {
    hide Arrives;
  }

  /** José has the passcode, and the server never answers. */
  lemma JoseCannotJoin(cfg: Config, lib: Buffers, s: State, c: Attempt, ip: string, localAddress: string, b: nat)
    requires c.identifier == "Jos\U{E9}" && c.session == None && c.result == None
    ensures Respond(cfg, s, Arriving(lib.tls, FirstMessage(cfg.G, c)), ip, localAddress, b)
         == Outcome(s, Silence, [], false)
    ensures Exchange(cfg, lib, s, c, ip, localAddress, b).1 == c
  {
    JoseNeverArrives(lib.tls);
  }

  /** To a session named a:b no client ever gets through, whoever it is. */
  lemma ColonKeepsEverybodyOut(cfg: Config, lib: Buffers, actions: seq<Action>, id: nat)
    requires cfg.sessionName == "a:b" && id in Exec(cfg, lib, actions).attempts
    ensures Exec(cfg, lib, actions).attempts[id].result == None
  {
    ColonIsNeverAccepted(lib.certificate, cfg.port);
    ExecKeepsInv(cfg, lib, actions);
  }
}

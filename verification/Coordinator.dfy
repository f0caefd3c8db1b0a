/**
 * The host's side of the join protocol: username and address binding, retry accounting and the list
 * of authenticated clients. `Respond` states what one message does to the abstract state; the class
 * implements it, and the invariants are proved over whole runs of `Apply`.
 */
module Coordinator {
  import opened Wrappers
  import opened ModArith
  import opened Srp

  const MAX_SRP_RETRIES := 3

  datatype Client = Client(retryCount: nat, ip: string, registered: bool)
  datatype Info = Info(userName: string, ip: string, port: int)
  datatype Sealed = Sealed(key: Key, info: Info)

  datatype Config = Config(G: Group, passcode: string, sessionName: string, port: int, nodePort: int)

  datatype State = State(clients: map<string, Client>, users: map<string, User>, authenticated: seq<Info>)

  datatype Request =
    | Unparsable
    | Handshake1(username: string, salt: string, clientEphemeralPublic: nat)
    | Handshake2(sessionProof: Proof, username: string, nodePort: int)

  datatype Reply =
    | Silence
    | NameTaken(username: string)
    | Challenge(serverEphemeralKey: nat)
    | NotRegistered
    | AddressMismatch
    | OutOfOrder
    | TooManyAttempts
    | Welcome(sealed: Sealed, serverProof: Proof)
    | Unverified

  datatype Event =
    | ConnectionAttempt(username: string)
    | ConnectionAttemptFail(username: string)
    | Connected(username: string, ip: string, port: int, serverSessionKey: Key)
    | Disconnected(username: string)
    | Reconnected(username: string)

  /** `crashed` tells that the handler dereferenced an entry that is not there. */
  datatype Outcome = Outcome(state: State, reply: Reply, events: seq<Event>, crashed: bool)

  // ---- the retry sum ----

  /** The sum of the retry counts of the clients among `names` that are bound to `ip`. */
  ghost function RetrySumOver(clients: map<string, Client>, names: set<string>, ip: string): nat
    requires names <= clients.Keys
    decreases |names|
  {
    if names == {} then 0
    else
      var name :| name in names;
      Retries(clients[name], ip) + RetrySumOver(clients, names - {name}, ip)
  }

  function Retries(client: Client, ip: string): nat {
    if client.ip == ip then client.retryCount else 0
  }

  ghost function RetrySum(clients: map<string, Client>, ip: string): nat {
    RetrySumOver(clients, clients.Keys, ip)
  }

  function Bound(clients: map<string, Client>, ip: string): set<string> {
    set name | name in clients && clients[name].ip == ip
  }

  lemma {:induction false} RetrySumSplit(clients: map<string, Client>, names: set<string>, name: string, ip: string)
    requires names <= clients.Keys && name in names
    ensures RetrySumOver(clients, names, ip) ==
            Retries(clients[name], ip) + RetrySumOver(clients, names - {name}, ip)
    decreases |names|
  {
    var pick :| pick in names && RetrySumOver(clients, names, ip) ==
                                 Retries(clients[pick], ip) + RetrySumOver(clients, names - {pick}, ip);
    if pick != name {
      RetrySumSplit(clients, names - {pick}, name, ip);
      RetrySumSplit(clients, names - {name}, pick, ip);
      assert names - {pick} - {name} == names - {name} - {pick};
    }
  }

  lemma {:induction false} RetrySumFrame(clients: map<string, Client>, clients': map<string, Client>,
                                         names: set<string>, ip: string)
    requires names <= clients.Keys && names <= clients'.Keys
    requires forall n :: n in names ==> Retries(clients[n], ip) == Retries(clients'[n], ip)
    ensures RetrySumOver(clients, names, ip) == RetrySumOver(clients', names, ip)
    decreases |names|
  {
    if names != {} {
      var name :| name in names;
      RetrySumFrame(clients, clients', names - {name}, ip);
      RetrySumSplit(clients, names, name, ip);
      RetrySumSplit(clients', names, name, ip);
    }
  }

  /** Writing one entry changes the sum by that entry's share. */
  lemma RetrySumUpdate(clients: map<string, Client>, name: string, client: Client, ip: string)
    ensures RetrySum(clients[name := client], ip) ==
            RetrySum(clients, ip) - (if name in clients then Retries(clients[name], ip) else 0) + Retries(client, ip)
  {
    var clients' := clients[name := client];
    var others := clients.Keys - {name};
    RetrySumFrame(clients, clients', others, ip);
    RetrySumSplit(clients', clients'.Keys, name, ip);
    assert clients'.Keys - {name} == others;
    if name in clients {
      RetrySumSplit(clients, clients.Keys, name, ip);
    } else {
      assert others == clients.Keys;
    }
  }

  // ---- one message ----

  ghost function Respond(cfg: Config, s: State, request: Request, ip: string, localAddress: string, b: nat): Outcome {
    match request
    case Unparsable => Outcome(s, Silence, [], false)
    case Handshake1(username, salt, A) => RespondToFirst(cfg, s, username, salt, A, ip, b)
    case Handshake2(proof, username, port) => RespondToSecond(cfg, s, proof, username, port, ip, localAddress)
  }

  ghost function RespondToFirst(cfg: Config, s: State, username: string, salt: string, A: nat, ip: string, b: nat)
    : Outcome
  {
    if username in s.clients && ip != s.clients[username].ip then Outcome(s, NameTaken(username), [], false)
    else
      var client :=
        if username !in s.clients then Client(0, ip, false)
        else s.clients[username].(retryCount := s.clients[username].retryCount + 1);
      var user := Registration(cfg.G, username, cfg.passcode, salt, A, b);
      Outcome(State(s.clients[username := client], s.users[username := user], s.authenticated),
              Challenge(user.serverPublic), [ConnectionAttempt(username)], false)
  }

  ghost function RespondToSecond(cfg: Config, s: State, proof: Proof, username: string, port: int, ip: string,
                                 localAddress: string): Outcome {
    if username !in s.users then Outcome(s, NotRegistered, [ConnectionAttemptFail(username)], false)
    else if username !in s.clients then Outcome(s, Silence, [], true)
    else if s.clients[username].ip != ip then Outcome(s, AddressMismatch, [ConnectionAttemptFail(username)], false)
    else if username !in s.clients then Outcome(s, OutOfOrder, [ConnectionAttemptFail(username)], false)
    else if RetrySum(s.clients, ip) >= MAX_SRP_RETRIES then
      Outcome(s, TooManyAttempts, [ConnectionAttemptFail(username)], false)
    else
      var session := DeriveServerSession(cfg.G, s.users[username], username, proof);
      if session.None? then Outcome(s, Unverified, [ConnectionAttemptFail(username)], false)
      else
        var key := session.value.key;
        Outcome(State(s.clients[username := s.clients[username].(registered := true)],
                      s.users[username := s.users[username].(session := session)],
                      s.authenticated + [Info(username, ip, port)]),
                Welcome(Sealed(key, Info(cfg.sessionName, localAddress, cfg.nodePort)), session.value.proof),
                [Connected(username, ip, port, key)], false)
  }

  /** The first authenticated client at an address. */
  function FindByAddress(authenticated: seq<Info>, ip: string): Option<Info> {
    if authenticated == [] then None
    else if authenticated[0].ip == ip then Some(authenticated[0])
    else FindByAddress(authenticated[1..], ip)
  }

  function WithoutAddress(authenticated: seq<Info>, ip: string): seq<Info> {
    if authenticated == [] then []
    else if authenticated[0].ip == ip then WithoutAddress(authenticated[1..], ip)
    else [authenticated[0]] + WithoutAddress(authenticated[1..], ip)
  }

  // ---- what each message does, written out ----

  /** A first message: turned away if its name is bound to another address, and a registration otherwise. */
  lemma FirstMessageLaw(cfg: Config, s: State, name: string, salt: string, A: nat, ip: string, local: string, b: nat)
    ensures var o := Respond(cfg, s, Handshake1(name, salt, A), ip, local, b);
            var v := Pow(cfg.G.g, cfg.G.hash(salt, name, cfg.passcode)) % cfg.G.N;
            var B := (cfg.G.k * v + Pow(cfg.G.g, b) % cfg.G.N) % cfg.G.N;
            if name in s.clients && s.clients[name].ip != ip then
              o == Outcome(s, NameTaken(name), [], false)
            else
              && o.reply == Challenge(B) && o.events == [ConnectionAttempt(name)] && !o.crashed
              && o.state.authenticated == s.authenticated
              && o.state.users == s.users[name := User(salt, v, A, b, B, None)]
              && o.state.clients.Keys == s.clients.Keys + {name}
              && (forall other :: other in s.clients && other != name ==> o.state.clients[other] == s.clients[other])
              && o.state.clients[name] ==
                 if name in s.clients then Client(s.clients[name].retryCount + 1, ip, s.clients[name].registered)
                 else Client(0, ip, false)
  {
    hide Pow;
  }

  /** A second message is answered by the first test that it fails, each time with the event of a failed attempt. */
  lemma SecondMessageFails(cfg: Config, s: State, proof: Proof, name: string, port: int, ip: string,
      local: string, b: nat)
    requires Inv(s)
    ensures var o := Respond(cfg, s, Handshake2(proof, name, port), ip, local, b);
            var fails := reply => o == Outcome(s, reply, [ConnectionAttemptFail(name)], false);
            if name !in s.users then fails(NotRegistered)
            else if s.clients[name].ip != ip then fails(AddressMismatch)
            else if RetrySum(s.clients, ip) >= 3 then fails(TooManyAttempts)
            else
              var user := s.users[name];
              user.clientPublic % cfg.G.N == 0 || !IsProofFor(cfg.G, user, name, proof) ==> fails(Unverified)
  {
    hide Pow;
  }

  /** A second message that passes every test. */
  lemma SecondMessageSucceeds(cfg: Config, s: State, proof: Proof, name: string, port: int, ip: string,
      local: string, b: nat)
    requires Inv(s) && name in s.users && s.clients[name].ip == ip && RetrySum(s.clients, ip) < 3
    requires s.users[name].clientPublic % cfg.G.N != 0 && IsProofFor(cfg.G, s.users[name], name, proof)
    ensures var o := Respond(cfg, s, Handshake2(proof, name, port), ip, local, b);
            var user, client, key := s.users[name], s.clients[name], proof.key;
            var answer := ServerProof(user.clientPublic, proof, key);
            && o.reply == Welcome(Sealed(key, Info(cfg.sessionName, local, cfg.nodePort)), answer)
            && o.events == [Connected(name, ip, port, key)] && !o.crashed
            && o.state.authenticated == s.authenticated + [Info(name, ip, port)]
            && o.state.clients == s.clients[name := Client(client.retryCount, ip, true)]
            && o.state.users == s.users[name := user.(session := Some(Session(key, answer)))]
  {
    hide Pow;
  }

  /** What is not a message of the protocol, or cannot be parsed, does nothing. */
  lemma UnparsableLaw(cfg: Config, s: State, ip: string, local: string, b: nat)
    ensures Respond(cfg, s, Unparsable, ip, local, b) == Outcome(s, Silence, [], false)
  {
  }

  // ---- runs ----

  datatype Input =
    | Message(request: Request, ip: string, localAddress: string, b: nat)
    | ConnectionClosed(ip: string)
    | PeerDisconnected(ip: string)
    | PeerReconnected(ip: string)

  ghost function Apply(cfg: Config, s: State, input: Input): Outcome {
    match input
    case Message(request, ip, localAddress, b) => Respond(cfg, s, request, ip, localAddress, b)
    case ConnectionClosed(ip) =>
      var found := FindByAddress(s.authenticated, ip);
      if found.None? then Outcome(s, Silence, [], false)
      else Outcome(s.(authenticated := WithoutAddress(s.authenticated, ip)), Silence,
                   [Disconnected(found.value.userName)], false)
    case PeerDisconnected(ip) =>
      var found := FindByAddress(s.authenticated, ip);
      Outcome(s, Silence, if found.None? then [] else [Disconnected(found.value.userName)], false)
    case PeerReconnected(ip) =>
      var found := FindByAddress(s.authenticated, ip);
      Outcome(s, Silence, if found.None? then [] else [Reconnected(found.value.userName)], false)
  }

  const Initial := State(map[], map[], [])

  /** The state after a run, given by its inputs in order. */
  ghost function Run(cfg: Config, inputs: seq<Input>): State {
    if inputs == [] then Initial else Apply(cfg, Run(cfg, inputs[..|inputs| - 1]), inputs[|inputs| - 1]).state
  }

  /** What the last input of a run did. */
  ghost function Last(cfg: Config, inputs: seq<Input>): Outcome
    requires inputs != []
  {
    Apply(cfg, Run(cfg, inputs[..|inputs| - 1]), inputs[|inputs| - 1])
  }

  // ---- the state invariant ----

  ghost predicate Inv(s: State) {
    && s.users.Keys == s.clients.Keys
    && forall i :: 0 <= i < |s.authenticated| ==> Registered(s.clients, s.authenticated[i])
  }

  predicate Registered(clients: map<string, Client>, info: Info) {
    && info.userName in clients
    && clients[info.userName].ip == info.ip
    && clients[info.userName].registered
  }

  lemma {:induction false} WithoutAddressKeeps(authenticated: seq<Info>, ip: string)
    ensures forall info :: info in WithoutAddress(authenticated, ip) <==> info in authenticated && info.ip != ip
    ensures |WithoutAddress(authenticated, ip)| <= |authenticated|
  {
    if authenticated != [] {
      WithoutAddressKeeps(authenticated[1..], ip);
      assert authenticated == [authenticated[0]] + authenticated[1..];
    }
  }

  /** One input keeps the invariant, never crashes, and never changes the address of a name. */
  lemma ApplyKeepsInv(cfg: Config, s: State, input: Input)
    requires Inv(s)
    ensures var o := Apply(cfg, s, input);
            && Inv(o.state) && !o.crashed && o.reply != OutOfOrder
            && forall u :: u in s.clients ==> u in o.state.clients && o.state.clients[u].ip == s.clients[u].ip
  {
    var s' := Apply(cfg, s, input).state;
    if input.ConnectionClosed? {
      WithoutAddressKeeps(s.authenticated, input.ip);
      forall i | 0 <= i < |s'.authenticated|
        ensures Registered(s'.clients, s'.authenticated[i])
      {
        assert s'.authenticated[i] in s.authenticated;
      }
    }
  }

  /** The invariant holds in every reachable state. */
  lemma {:induction false} RunKeepsInv(cfg: Config, inputs: seq<Input>)
    ensures Inv(Run(cfg, inputs))
  {
    if inputs != [] {
      RunKeepsInv(cfg, inputs[..|inputs| - 1]);
      ApplyKeepsInv(cfg, Run(cfg, inputs[..|inputs| - 1]), inputs[|inputs| - 1]);
    }
  }

  /**
   * No run reaches the dereference of a missing client or the out-of-order reply behind it, and a
   * name that has been bound to an address keeps it for the rest of the run.
   */
  lemma NeverCrashes(cfg: Config, inputs: seq<Input>, n: nat, username: string)
    requires n < |inputs|
    ensures !Last(cfg, inputs[..n + 1]).crashed && Last(cfg, inputs[..n + 1]).reply != OutOfOrder
    ensures username in Run(cfg, inputs[..n]).clients ==>
              && username in Run(cfg, inputs).clients
              && Run(cfg, inputs).clients[username].ip == Run(cfg, inputs[..n]).clients[username].ip
  {
    assert inputs[..n + 1][..n] == inputs[..n];
    RunKeepsInv(cfg, inputs[..n]);
    ApplyKeepsInv(cfg, Run(cfg, inputs[..n]), inputs[n]);
    if username in Run(cfg, inputs[..n]).clients {
      AddressIsForever(cfg, inputs, n, username);
    }
  }

  lemma {:induction false} AddressIsForever(cfg: Config, inputs: seq<Input>, n: nat, username: string)
    requires n <= |inputs| && username in Run(cfg, inputs[..n]).clients
    ensures username in Run(cfg, inputs).clients
    ensures Run(cfg, inputs).clients[username].ip == Run(cfg, inputs[..n]).clients[username].ip
  {
    if n == |inputs| {
      assert inputs[..n] == inputs;
    } else {
      var init := inputs[..|inputs| - 1];
      assert init[..n] == inputs[..n];
      AddressIsForever(cfg, init, n, username);
      RunKeepsInv(cfg, init);
      ApplyKeepsInv(cfg, Run(cfg, init), inputs[|inputs| - 1]);
    }
  }

  // ---- retry accounting ----

  /** Whether an input is a first handshake message from `ip` that is not turned away. */
  ghost predicate Accepts(cfg: Config, s: State, input: Input, ip: string) {
    && input.Message? && input.request.Handshake1? && input.ip == ip
    && !Apply(cfg, s, input).reply.NameTaken?
  }

  /** The number of accepted first handshake messages from `ip` in a run. */
  ghost function Accepted(cfg: Config, inputs: seq<Input>, ip: string): nat {
    if inputs == [] then 0
    else
      var init := inputs[..|inputs| - 1];
      Accepted(cfg, init, ip) + if Accepts(cfg, Run(cfg, init), inputs[|inputs| - 1], ip) then 1 else 0
  }

  lemma BoundUpdate(clients: map<string, Client>, name: string, client: Client, ip: string)
    requires name in clients ==> clients[name].ip == client.ip
    ensures |Bound(clients[name := client], ip)| ==
            |Bound(clients, ip)| + if name !in clients && client.ip == ip then 1 else 0
  {
    var after := Bound(clients[name := client], ip);
    if name !in clients && client.ip == ip {
      assert after == Bound(clients, ip) + {name};
    } else {
      assert after == Bound(clients, ip);
    }
  }

  /** For every address: its retries plus the names bound to it number its accepted first messages. */
  lemma {:induction false} RetryAccounting(cfg: Config, inputs: seq<Input>, ip: string)
    ensures var clients := Run(cfg, inputs).clients;
            RetrySum(clients, ip) + |Bound(clients, ip)| == Accepted(cfg, inputs, ip)
  {
    if inputs == [] {
      assert Bound(map[], ip) == {};
    } else {
      var init, last := inputs[..|inputs| - 1], inputs[|inputs| - 1];
      var clients, clients' := Run(cfg, init).clients, Run(cfg, inputs).clients;
      RetryAccounting(cfg, init, ip);
      if clients' != clients {
        var name := last.request.username;
        assert clients' == clients[name := clients'[name]];
        RetrySumUpdate(clients, name, clients'[name], ip);
        BoundUpdate(clients, name, clients'[name], ip);
      }
      if Accepts(cfg, Run(cfg, init), last, ip) {
        assert clients'[last.request.username] == Run(cfg, inputs).clients[last.request.username];
        ChangedByAcceptance(clients, clients', last.request.username);
      }
    }
  }

  lemma ChangedByAcceptance(clients: map<string, Client>, clients': map<string, Client>, name: string)
    requires name in clients'
    requires name in clients ==> clients'[name] != clients[name]
    ensures clients' != clients
  {
  }

  /**
   * A second message for a name bound to its sender's address is refused for too many attempts
   * exactly when the address has had at least three accepted first messages beyond one per name.
   */
  lemma RefusedIff(cfg: Config, inputs: seq<Input>, proof: Proof, username: string, port: int, ip: string,
                   local: string, b: nat)
    requires username in Bound(Run(cfg, inputs).clients, ip)
    ensures var s := Run(cfg, inputs);
            Apply(cfg, s, Message(Handshake2(proof, username, port), ip, local, b)).reply == TooManyAttempts
            <==> Accepted(cfg, inputs, ip) - |Bound(s.clients, ip)| >= 3
  {
    RunKeepsInv(cfg, inputs);
    RetryAccounting(cfg, inputs, ip);
  }

  lemma RetrySumNeverFalls(cfg: Config, s: State, input: Input, ip: string)
    requires Inv(s)
    ensures RetrySum(Apply(cfg, s, input).state.clients, ip) >= RetrySum(s.clients, ip)
  {
    var clients, clients' := s.clients, Apply(cfg, s, input).state.clients;
    if clients' != clients {
      var name := input.request.username;
      assert clients' == clients[name := clients'[name]];
      RetrySumUpdate(clients, name, clients'[name], ip);
    }
  }

  lemma {:induction false} RetrySumGrows(cfg: Config, inputs: seq<Input>, n: nat, ip: string)
    requires n <= |inputs|
    ensures RetrySum(Run(cfg, inputs).clients, ip) >= RetrySum(Run(cfg, inputs[..n]).clients, ip)
  {
    if n == |inputs| {
      assert inputs[..n] == inputs;
    } else {
      var init := inputs[..|inputs| - 1];
      assert init[..n] == inputs[..n];
      RetrySumGrows(cfg, init, n, ip);
      RunKeepsInv(cfg, init);
      RetrySumNeverFalls(cfg, Run(cfg, init), inputs[|inputs| - 1], ip);
    }
  }

  lemma RefusedStep(cfg: Config, s: State, input: Input, ip: string)
    requires RetrySum(s.clients, ip) >= MAX_SRP_RETRIES
    ensures forall event :: event in Apply(cfg, s, input).events && event.Connected? ==> event.ip != ip
  {
  }

  /** Refusal is permanent: after it, no input of any longer run authenticates anyone from the address. */
  lemma RefusalIsPermanent(cfg: Config, inputs: seq<Input>, n: nat, ip: string)
    requires n < |inputs|
    requires Accepted(cfg, inputs[..n], ip) - |Bound(Run(cfg, inputs[..n]).clients, ip)| >= 3
    ensures forall event :: event in Last(cfg, inputs).events && event.Connected? ==> event.ip != ip
  {
    var init := inputs[..|inputs| - 1];
    assert init[..n] == inputs[..n];
    RetryAccounting(cfg, inputs[..n], ip);
    RetrySumGrows(cfg, init, n, ip);
    RefusedStep(cfg, Run(cfg, init), inputs[|inputs| - 1], ip);
    hide Apply, Run, Accepted, Bound, RetrySum;
  }

  /** A lost and a returned peer are reported under the name of the first client at its address, and change nothing. */
  lemma PeerEventLaw(cfg: Config, s: State, ip: string, i: nat)
    requires FirstAt(s.authenticated, ip, i)
    ensures var name := s.authenticated[i].userName;
            && Apply(cfg, s, PeerDisconnected(ip)) == Outcome(s, Silence, [Disconnected(name)], false)
            && Apply(cfg, s, PeerReconnected(ip)) == Outcome(s, Silence, [Reconnected(name)], false)
  {
    FirstAtAddress(s.authenticated, ip);
    assert s.authenticated[i] in s.authenticated;
  }

  /** An address without clients is never reported. */
  lemma UnknownPeerLaw(cfg: Config, s: State, ip: string, input: Input)
    requires forall info :: info in s.authenticated ==> info.ip != ip
    requires input == PeerDisconnected(ip) || input == PeerReconnected(ip) || input == ConnectionClosed(ip)
    ensures Apply(cfg, s, input) == Outcome(s, Silence, [], false)
  {
    FirstAtAddress(s.authenticated, ip);
  }

  /** The first of the listed clients at an address. */
  ghost predicate FirstAt(authenticated: seq<Info>, ip: string, i: nat) {
    i < |authenticated| && authenticated[i].ip == ip && forall j :: 0 <= j < i ==> authenticated[j].ip != ip
  }

  /**
   * A closed connection forgets exactly the authenticated clients of its address and reports the
   * first of them; when there is none, nothing happens.
   */
  lemma CloseForgetsAddress(cfg: Config, s: State, ip: string)
    ensures var o := Apply(cfg, s, ConnectionClosed(ip));
            && (forall info :: info in o.state.authenticated <==> info in s.authenticated && info.ip != ip)
            && o.state.clients == s.clients && o.state.users == s.users
            && (o.events == [] <==> forall info :: info in s.authenticated ==> info.ip != ip)
            && (o.events != [] ==>
                  exists i: nat :: FirstAt(s.authenticated, ip, i)
                    && o.events == [Disconnected(s.authenticated[i].userName)])
  {
    WithoutAddressKeeps(s.authenticated, ip);
    FirstAtAddress(s.authenticated, ip);
    hide WithoutAddress, FindByAddress, FirstAt;
  }

  lemma {:induction false} FirstAtAddress(authenticated: seq<Info>, ip: string)
    ensures FindByAddress(authenticated, ip).None? <==> forall info :: info in authenticated ==> info.ip != ip
    ensures FindByAddress(authenticated, ip).Some? ==>
              exists i: nat ::
                FirstAt(authenticated, ip, i) && FindByAddress(authenticated, ip).value == authenticated[i]
  {
    if authenticated != [] {
      if authenticated[0].ip == ip {
        assert FirstAt(authenticated, ip, 0);
      } else {
        var rest := authenticated[1..];
        assert authenticated == [authenticated[0]] + rest;
        FirstAtAddress(rest, ip);
        if FindByAddress(rest, ip).Some? {
          var i: nat :| FirstAt(rest, ip, i) && FindByAddress(rest, ip).value == rest[i];
          assert authenticated[i + 1] == rest[i];
          assert FirstAt(authenticated, ip, i + 1);
        }
      }
    }
  }

  // ---- exported keys ----

  datatype Exported = Exported(userName: string, ip: string, port: int, serverSessionKey: ExportedKey)

  /** `Missing` is the null of a user that is not found, `Undefined` a user without a session. */
  datatype ExportedKey = Missing | Undefined | Present(key: Key)

  function KeyOf(users: map<string, User>, username: string): ExportedKey {
    if username !in users then Missing
    else if users[username].session.None? then Undefined
    else Present(users[username].session.value.key)
  }

  function ExportOne(users: map<string, User>, info: Info): Exported {
    Exported(info.userName, info.ip, info.port, KeyOf(users, info.userName))
  }

  function Export(s: State): (list: seq<Exported>)
    ensures |list| == |s.authenticated|
    ensures forall i :: 0 <= i < |list| ==> list[i] == ExportOne(s.users, s.authenticated[i])
  {
    seq(|s.authenticated|, i requires 0 <= i < |s.authenticated| => ExportOne(s.users, s.authenticated[i]))
  }

  /** The key of the user's latest success, or none if the user has registered again since. */
  ghost function LatestKey(cfg: Config, inputs: seq<Input>, username: string): Option<Key> {
    if inputs == [] then None
    else
      var events := Last(cfg, inputs).events;
      if events == [ConnectionAttempt(username)] then None
      else if |events| == 1 && events[0].Connected? && events[0].username == username
      then Some(events[0].serverSessionKey)
      else LatestKey(cfg, inputs[..|inputs| - 1], username)
  }

  /** The key that a user's record holds, if it holds a session. */
  function HeldKey(users: map<string, User>, username: string): Option<Key> {
    if username in users && users[username].session.Some? then Some(users[username].session.value.key) else None
  }

  /** One input clears, sets or keeps the key that a user's record holds, as its events tell. */
  lemma HeldKeyStep(cfg: Config, s: State, input: Input, username: string)
    requires Inv(s)
    ensures var o := Apply(cfg, s, input);
            HeldKey(o.state.users, username) ==
            if o.events == [ConnectionAttempt(username)] then None
            else if |o.events| == 1 && o.events[0].Connected? && o.events[0].username == username
            then Some(o.events[0].serverSessionKey)
            else HeldKey(s.users, username)
  {
  }

  lemma {:induction false} SessionIsLatest(cfg: Config, inputs: seq<Input>, username: string)
    ensures LatestKey(cfg, inputs, username) == HeldKey(Run(cfg, inputs).users, username)
  {
    if inputs != [] {
      var init := inputs[..|inputs| - 1];
      SessionIsLatest(cfg, init, username);
      RunKeepsInv(cfg, init);
      HeldKeyStep(cfg, Run(cfg, init), inputs[|inputs| - 1], username);
      hide Apply;
    }
  }

  /**
   * Every exported entry is an authenticated client with its own address and port; its key is the
   * latest success's, present exactly when the user has not registered again since, never null.
   */
  lemma ExportIsCorrect(cfg: Config, inputs: seq<Input>, i: nat)
    requires i < |Run(cfg, inputs).authenticated|
    ensures var info := Run(cfg, inputs).authenticated[i];
            var latest := LatestKey(cfg, inputs, info.userName);
            Export(Run(cfg, inputs))[i] ==
            Exported(info.userName, info.ip, info.port, if latest.None? then Undefined else Present(latest.value))
  {
    RunKeepsInv(cfg, inputs);
    assert Registered(Run(cfg, inputs).clients, Run(cfg, inputs).authenticated[i]);
    SessionIsLatest(cfg, inputs, Run(cfg, inputs).authenticated[i].userName);
  }

  /**
   * An authenticated user that sends a first message again stays in the list, but loses its key: it is
   * exported as undefined until it succeeds again.
   */
  lemma RegisteringAgainLosesKey(cfg: Config, inputs: seq<Input>, i: nat, salt: string, A: nat, local: string, b: nat)
    requires i < |Run(cfg, inputs).authenticated|
    ensures var info := Run(cfg, inputs).authenticated[i];
            var again := Message(Handshake1(info.userName, salt, A), info.ip, local, b);
            var s' := Run(cfg, inputs + [again]);
            && s'.authenticated == Run(cfg, inputs).authenticated
            && Export(s')[i] == Exported(info.userName, info.ip, info.port, Undefined)
  {
    RunKeepsInv(cfg, inputs);
    var s := Run(cfg, inputs);
    assert Registered(s.clients, s.authenticated[i]);
    var again := Message(Handshake1(s.authenticated[i].userName, salt, A), s.authenticated[i].ip, local, b);
    assert (inputs + [again])[..|inputs|] == inputs;
  }

  // ---- the class ----

  class CoordinatorServer {
    const cfg: Config
    const srpServer: SRPServer
    var clients: map<string, Client>
    var authenticatedClients: seq<Info>
    var emitted: seq<Event>

    ghost function Abstract(): State
      reads this, srpServer
    {
      State(clients, srpServer.userDB, authenticatedClients)
    }

    ghost predicate Valid()
      reads this, srpServer
    {
      srpServer.G == cfg.G && srpServer.password == cfg.passcode && Inv(Abstract())
    }

    constructor (cfg: Config)
      ensures Valid() && fresh(srpServer) && this.cfg == cfg
      ensures Abstract() == Initial && emitted == []
    {
      this.cfg := cfg;
      srpServer := new SRPServer(cfg.G, cfg.passcode);
      clients := map[];
      authenticatedClients := [];
      emitted := [];
    }

    method RetryCountForIP(ip: string) returns (sum: nat)
      ensures sum == RetrySum(clients, ip)
    {
      sum := 0;
      var rest := clients.Keys;
      while rest != {}
        invariant rest <= clients.Keys
        invariant sum + RetrySumOver(clients, rest, ip) == RetrySum(clients, ip)
        decreases |rest|
      {
        var name :| name in rest;
        RetrySumSplit(clients, rest, name, ip);
        if clients[name].ip == ip {
          sum := sum + clients[name].retryCount;
        }
        rest := rest - {name};
      }
    }

    method HandleClientMessage(request: Request, remoteAddress: string, localAddress: string, b: nat)
      returns (reply: Reply)
      requires Valid()
      modifies this, srpServer
      ensures Valid()
      ensures var o := Respond(cfg, old(Abstract()), request, remoteAddress, localAddress, b);
              && Abstract() == o.state && reply == o.reply && emitted == old(emitted) + o.events
    {
      ApplyKeepsInv(cfg, Abstract(), Message(request, remoteAddress, localAddress, b));
      match request {
        case Unparsable =>
          return Silence;
        case Handshake1(username, salt, clientEphemeralPublic) =>
          if username in clients && remoteAddress != clients[username].ip {
            return NameTaken(username);
          }
          if username !in clients {
            clients := clients[username := Client(0, remoteAddress, false)];
          } else {
            clients := clients[username := clients[username].(retryCount := clients[username].retryCount + 1)];
          }
          emitted := emitted + [ConnectionAttempt(username)];
          var serverEphemeralKey := srpServer.RegisterAndLogin(username, salt, clientEphemeralPublic, b);
          return Challenge(serverEphemeralKey);
        case Handshake2(sessionProof, username, nodePort) =>
          if srpServer.GetSRPUser(username).None? {
            emitted := emitted + [ConnectionAttemptFail(username)];
            return NotRegistered;
          }
          var userIP := clients[username].ip;
          if userIP != remoteAddress {
            emitted := emitted + [ConnectionAttemptFail(username)];
            return AddressMismatch;
          }
          var retryCountForIP := RetryCountForIP(remoteAddress);
          if retryCountForIP >= MAX_SRP_RETRIES {
            emitted := emitted + [ConnectionAttemptFail(username)];
            return TooManyAttempts;
          }
          var serverProof := srpServer.DeriveKeyAndVerifyClient(username, sessionProof);
          if serverProof.None? {
            emitted := emitted + [ConnectionAttemptFail(username)];
            return Unverified;
          }
          authenticatedClients := authenticatedClients + [Info(username, remoteAddress, nodePort)];
          var key := srpServer.GetSessionKey(username).value;
          clients := clients[username := clients[username].(registered := true)];
          emitted := emitted + [Connected(username, remoteAddress, nodePort, key)];
          return Welcome(Sealed(key, Info(cfg.sessionName, localAddress, cfg.nodePort)), serverProof.value);
      }
    }

    method OnConnectionClosed(address: string)
      requires Valid()
      modifies this
      ensures Valid()
      ensures var o := Apply(cfg, old(Abstract()), ConnectionClosed(address));
              Abstract() == o.state && emitted == old(emitted) + o.events
    {
      ApplyKeepsInv(cfg, Abstract(), ConnectionClosed(address));
      var client := FindByAddress(authenticatedClients, address);
      if client.Some? {
        authenticatedClients := WithoutAddress(authenticatedClients, address);
        emitted := emitted + [Disconnected(client.value.userName)];
      }
    }

    method OnPeerDisconnected(address: string)
      modifies this`emitted
      ensures emitted == old(emitted) + Apply(cfg, old(Abstract()), PeerDisconnected(address)).events
    {
      var client := FindByAddress(authenticatedClients, address);
      if client.Some? {
        emitted := emitted + [Disconnected(client.value.userName)];
      }
    }

    method OnPeerReconnected(address: string)
      modifies this`emitted
      ensures emitted == old(emitted) + Apply(cfg, old(Abstract()), PeerReconnected(address)).events
    {
      var client := FindByAddress(authenticatedClients, address);
      if client.Some? {
        emitted := emitted + [Reconnected(client.value.userName)];
      }
    }

    method ExportUsers() returns (list: seq<Exported>)
      requires Valid()
      ensures list == Export(Abstract())
      ensures forall i :: 0 <= i < |list| ==> list[i].serverSessionKey != Missing
    {
      list := [];
      for i := 0 to |authenticatedClients|
        invariant list == Export(Abstract())[..i]
        invariant forall j :: 0 <= j < i ==> list[j].serverSessionKey != Missing
      {
        assert Registered(clients, authenticatedClients[i]);
        var client := authenticatedClients[i];
        list := list + [ExportOne(srpServer.userDB, client)];
      }
    }
  }
}

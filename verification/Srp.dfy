/**
 * The SRP-6a exchange of section 2.6 of RFC 5054 as SRPClient and SRPServer wire it together.
 *
 * Session keys and proofs are ideal hashes: each is the free term of what is hashed, so two of them
 * are equal exactly when their inputs are. The two hashes whose value is used as a number (the
 * scrambling parameter and the private key) are arbitrary functions of the group.
 */
module Srp {
  import opened Wrappers
  import opened ModArith

  datatype Key = SessionKey(secret: nat)

  datatype Proof =
    | ClientProof(username: string, salt: string, A: nat, B: nat, key: Key)
    | ServerProof(A: nat, clientProof: Proof, key: Key)

  datatype Session = Session(key: Key, proof: Proof)

  datatype RawGroup = RawGroup(N: nat, g: nat, k: nat, scramble: (nat, nat) -> nat,
                               hash: (string, string, string) -> nat)

  type Group = G: RawGroup | G.N > 0 witness RawGroup(1, 0, 0, (a, b) => 0, (s, i, p) => 0)

  datatype User = User(salt: string, verifier: nat, clientPublic: nat, serverSecret: nat, serverPublic: nat,
                       session: Option<Session>)

  // ---- the library's primitives ----

  function DerivePrivateKey(G: Group, salt: string, username: string, password: string): nat {
    G.hash(salt, username, password)
  }

  function DeriveVerifier(G: Group, x: nat): nat { ModPow(G.g, x, G.N) }

  function ClientPublic(G: Group, a: nat): nat { ModPow(G.g, a, G.N) }

  function ServerPublic(G: Group, verifier: nat, b: nat): nat {
    (G.k * verifier + ModPow(G.g, b, G.N)) % G.N
  }

  /** S = (B - k * g^x) ^ (a + u * x) */
  function ClientSecret(G: Group, a: nat, B: nat, x: nat): nat {
    ModPow(B - G.k * ModPow(G.g, x, G.N), a + G.scramble(ClientPublic(G, a), B) * x, G.N)
  }

  /** S = (A * v^u) ^ b */
  function ServerSecret(G: Group, b: nat, A: nat, verifier: nat): nat {
    var u := G.scramble(A, ServerPublic(G, verifier, b));
    ModPow(A * ModPow(verifier, u, G.N), b, G.N)
  }

  /** None stands for the exception on a server value that is zero modulo N. */
  function DeriveClientSession(G: Group, a: nat, B: nat, salt: string, username: string, x: nat): Option<Session> {
    if B % G.N == 0 then None
    else
      var key := SessionKey(ClientSecret(G, a, B, x));
      Some(Session(key, ClientProof(username, salt, ClientPublic(G, a), B, key)))
  }

  /** None stands for the exception on a client value that is zero modulo N or a proof that does not match. */
  function DeriveServerSession(G: Group, user: User, username: string, clientProof: Proof): Option<Session> {
    if user.clientPublic % G.N == 0 then None
    else
      var B := ServerPublic(G, user.verifier, user.serverSecret);
      var key := SessionKey(ServerSecret(G, user.serverSecret, user.clientPublic, user.verifier));
      if clientProof != ClientProof(username, user.salt, user.clientPublic, B, key) then None
      else Some(Session(key, ServerProof(user.clientPublic, clientProof, key)))
  }

  /** The proof that a client must give: over its name, what was exchanged, and the key of the secret (A v^u)^b. */
  predicate IsProofFor(G: Group, user: User, username: string, clientProof: Proof) {
    var v, A := user.verifier, user.clientPublic;
    var B := (G.k * v + Pow(G.g, user.serverSecret) % G.N) % G.N;
    var secret := Pow(A * (Pow(v, G.scramble(A, B)) % G.N), user.serverSecret) % G.N;
    clientProof == ClientProof(username, user.salt, A, B, SessionKey(secret))
  }

  /** The user record that a registration stores. */
  function Registration(G: Group, username: string, password: string, salt: string, A: nat, b: nat): User {
    var verifier := DeriveVerifier(G, DerivePrivateKey(G, salt, username, password));
    User(salt, verifier, A, b, ServerPublic(G, verifier, b), None)
  }

  // ---- agreement ----

  /** B - k * g^x is g^b modulo N. */
  lemma BlindingCancels(G: Group, x: nat, b: nat)
    ensures var v := DeriveVerifier(G, x);
            Cong(ServerPublic(G, v, b) - G.k * ModPow(G.g, x, G.N), Pow(G.g, b), G.N)
  {
    var v, n := DeriveVerifier(G, x), G.N;
    var gb := ModPow(G.g, b, n);
    CongMod(G.k * v + gb, n);
    CongWitness(G.k * v, G.k * v, n, 0);
    CongAdd(ServerPublic(G, v, b), G.k * v + gb, G.k * v, G.k * v, n);
    CongMod(Pow(G.g, b), n);
    CongTrans(ServerPublic(G, v, b) - G.k * v, gb, Pow(G.g, b), n);
  }

  /** A * v^u is g^(a + u * x) modulo N. */
  lemma VerifierFolds(G: Group, a: nat, x: nat, u: nat)
    ensures var v := DeriveVerifier(G, x);
            Cong(ClientPublic(G, a) * ModPow(v, u, G.N), Pow(G.g, a + u * x), G.N)
  {
    var v, n := DeriveVerifier(G, x), G.N;
    CongMod(Pow(G.g, a), n);
    CongMod(Pow(v, u), n);
    CongMod(Pow(G.g, x), n);
    CongPow(v, Pow(G.g, x), u, n);
    CongTrans(ModPow(v, u, n), Pow(v, u), Pow(Pow(G.g, x), u), n);
    PowMul(G.g, x, u);
    assert x * u == u * x;
    CongMul(ClientPublic(G, a), Pow(G.g, a), ModPow(v, u, n), Pow(G.g, u * x), n);
    PowAdd(G.g, a, u * x);
  }

  /** Both sides compute the same shared secret from the values they exchange. */
  lemma SecretsAgree(G: Group, x: nat, a: nat, b: nat)
    ensures var v := DeriveVerifier(G, x);
            ClientSecret(G, a, ServerPublic(G, v, b), x) == ServerSecret(G, b, ClientPublic(G, a), v)
  {
    var v, n := DeriveVerifier(G, x), G.N;
    var A, B := ClientPublic(G, a), ServerPublic(G, v, b);
    var u := G.scramble(A, B);
    var e := a + u * x;
    var left, right := B - G.k * ModPow(G.g, x, n), A * ModPow(v, u, n);
    BlindingCancels(G, x, b);
    CongPow(left, Pow(G.g, b), e, n);
    VerifierFolds(G, a, x, u);
    CongPow(right, Pow(G.g, e), b, n);
    PowSwap(G.g, b, e);
    CongSym(Pow(right, b), Pow(Pow(G.g, e), b), n);
    CongTrans(Pow(left, e), Pow(Pow(G.g, e), b), Pow(right, b), n);
    CongRemainder(Pow(left, e), Pow(right, b), n);
  }

  // ---- any password ----

  /** The two public values, and that neither is zero modulo N. */
  predicate NoZero(G: Group, salt: string, username: string, passcode: string, a: nat, b: nat) {
    var x := G.hash(salt, username, passcode);
    && Pow(G.g, a) % G.N != 0
    && (G.k * (Pow(G.g, x) % G.N) + Pow(G.g, b) % G.N) % G.N != 0
  }

  /**
   * The client's secret, derived from its password, is the server's, derived from the passcode: the two
   * formulas of section 2.6 of RFC 5054, with the server's folded into a single power of g.
   */
  predicate Meets(G: Group, salt: string, username: string, passcode: string, password: string, a: nat, b: nat) {
    var x, x' := G.hash(salt, username, passcode), G.hash(salt, username, password);
    var A := Pow(G.g, a) % G.N;
    var B := (G.k * (Pow(G.g, x) % G.N) + Pow(G.g, b) % G.N) % G.N;
    var u := G.scramble(A, B);
    var e: nat, e': nat := a + u * x, a + u * x';
    Pow(B - G.k * (Pow(G.g, x') % G.N), e') % G.N == Pow(G.g, b * e) % G.N
  }

  /** The server's secret is a power of g alone. */
  lemma ServerSecretFolds(G: Group, x: nat, a: nat, b: nat)
    ensures var v := DeriveVerifier(G, x);
            var u := G.scramble(ClientPublic(G, a), ServerPublic(G, v, b));
            ServerSecret(G, b, ClientPublic(G, a), v) == Pow(G.g, b * (a + u * x)) % G.N
  {
    var v, n := DeriveVerifier(G, x), G.N;
    var A := ClientPublic(G, a);
    var u := G.scramble(A, ServerPublic(G, v, b));
    var e := a + u * x;
    VerifierFolds(G, a, x, u);
    CongPow(A * ModPow(v, u, n), Pow(G.g, e), b, n);
    PowMul(G.g, e, b);
    assert e * b == b * e;
    CongRemainder(Pow(A * ModPow(v, u, n), b), Pow(G.g, b * e), n);
  }

  /**
   * A client with any password, against a server with any passcode: the client derives a session exactly
   * if the server's value is not zero modulo N, and then the server accepts its proof exactly when the
   * client's value is not zero either and the two secrets meet. Then both hold the same key and the client
   * accepts the server's proof.
   */
  lemma Agreement(G: Group, username: string, passcode: string, password: string, salt: string, a: nat, b: nat)
    ensures var A := Pow(G.g, a) % G.N;
            var user := Registration(G, username, passcode, salt, A, b);
            var client := DeriveClientSession(G, a, user.serverPublic, salt, username,
                                              DerivePrivateKey(G, salt, username, password));
            && (client.Some? <==> user.serverPublic % G.N != 0)
            && (client.Some? ==>
                  var server := DeriveServerSession(G, user, username, client.value.proof);
                  && (server.Some? <==> A % G.N != 0 && Meets(G, salt, username, passcode, password, a, b))
                  && (server.Some? ==>
                        && server.value.key == client.value.key
                        && Verifies(G, a, client, server.value.proof)))
  {
    ServerSecretFolds(G, DerivePrivateKey(G, salt, username, passcode), a, b);
    hide Pow;
  }

  lemma ValuesAsExchanged(G: Group, username: string, passcode: string, salt: string, a: nat, b: nat)
    ensures ClientPublic(G, a) == Pow(G.g, a) % G.N
    ensures NoZero(G, salt, username, passcode, a, b) <==>
              && ClientPublic(G, a) % G.N != 0
              && Registration(G, username, passcode, salt, ClientPublic(G, a), b).serverPublic % G.N != 0
  {
    hide Pow;
    var v := DeriveVerifier(G, DerivePrivateKey(G, salt, username, passcode));
    ModTwice(Pow(G.g, a), G.N);
    ModTwice(G.k * v + Pow(G.g, b) % G.N, G.N);
  }

  lemma ModTwice(x: int, n: nat)
    requires n > 0
    ensures x % n % n == x % n
  {
  }

  /** The right passcode always meets. */
  lemma PasscodeMeets(G: Group, salt: string, username: string, passcode: string, a: nat, b: nat)
    ensures Meets(G, salt, username, passcode, passcode, a, b)
  {
    var x := DerivePrivateKey(G, salt, username, passcode);
    SecretsAgree(G, x, a, b);
    ServerSecretFolds(G, x, a, b);
    hide Pow;
  }

  /** A small group in which 123456 has the hash 1, and every other password 2. */
  function SmallGroup(): Group {
    RawGroup(23, 5, 3, (A, B) => 1, (salt, username, password) => if password == "123456" then 1 else 2)
  }

  /** In it, a wrong password is refused though no value is zero. */
  lemma WrongPasswordIsRefused(salt: string, username: string)
    ensures NoZero(SmallGroup(), salt, username, "123456", 1, 1)
    ensures !Meets(SmallGroup(), salt, username, "123456", "000000", 1, 1)
  {
    assert Pow(5, 1) == 5 && Pow(5, 2) == 25;
    assert Pow(14, 1) == 14 && Pow(14, 2) == 196 && Pow(14, 3) == 2744;
    assert "000000"[0] != "123456"[0];
  }

  // ---- the two classes ----

  /** The passcode, and the record of every user that has registered. */
  class SRPServer {
    const G: Group
    const password: string
    var userDB: map<string, User>

    constructor (G: Group, password: string)
      ensures this.G == G && this.password == password && userDB == map[]
    {
      this.G := G;
      this.password := password;
      userDB := map[];
    }

    function GetSRPUser(username: string): Option<User>
      reads this
    {
      if username in userDB then Some(userDB[username]) else None
    }

    /** Registers over whatever was stored, dropping any session; `b` is the drawn server secret. */
    method RegisterAndLogin(username: string, salt: string, clientEphemeral: nat, b: nat) returns (serverEphemeral: nat)
      modifies this
      ensures userDB == old(userDB)[username := Registration(G, username, password, salt, clientEphemeral, b)]
      ensures var v := Pow(G.g, G.hash(salt, username, password)) % G.N;
              && serverEphemeral == (G.k * v + Pow(G.g, b) % G.N) % G.N
              && userDB[username] == User(salt, v, clientEphemeral, b, serverEphemeral, None)
    {
      var userPrivateKey := DerivePrivateKey(G, salt, username, password);
      var verifier := DeriveVerifier(G, userPrivateKey);
      serverEphemeral := ServerPublic(G, verifier, b);
      userDB := userDB[username := User(salt, verifier, clientEphemeral, b, serverEphemeral, None)];
    }

    /** A failed verification changes nothing, not even an earlier session. */
    method DeriveKeyAndVerifyClient(username: string, clientProof: Proof) returns (proof: Option<Proof>)
      modifies this
      ensures username !in old(userDB) ==> proof == None && userDB == old(userDB)
      ensures username in old(userDB) ==>
                var user := old(userDB)[username];
                var session := DeriveServerSession(G, user, username, clientProof);
                && (session.Some? <==> user.clientPublic % G.N != 0 && IsProofFor(G, user, username, clientProof))
                && (session.None? ==> proof == None && userDB == old(userDB))
                && (session.Some? ==>
                      && proof == Some(session.value.proof)
                      && userDB == old(userDB)[username := old(userDB)[username].(session := session)])
    {
      if username !in userDB {
        return None;
      }
      var user := userDB[username];
      var serverSession := DeriveServerSession(G, user, username, clientProof);
      if serverSession.None? {
        return None;
      }
      userDB := userDB[username := user.(session := serverSession)];
      return Some(serverSession.value.proof);
    }

    function GetSessionKey(username: string): Option<Key>
      reads this
    {
      if username in userDB && userDB[username].session.Some? then Some(userDB[username].session.value.key) else None
    }
  }

  class SRPClient {
    const G: Group
    const username: string
    const password: string
    const salt: string
    const secret: nat
    const privateKey: nat
    var clientSession: Option<Session>

    constructor (G: Group, username: string, password: string, salt: string, a: nat)
      ensures this.G == G && this.username == username && this.password == password && this.salt == salt
      ensures secret == a && privateKey == G.hash(salt, username, password)
      ensures clientSession == None
    {
      this.G := G;
      this.username := username;
      this.password := password;
      this.salt := salt;
      secret := a;
      privateKey := DerivePrivateKey(G, salt, username, password);
      clientSession := None;
    }

    /** None stands for the exception that leaves the session as it was. */
    method DeriveSessionKey(serverEphemeral: nat) returns (proof: Option<Proof>)
      modifies this
      ensures var session := DeriveClientSession(G, secret, serverEphemeral, salt, username, privateKey);
              && clientSession == (if session.Some? then session else old(clientSession))
              && proof == (if session.Some? then Some(session.value.proof) else None)
              && (proof.None? <==> serverEphemeral % G.N == 0)
              && (proof.Some? ==>
                    var A := Pow(G.g, secret) % G.N;
                    proof.value == ClientProof(username, salt, A, serverEphemeral, session.value.key))
    {
      var session := DeriveClientSession(G, secret, serverEphemeral, salt, username, privateKey);
      if session.None? {
        return None;
      }
      clientSession := session;
      return Some(session.value.proof);
    }

    /** A session that was never derived verifies nothing. */
    method VerifySession(serverProof: Proof) returns (verified: bool)
      ensures verified <==> Verifies(G, secret, clientSession, serverProof)
      ensures verified <==>
                && clientSession.Some?
                && var session := clientSession.value;
                   serverProof == ServerProof(Pow(G.g, secret) % G.N, session.proof, session.key)
    {
      match clientSession {
        case None => return false;
        case Some(session) => return serverProof == ServerProof(ClientPublic(G, secret), session.proof, session.key);
      }
    }
  }

  predicate Verifies(G: Group, a: nat, session: Option<Session>, serverProof: Proof) {
    session.Some? && serverProof == ServerProof(ClientPublic(G, a), session.value.proof, session.value.key)
  }
}

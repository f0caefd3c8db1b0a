# Verified model of the peer-to-peer session protocols

A Dafny model of how devices join, form and keep a secure peer-to-peer session. A host authenticates
clients with a six-digit passcode over SRP-6a, introduces them to each other, waits until every one
of them knows the whole mesh, and from then on all nodes exchange encrypted messages while heartbeats
and reconnect passes keep track of who is there. `dafny verify dfyconfig.toml` checks everything.

Every stateful class of the source is a class here whose methods are proved equal to a specification
function on its abstract state; runs are folds of those functions over arbitrary sequences of events,
and the main results are about all runs.

| file | what it covers |
|---|---|
| `ModArith.dfy`, `Srp.dfy` | modular powers, SRP-6a key agreement, the two SRP classes |
| `Coordinator.dfy` | the host's join protocol: name binding, retries, export |
| `Handshake.dfy` | coordinator and any number of client attempts over an unreliable network |
| `Transport.dfy`, `Certificate.dfy` | what becomes of a name that is sent raw, sealed raw, or encoded and read raw; the name check of a TLS connection |
| `Neighbors.dfy`, `Mesh.dfy` | neighbour tables, the hello/ack barrier, key distribution |
| `SessionStart.dfy` | from the coordinator's export to the mesh, and when a session can start |
| `Utf8.dfy`, `Base64.dfy`, `CryptoUtils.dfy`, `Messaging.dfy` | the message path and its round trip |
| `Heartbeat.dfy` | the watchdog as a timed state machine |
| `TlsClient.dfy`, `TlsServer.dfy` | re-entrant teardown, the server's tables and the destroy sweep |
| `NodeStatus.dfy` | neighbour flags, events, reconnect passes |
| `ProtocolHelpers.dfy`, `Passcode.dfy` | port search, passcode formatting |

## How to read the results

- Networks are sets of packets that stay in flight: a packet may be delivered late, in any order, any
  number of times or never. In the handshake a reply may even reach the wrong client. Deliveries carry
  an arbitrary remote address. Participants are honest: every packet was produced by the modelled code.
- Session keys and proofs are ideal hashes, represented by the free term of what is hashed. Agreement
  of such terms gives agreement for every hash function; the correspondence results use that different
  terms are different. The hashes that are used as numbers, the group and all drawn secrets are arbitrary.
- Time is in whole milliseconds, timers fire exactly when due, and a timer callback runs together with
  the promise reaction it triggers. Port availability, random draws and the block cipher are parameters.
- Names are Unicode text, so without lone surrogates, which JSON would escape. In a message they travel as
  the transport carries them; all else in a message is ASCII. What the library's buffers make of a code
  unit above 255 is a parameter: one byte of any value, or the loss of the text. That holds for a
  certificate's common name too.
- A node's connection to a peer opens only if the peer's certificate passes the node's name check, and a
  message is in flight only once its connection may open. Clients look a session up by its own name.
- The mesh starts from names that are pairwise distinct, the host's included, as the source assumes. The
  rest of its start is proved of the join phase: client names are ASCII (`Handshake.AuthenticatedAreAscii`),
  clients know the host by its own name and under their own key (`SessionStart.JoinedClientKnowsHost`), and
  the host has that key (`SessionStart.JoinedSessionStarts`). The host's node is taken to have the
  coordinator's name and the port that the coordinator announces.
- Endpoints are the keys of the server's tables, as the source assumes.

## Where the code falls short of what it promises

Each of these is kept as the code has it, with the exact condition proved.

- A client whose name is not ASCII can never join, because its messages are sent raw and decoded as UTF-8
  (`Handshake.HandshakeCompletesIff`, `Transport.ArrivesIff`, witness `Handshake.JoseCannotJoin`).
- Nobody can connect to a node or a coordinator whose name holds a colon, because the name check of the
  certificate splits name and port at colons, or has a code unit above 255 (`Certificate.OpensIff`, witness
  `Certificate.ColonIsNeverAccepted`). So such a session is never joined (`Handshake.HandshakeCompletesIff`,
  witness `Handshake.ColonKeepsEverybodyOut`), and a client whose name holds a colon can join but keeps
  the session from starting (`SessionStart.StartsIff`, witness `SessionStart.ColonBlocksSession`).
- A host whose name is not ASCII can never start a session, and no node is ever heard under such a name
  (`SessionStart.JoinedSessionStarts`, `Messaging.RoundTrip`, witness `Messaging.JoseIsNeverHeard`).
- The hello payload survives exactly when it is ASCII, because that path omits the UTF-8 step
  (`Messaging.HelloIsAsciiOnly`, `Mesh.HelloMeshes`, witness `Messaging.HelloGarblesAccents`).
- A user that registers again after a success stays listed but is exported without a key
  (`Coordinator.ExportIsCorrect`, witness `Coordinator.RegisteringAgainLosesKey`), and then the session can
  never start: it starts only if the host has for every listed client the key that the client holds
  (`SessionStart.StartsIff`, witness `SessionStart.RegisteringAgainBlocks`).
- A watchdog stops reporting losses for good exactly when an echo is repeated while the connection is
  recovering (`Heartbeat.BlindIff`, `Heartbeat.GoesBlindIff`, witness `Heartbeat.RepeatedEchoBlinds`).
- `TLSServer.destroy` never completes exactly when a listed TLS connection of a waiting record is no
  longer open (`TlsServer.SweepCompletesIff`, witness `TlsServer.FailedTlsBlocksDestroy`).
- A neighbour's status turns to disconnected without an event exactly on the server-side reconnected
  event (`NodeStatus.StepStatus`, witness `NodeStatus.SilentLossHappens`).

Where comments and code disagree the model follows the code: `registerAndLogin` overwrites an existing
user (its comment says it returns false), a missing session key is exported as undefined (the comment
says null), retries are counted on the first handshake message (the comment says the second), and the
status of a neighbour depends on two flags (the comment names one).

## Model

| member | source | states |
|---|---|---|
| Srp.Agreement | src/SRP/SRPServer.ts:57-91 | whatever passcode the server and password the client use, the server accepts exactly when the client's value is not zero modulo N and the two secret formulas, written with powers, hash and scrambling alone, give one number; then both hold one key and the client accepts the server's proof |
| Srp.PasscodeMeets | src/SRP/SRPClient.ts:31 | with the right passcode they always do, for every group, salt, name and pair of secrets |
| Srp.WrongPasswordIsRefused | src/SRP/SRPServer.ts:57-91 | a group in which the password 000000 does not meet the passcode 123456 |
| Srp.SecretsAgree | src/SRP/SRPClient.ts:59-63 | (B - k g^x)^(a + u x) and (A v^u)^b are the same number modulo N with the values the two classes exchange |
| Srp.SRPServer.RegisterAndLogin | src/SRP/SRPServer.ts:57-63 | registration overwrites the user with the passcode's verifier and no session, and returns the stored public value |
| Srp.SRPServer.DeriveKeyAndVerifyClient | src/SRP/SRPServer.ts:72-91 | an unknown user or a failed verification changes nothing; a success stores the session and returns its proof |
| Srp.SRPClient.DeriveSessionKey | src/SRP/SRPClient.ts:59-63 | the session is derived from the server's value, and kept as it was when the library rejects that value |
| Srp.SRPClient.VerifySession | src/SRP/SRPClient.ts:70-77 | verification succeeds exactly for the proof over the client's own session, and never without one |
| Coordinator.CoordinatorServer.HandleClientMessage | src/Coordinator/CoordinatorServer.ts:172-313 | the handler keeps the state invariant and does what the abstract response says: reply, state and events |
| Coordinator.FirstMessageLaw | src/Coordinator/CoordinatorServer.ts:181-232 | a first message is turned away when its name is bound to another address, and otherwise binds it, counts a retry if it was bound, stores g^hash(salt, name, passcode) and answers with k v + g^b |
| Coordinator.SecondMessageFails | src/Coordinator/CoordinatorServer.ts:235-313 | in a state that the invariant allows the first failing test decides the refusal; each emits one failed attempt and changes nothing, three retries and a proof for other values included |
| Coordinator.SecondMessageSucceeds | src/Coordinator/CoordinatorServer.ts:272-301 | and when all pass, the user is listed, registered and given the session, the answer is sealed with its key, and one connected event carries name, address, port and key |
| Coordinator.CoordinatorServer.RetryCountForIP | src/Coordinator/CoordinatorServer.ts:249 | the loop over all clients adds up the retries of the address |
| Coordinator.CoordinatorServer.OnConnectionClosed | src/Coordinator/CoordinatorServer.ts:103-113 | closing keeps the invariant and updates list and events as the abstract step says |
| Coordinator.CloseForgetsAddress | src/Coordinator/CoordinatorServer.ts:103-113 | exactly the clients of the address are forgotten, and the first of them is reported if there is one |
| Coordinator.PeerEventLaw | src/Coordinator/CoordinatorServer.ts:115-135 | a lost peer is reported as disconnected and one that is back as reconnected, under the name of the first client of its address, and the state stays |
| Coordinator.CoordinatorServer.ExportUsers | src/Coordinator/CoordinatorServer.ts:357-379 | the export has one entry for each authenticated client in order, and its null branch is never taken |
| Coordinator.RunKeepsInv | src/Coordinator/CoordinatorServer.ts:181-313 | in every reachable state SRP users and clients have the same names, and every authenticated entry matches its binding and is registered |
| Coordinator.NeverCrashes | src/Coordinator/CoordinatorServer.ts:235-260 | no run dereferences a missing client or reaches the out-of-order reply, and a name's address never changes |
| Coordinator.RetryAccounting | src/Coordinator/CoordinatorServer.ts:187-204 | for every address in every run, retries plus bound names equal accepted first messages |
| Coordinator.RefusedIff | src/Coordinator/CoordinatorServer.ts:249-271 | a second message is refused for too many attempts exactly when accepted first messages exceed bound names by three |
| Coordinator.RefusalIsPermanent | src/Coordinator/CoordinatorServer.ts:261-271 | once that is so, nothing later in any run authenticates anyone from the address |
| Coordinator.SessionIsLatest | src/SRP/SRPServer.ts:57-91 | the stored session is the latest success since the last registration, if any |
| Coordinator.ExportIsCorrect | src/Coordinator/CoordinatorServer.ts:357-379 | every exported entry has its client's address and port and the key of the latest success since the last registration, undefined when there is none |
| Coordinator.RegisteringAgainLosesKey | src/Coordinator/CoordinatorServer.ts:187-204 | in every run an authenticated user that sends a first message again stays listed and is exported as undefined |
| Transport.ArrivesIff | src/TLS/TLSClient.ts:356-359 | a name that is sent raw and decoded as UTF-8 arrives as itself exactly when it is ASCII |
| Transport.UnsealedIff | src/Coordinator/CoordinatorServer.ts:278-286 | a name that is sealed raw is read as itself exactly when it has single bytes only |
| Transport.GarbledIff | src/Node/ClientNode.ts:74-75 | the hello path keeps a name exactly when it is ASCII and lengthens every other |
| Transport.GarbledApart | src/Node/ClientNode.ts:74-92 | no two names of a hello are read as the same |
| Certificate.OpensIff | src/TLS/TLSClient.ts:159-176 | a server's own certificate passes the check of a client that expects its name exactly when the port can be connected to and the name has single bytes only and no colon |
| Certificate.MatchesOnlyOwn | src/TLS/TLSClient.ts:159-176 | of the names and ports a client may expect, the common name of a server whose name holds no colon matches its own only, and none if the port is zero |
| Certificate.ColonIsNeverAccepted | src/TLS/TLSServer.ts:64-67 | no certificate for the name a:b is ever accepted |
| Handshake.CoordinatorClient.OnData | src/Coordinator/CoordinatorClient.ts:80-132 | the data callback changes session, result, events and sent message as the abstract reception says, a sealed answer that cannot be read or decrypted included |
| Handshake.RefusalsAreReported | src/Coordinator/CoordinatorClient.ts:84-117 | each refusal, and an answer whose proof does not verify, adds one error event and does nothing else |
| Handshake.ChallengesAreAnswered | src/Coordinator/CoordinatorClient.ts:94-103 | a challenge makes the client hold the key and send the proof of the SRP formulas over its own name, password and secret, unless the value is zero modulo N, and reports nothing |
| Handshake.WelcomesAuthenticate | src/Coordinator/CoordinatorClient.ts:115-128 | an answer that verifies authenticates unless its decrypted text cannot be parsed, and settles the result if it is the first |
| Handshake.AuthenticatedIffResolved | src/Coordinator/CoordinatorClient.ts:115-128 | in every run a client has reported itself as authenticated exactly when its promise has resolved |
| Handshake.Correspondence | src/Coordinator/CoordinatorClient.ts:115-128 | in every run a client that resolved with a key was connected before by the server under that name with that key, and before that a client of that name had derived it |
| Handshake.ResolvedKnowsSession | src/Coordinator/CoordinatorServer.ts:278-286 | in every run whoever resolved knows the session by its own name and the port of its node, and that name has single bytes only and no colon |
| Handshake.ConnectedKeyIsStored | src/Coordinator/CoordinatorServer.ts:274-301 | in every run each connection was reported in a state in which the server held the reported key as that user's session key and listed the user as authenticated |
| Handshake.AuthenticatedAreAscii | src/Coordinator/CoordinatorServer.ts:173-276 | in every run, whatever names clients choose, only ASCII names are authenticated |
| Handshake.ServerIsARun | src/Coordinator/CoordinatorServer.ts:172-313 | the server's state in a run of the system is that of the coordinator's own run on what arrives |
| Handshake.JoinedKeyIsLatest | src/Coordinator/CoordinatorServer.ts:357-379 | a client that resolved last of its name holds exactly the key that the coordinator has for it |
| Handshake.HandshakeCompletesIff | src/Coordinator/CoordinatorClient.ts:63-132 | for every passcode and password the undisturbed exchange resolves exactly when the session's name has single bytes only and no colon, its port can be connected to, the client's name is ASCII and may be used from the address, retries are left, no public value is zero and the secrets of passcode and password meet; then both sides hold one key and the client knows the session by its name |
| Handshake.RightPasscodeFits | src/SRP/SRPServer.ts:57-63 | the right passcode leaves of the last two conditions only that no public value is zero |
| Handshake.WrongGuessFails | src/SRP/SRPServer.ts:72-91 | in a concrete group a client with a wrong passcode does not resolve, from any state of the server |
| Handshake.ColonKeepsEverybodyOut | src/TLS/TLSClient.ts:159-176 | in no run does any client of a session named a:b resolve |
| Handshake.JoseCannotJoin | src/Coordinator/CoordinatorServer.ts:173-180 | José has the passcode and is never answered |
| Neighbors.TableNames | src/Node/Node.ts:207-218 | a table built from a list with repetitions has exactly the listed names, entries for the node itself aside |
| Neighbors.LastEntryStays | src/Node/Node.ts:207-218 | a repeated name is left with its last entry |
| Neighbors.HostTable | src/P2PSession/Host.ts:142-159 | after any run of the coordinator the host's table has one entry for each authenticated name other than itself, with its last address and port and the key of its latest success, if any |
| SessionStart.ExportStartsSession | src/Node/ServerNode.ts:28-33 | that table is the one a session with the fitting roster starts from, missing keys included |
| SessionStart.StartsIff | src/Node/ServerNode.ts:47-114 | some run starts the session exactly when there is a client, the host's name is ASCII, no name holds a colon, every port can be connected to, and the host has for every client the key the client holds |
| SessionStart.EveryServedRunStarts | src/Node/ServerNode.ts:47-114 | and then every run starts it that delivers to each client a hello and later its acknowledgement, in any order and with any other deliveries and repetitions |
| SessionStart.StartsExactlyWhenServed | src/Node/ServerNode.ts:53-73 | and only those runs: when the session can start, a run has started it exactly when it has served every client so, from the addresses the two have for each other |
| SessionStart.LeftStarByHello | src/Node/ClientNode.ts:51-64 | in every run a client that has left the star or acknowledged was delivered a hello from the address it has for the host |
| SessionStart.ColonBlocksSession | src/Node/Node.ts:181-190 | with a client named a:b no run starts the session |
| SessionStart.JoinedSessionStarts | src/P2PSession/Host.ts:142-159 | a session out of a join phase in which every client resolved last of its name can start exactly when somebody joined, the host's name is ASCII, every port can be connected to and no client's name holds a colon |
| SessionStart.JoinedClientKnowsHost | src/Node/ClientNode.ts:29-35 | what a client resolved with gives its node exactly the table that the mesh starts from |
| SessionStart.RegisteringAgainBlocks | src/Node/Node.ts:165-193 | after an authenticated client has registered again no run starts the session |
| Mesh.ServerNode.constructor | src/Node/ServerNode.ts:28-33 | the constructor adds all neighbours in order and starts with no acknowledgement |
| Mesh.ServerNode.GenerateHelloMessage | src/Node/ServerNode.ts:86-98 | the payload lists every neighbour exactly once with its keys |
| Mesh.ServerNode.SayHello | src/Node/ServerNode.ts:103-114 | every neighbour that has a key is sent the payload under its own key |
| Mesh.ServerNode.HandleClientMessage | src/Node/ServerNode.ts:47-79 | an acknowledgement is counted under the name that arrives or dropped, and the barrier opens, as the abstract handler says |
| Mesh.AckLaw | src/Node/ServerNode.ts:53-73 | an acknowledgement counts exactly when its name is in the table with the address it comes from; the one that makes the count complete reports the start and empties it |
| Mesh.ClientNode.HandleClientMessage | src/Node/ClientNode.ts:45-105 | a hello whose sender's name arrives is expanded, with the names as they are read, into the table that the recursive expansion describes, and acknowledged, and the client connects to every neighbour |
| Mesh.HelloLaw | src/Node/ClientNode.ts:51-101 | a client with one neighbour changes its table and answers only to a hello that arrives under that neighbour's name, from its address and sealed with the key it is received with; anything else does nothing |
| Mesh.OwnKeyIsFirst | src/Node/ClientNode.ts:77-79 | the client's own receive key is that of the first entry with its name and port, and missing if there is none |
| Mesh.ExpandContents | src/Node/ClientNode.ts:77-92 | for every payload, expansion adds exactly the listed names of other nodes, keeps the entries of known names, and gives an unknown name its first entry, with the listed send key and the client's own receive key |
| Mesh.HelloMeshes | src/Node/ClientNode.ts:66-92 | an accepted hello turns the star around the host into the full mesh view, whatever the order of its payload, exactly when every name in the roster is ASCII |
| Mesh.ExecKeepsInv | src/Node/ServerNode.ts:53-73 | in every run each client is in the star or the full mesh, only clients that accepted a hello are acknowledged, which takes a readable host name and the right key, and packets in flight are sealed with the right keys |
| Mesh.Barrier | src/Node/ServerNode.ts:68-73 | once the session is reported as started, every member's table holds exactly the other members |
| Mesh.StartedEntries | src/Node/ClientNode.ts:77-92 | and then every entry of every table is the one it should be: address, port, both keys, and no flag set |
| Mesh.StartedCanStart | src/Node/ServerNode.ts:66-73 | a session has started only if there is a client, the host's name is ASCII, no name holds a colon, every port can be connected to, and the host has for every client the key the client holds |
| Mesh.KeyAgreement | src/Node/ClientNode.ts:77-92 | in every reachable state, of two members that list each other one sends with what the other receives with exactly when the host's keys for them are those they hold, and between two clients always |
| Mesh.MeshIsStable | src/Node/ClientNode.ts:51 | a further hello never changes an expanded table |
| Mesh.AcksInAnyOrder | src/Node/ServerNode.ts:68-73 | the acknowledgements of all clients in any order report the session as started exactly once, with the last one |
| Utf8.DecodeEncode | src/Node/Node.ts:136 | text is encoded exactly when it has no lone surrogate, and decoding gives it back |
| Utf8.EncodeDecode | src/Node/Node.ts:136 | whatever decodes is the encoding of its text |
| Utf8.UnitBytes | src/Node/Node.ts:169 | a code unit outside the surrogates becomes the one, two or three bytes of section 3 of RFC 3629, by their lead and continuation ranges and their value |
| Utf8.PairBytes | src/Node/Node.ts:169 | a surrogate pair becomes the four bytes of the code point it stands for |
| Utf8.EncodeConcat | src/Node/Node.ts:169 | the encoding of well-formed text followed by any other is the two encodings in order |
| Base64.DecodeEncode | src/Node/Node.ts:114-115 | base64 decoding undoes encoding on every byte string |
| Base64.SymbolsOfAlphabet | src/Node/Node.ts:169 | the symbol of a number is its place in the alphabet of section 4 of RFC 4648, and each symbol is read as its place only |
| Base64.GroupOfThree | src/Node/Node.ts:169 | three bytes become the four symbols of their 24 bits, most significant first |
| Base64.GroupOfLess | src/Node/Node.ts:169 | one or two bytes become the first symbols of the group filled up with zeros, then the padding |
| Base64.EncodeGroups | src/Node/Node.ts:169 | the j-th four symbols of any encoding are those of the j-th three bytes, and there is nothing else |
| CryptoUtils.DecryptEncrypt | src/Utils/cryptoUtils.ts:16-61 | decryption under the same key and initial vector undoes padded CBC encryption for any invertible block function |
| CryptoUtils.CbcBlocks | src/Utils/cryptoUtils.ts:40-61 | the data is padded with n bytes of value n to a whole number of blocks, and each block of the result encrypts its plain block combined with the result block before it, the first with the initial vector |
| CryptoUtils.XorByteLaw | src/Utils/cryptoUtils.ts:42-45 | blocks are combined bit by bit: each of the eight bits is set exactly where the two differ |
| Messaging.RoundTrip | src/Node/Node.ts:103-193 | between tables with agreeing keys text is sent exactly if it is well formed, and delivered as sent under the sender's name exactly if that name is ASCII and the address is the expected one |
| Messaging.JoseIsNeverHeard | src/Node/Node.ts:103-106 | whatever José sends is dropped on arrival |
| Messaging.OpenSent | src/Node/Node.ts:165-193 | a message is sent exactly for well-formed text and opens under the key it was sent with |
| Messaging.SendLaw | src/Node/Node.ts:165-193 | nothing is sent to a stranger, sending fails for ill-formed text or a missing key, and otherwise the message carries kind, sender, initial vector and the encrypted base64 of the text's UTF-8 |
| Messaging.IgnoreLaw | src/Node/Node.ts:108-133 | a message of another kind, from a stranger, from another address or without a key to read it is ignored |
| Messaging.HelloIsAsciiOnly | src/Node/ClientNode.ts:66-75 | a hello payload is read as written exactly when it is ASCII |
| Messaging.SessionMessaging | src/Node/Node.ts:165-193 | after any run that started the session, any member's connection to any other can open and its text is delivered with its name |
| Heartbeat.HeartbeatMonitor.OnConnected | src/TLS/TLSClient.ts:177-205 | the connected callback sends a request and arms one disconnect timer |
| Heartbeat.HeartbeatMonitor.OnHeartbeat | src/TLS/TLSClient.ts:258-313 | an echo of the outstanding request clears both timers, revives the connection and arms the retransmission timer; any other payload changes nothing |
| Heartbeat.HeartbeatMonitor.OnTimer | src/TLS/TLSClient.ts:280-309 | the two timer callbacks with the promise reactions they trigger |
| Heartbeat.EchoLaw | src/TLS/TLSClient.ts:258-313 | which timers are left and what is logged after a payload: nothing changes unless it is that of the outstanding request, and then one retransmission timer is due in 1000 ms and a lost peer is reported as back |
| Heartbeat.TimerLaw | src/TLS/TLSClient.ts:187-204 | the disconnect timer reports a loss and sends a new request exactly if the promise is pending; the retransmission timer sends a request and sets the disconnect timer, and renews the promise after a loss |
| Heartbeat.WatchdogSafety | src/TLS/TLSClient.ts:177-313 | in every reachable state, for every network, at most one timer is in the event loop and a handle holds it, a timer is armed or a request is unanswered, reports alternate from disconnected on, an echo carries the payload of the last request, and a request follows only such an echo or a timeout, as section 3 of RFC 6520 requires |
| Heartbeat.ReportIsDeserved | src/TLS/TLSClient.ts:187-204 | a peer is reported only after leaving one request unanswered for exactly 1000 ms |
| Heartbeat.PromptPeerIsNeverReported | src/TLS/TLSClient.ts:258-309 | if the echo of every request arrives within 1000 ms of it, unless the run ends before, the disconnect timer never fires and nothing is reported |
| Heartbeat.SilenceIsReported | src/TLS/TLSClient.ts:280-309 | silence is reported exactly at the time its verdict names, not earlier, and certainly by then |
| Heartbeat.TimingBound | src/TLS/TLSClient.ts:177-205 | that time is 1000 ms after connecting and 2000 ms after a matched echo |
| Heartbeat.GoesBlindIff | src/TLS/TLSClient.ts:272-309 | a step makes the watchdog unable to report exactly when it repeats an echo while recovering |
| Heartbeat.BlindIff | src/TLS/TLSClient.ts:272-309 | a run ends blind exactly when it contains such a repetition |
| Heartbeat.BlindForever | src/TLS/TLSClient.ts:303-308 | a blind watchdog stays blind and reports nothing |
| Heartbeat.NeverBlind | src/TLS/TLSClient.ts:265-309 | over a network that repeats no echo the watchdog is never blind |
| Heartbeat.RepeatedEchoBlinds | src/TLS/TLSClient.ts:272-309 | a concrete run that goes blind |
| TlsClient.TLSClient.OnSocketClose | src/TLS/TLSClient.ts:86-97 | the socket handler, with the TLS close it may trigger, has the flat effect of its specification |
| TlsClient.TLSClient.OnTlsClosed | src/TLS/TLSClient.ts:233-248 | the TLS callback, with the socket close it may trigger, has the flat effect of its specification |
| TlsClient.TLSClient.OnSocketError | src/TLS/TLSClient.ts:99-105 | an error tears down like a close and is reported after it |
| TlsClient.TLSClient.Destroy | src/TLS/TLSClient.ts:411-433 | destroy clears both timers and closes the TLS side |
| TlsClient.TeardownIsConfluent | src/TLS/TLSClient.ts:86-97 | whatever closes an established connection first and whatever follows, everything is torn down by the first trigger and nothing is added later |
| TlsClient.SocketCloseLaw | src/TLS/TLSClient.ts:86-97 | from every state, the flags, timers and order of events that a socket close leaves |
| TlsClient.TlsCloseLaw | src/TLS/TLSClient.ts:233-248 | from every state, the flags, timers and order of events that a TLS close leaves |
| TlsClient.EachEventOnce | src/TLS/TLSClient.ts:233-248 | destroyed, tls-closed and socket-closed are each emitted exactly once |
| TlsServer.TLSServer.OnConnection | src/TLS/TLSServer.ts:172-201 | a connection fills its slot in all tables and leaves the others alone |
| TlsServer.TLSServer.OnTlsConnected | src/TLS/TLSServer.ts:243-261 | the connected callback marks the record as open with a timer and leaves the other slots alone |
| TlsServer.TLSServer.EmitClose | src/TLS/TLSServer.ts:113-130 | the socket handler, re-entrant calls included, affects one slot as specified |
| TlsServer.TLSServer.TlsClose | src/TLS/TLSServer.ts:297-312 | the closed callback, re-entrant calls included, affects one slot as specified |
| TlsServer.TLSServer.DisconnectClient | src/TLS/TLSServer.ts:468-482 | disconnecting closes and forgets one client and keeps the tables consistent |
| TlsServer.TLSServer.Destroy | src/TLS/TLSServer.ts:417-452 | the sweep over tables that shrink meanwhile leaves no socket; with all TLS connections open it empties the TLS table and resolves every promise exactly once |
| TlsServer.SlotRunKeepsInv | src/TLS/TLSServer.ts:113-201 | in every run a record's promise is resolved exactly when its TLS entry is gone, and then once |
| TlsServer.OpenSlotLaw | src/TLS/TLSServer.ts:113-130 | what a connection that is open has in the tables, and what each event leaves of it |
| TlsServer.FailedSlotLaw | src/TLS/TLSServer.ts:113-130 | the same for one whose TLS side has failed: a socket close marks its record as closed without resolving it |
| TlsServer.GoneSlotLaw | src/TLS/TLSServer.ts:113-130 | and for one that is gone: no event but a new connection brings anything back |
| TlsServer.SweepCompletesIff | src/TLS/TLSServer.ts:417-452 | the wait of destroy completes exactly when the listed TLS connection was open |
| TlsServer.ClientRecords.OnConnected | src/TLS/TLSServer.ts:243-271 | a connection gets a fresh record of its own with one watchdog, and no other record changes |
| TlsServer.ClientRecords.OnHeartbeat | src/TLS/TLSServer.ts:321-371 | an echo changes the record of its connection as it changes one watchdog, and no other |
| TlsServer.ClientRecords.OnTimer | src/TLS/TLSServer.ts:259-369 | so does a timer |
| TlsServer.ClientRecords.OnClosed | src/TLS/TLSServer.ts:297-312 | closing takes the record away and no other changes |
| TlsServer.EachClientIsAWatchdog | src/TLS/TLSServer.ts:243-371 | in every run, with connections opening and closing at any time, the record of an open connection is what the watchdog of that connection alone makes of what it has seen |
| NodeStatus.Node.OnIntroduced | src/Node/ClientNode.ts:80-92 | an unknown neighbour enters table and order, a known one and the node itself change nothing |
| NodeStatus.Node.OnSocketClosed | src/Node/Node.ts:303-314 | the handler marks, reconnects and reports as specified |
| NodeStatus.Node.OnDisconnected | src/Node/Node.ts:316-327 | the handler marks, reconnects and reports as specified |
| NodeStatus.Node.OnServerEvent | src/Node/Node.ts:368-414 | the three server-side handlers as specified |
| NodeStatus.Node.StartReconnect | src/Node/Node.ts:424-452 | the part of reconnect before its first wait |
| NodeStatus.Node.ResumePass | src/Node/Node.ts:430-450 | what a pass does between two waits |
| NodeStatus.Node.GetNeighborStatus | src/Node/Node.ts:248-255 | each neighbour is listed in order, connected exactly when both flags are clear |
| NodeStatus.ReconnectIsSingleFlight | src/Node/Node.ts:424-452 | in every interleaving, new neighbours included, at most one pass is in flight, exactly while the flag is set, and the handlers are registered once, or not at all between the server's close and its rebuild |
| NodeStatus.PassesStartByClosing | src/Node/Node.ts:430-437 | every pass rebuilds the server: the shortcut for a healthy table is never taken |
| NodeStatus.PassStartsIff | src/Node/Node.ts:303-327 | a pass starts exactly when none is in flight and a loss leaves no neighbour that the same kind of loss has not reached, and no other input starts one |
| NodeStatus.ReconnectLaw | src/Node/Node.ts:424-437 | a reconnect does nothing while one is in flight, closes the server unless all neighbours are healthy, and changes nothing but who rebuilds a socket |
| NodeStatus.PassLaw | src/Node/Node.ts:430-450 | what each step of a pass does: exactly the disconnected neighbours that are not rebuilding start to when the new server listens, and the last step alone makes the next pass possible |
| NodeStatus.RebuildingLaw | src/Node/Node.ts:281-414 | the exact effect of every other input on who is rebuilding a socket |
| NodeStatus.FoundIsFirst | src/Node/Node.ts:359-366 | a server event is about the first neighbour at its address, and nobody if that one's name is empty |
| NodeStatus.LearnsLaw | src/Node/ClientNode.ts:80-92 | a new name enters the end of the table with the given address, port and keys and no flag; a known one, and the node itself, change nothing |
| NodeStatus.StepStatus | src/Node/Node.ts:281-414 | the exact effect of every input on every flag and event of every neighbour; only the server-side reconnected event turns a status without an event |
| NodeStatus.StrangerStatus | src/Node/ClientNode.ts:80-92 | no input tells of a loss or return of a name that is not a neighbour, and only a hello makes it one, clear of all flags |
| NodeStatus.SilentLossHappens | src/Node/Node.ts:400-414 | a node with one healthy neighbour shows it as disconnected without an event |
| NodeStatus.EventDiscipline | src/Node/Node.ts:281-333 | for every name, whenever it becomes a neighbour, two disconnected events have a connected or reconnected event between them, and a last event that says disconnected agrees with the status |
| NodeStatus.StatusRefinesWatchdog | src/Node/Node.ts:248-255 | while a connection is up its neighbour is shown as connected exactly when the hard flag is clear and the watchdog is alive |
| ProtocolHelpers.GetTCPOpenPort | src/Utils/protocolHelpers.ts:30-67 | the outcome is the first port in the search order that is not busy, for every start and every answer of the probes, a throwing probe included |
| ProtocolHelpers.FirstNotBusyDecides | src/Utils/protocolHelpers.ts:38-66 | no port exactly when every searched one is busy; otherwise all searched before the answer are busy and the answer itself tells whether it is free or its probe throws |
| ProtocolHelpers.NearestFreePort | src/Utils/protocolHelpers.ts:38-58 | a port is found exactly when it is the least free one from the start upwards or, with none there, the greatest free one below it in the dynamic range; a rejection exactly when no searched port is free |
| Passcode.SixDigits | src/Coordinator/CoordinatorServer.ts:94 | six digits whose value is the number itself below a million, and otherwise its six leading digits |
| Passcode.PasscodeOfBytes | src/Coordinator/CoordinatorServer.ts:94 | the same for the big-endian value of any three random bytes, through their hexadecimal form |

## Left out

- TLS, X.509, RSA key generation and the modular power routine are library code; the model has their callbacks and assumes that closing an open TLS connection calls the closed callback once.
- Teardown before the TLS handshake has completed depends on library flags that are not part of this model.
- Sockets, the splitting of long messages into records, JSON syntax and escapes, and wall-clock jitter: messages are values of any length, addresses are strings and time is exact.
- The secure-remote-password package is not part of this model; its primitives follow section 2.6 of RFC 5054.
- Discovery, the re-emission of events in the session classes, and the example application are plumbing.
- Liveness of reconnecting against the network, and mutual exclusion by `rebuildingSocket`, which the code does not provide.
- Forged messages and guessing strength: participants are honest.
- Names that plain objects inherit, such as constructor: the coordinator's table of clients is a plain map here.
- The error status of encryption, which padded CBC never produces, and decryption under a wrong key, which is taken to fail rather than to give a text by chance.
- The remote port that a node remembers for a neighbour, which nothing reads, and everything in a certificate but its name and port.
- Utf8.Encode: characters outside the modelled code units do not exist in the source's strings, so it has no further case.
- Base64.Decode: the library's skipping of foreign characters is not modelled; such input is rejected.
- NodeStatus.ReconnectUser: the flag that an immediate return clears in a microtask is cleared at once.
- TlsServer.TLSServer.CloseAllSockets: the close events that destroying the sockets causes later are taken to follow at once.
- TlsClient.TLSClient.Destroy: the promise that it returns and the new socket and listeners that follow are not modelled, nor that it waits for the next turn of the event loop.
- Mesh.ServerNode.GenerateHelloMessage: the order of the payload is left open, since nothing depends on it.

/**
 * Messages between nodes: UTF-8, base64, padded CBC and base64 again on the way out, and the same
 * undone on the way in. The message itself, with the name of its sender, travels raw. The block cipher
 * is a parameter.
 */
module Messaging {
  import opened Wrappers
  import opened Srp
  import opened Neighbors
  import opened Utf8
  import Base64
  import opened CryptoUtils
  import opened Transport
  import opened Certificate
  import Mesh

  datatype Kind = MessageKind | HelloKind | BroadcastKind | AckHelloKind

  datatype NodeMessage = NodeMessage(kind: Kind, encryptedMessage: Bytes, iv: Bytes, from: string)

  /** `Nothing` is an unknown receiver; `Rejected` is text or a key that cannot be encoded. */
  datatype SendResult = Nothing | Rejected | Sent(message: NodeMessage)

  datatype Received = Ignored | Threw | Delivered(sender: string, text: Text)

  type Cipher = BlockCipher<Key>

  function SendMessage(cipher: Cipher, table: Table, identifier: string, to: string, text: Text, kind: Kind, iv: Bytes)
    : SendResult
    requires |iv| == BLOCK
  {
    if to !in table then Nothing
    else
      var bytes := Utf8.Encode(text);
      if bytes.None? || table[to].sendKey.None? then Rejected
      else
        var encrypted := AesEncrypt(cipher, table[to].sendKey.value, iv, Base64.Encode(bytes.value));
        Sent(NodeMessage(kind, Base64.Encode(encrypted), Base64.Encode(iv), identifier))
  }

  /** The decrypted bytes of a message under a key: base64, CBC, base64. */
  function OpenMessage(cipher: Cipher, key: Key, message: NodeMessage): Option<Bytes> {
    var encrypted, iv := Base64.Decode(message.encryptedMessage), Base64.Decode(message.iv);
    if encrypted.None? || iv.None? || |iv.value| != BLOCK then None
    else
      var decrypted := AesDecrypt(cipher, key, iv.value, encrypted.value);
      if decrypted.None? then None else Base64.Decode(decrypted.value)
  }

  function HandleMessage(w: Wire, cipher: Cipher, table: Table, message: NodeMessage, remoteAddress: string): Received {
    var from := Arrives(w, message.from);
    if from.None? then Threw
    else if message.kind != MessageKind || from.value !in table then Ignored
    else if table[from.value].ip != remoteAddress || table[from.value].receiveKey.None? then Ignored
    else
      var bytes := OpenMessage(cipher, table[from.value].receiveKey.value, message);
      if bytes.None? then Threw
      else
        var text := Utf8.Decode(bytes.value);
        if text.None? then Threw else Delivered(from.value, text.value)
  }

  /** The hello path stops before the UTF-8 step and reads its bytes as text one unit a byte. */
  function OpenHello(cipher: Cipher, key: Key, message: NodeMessage): Option<Text> {
    var bytes := OpenMessage(cipher, key, message);
    if bytes.None? then None else Some(AsText(bytes.value))
  }

  /**
   * What a message carries: the text as UTF-8, then base64, then encrypted under the receiver's key, then
   * base64 again, beside the initial vector in base64 and the sender's own name.
   */
  lemma SendLaw(cipher: Cipher, table: Table, identifier: string, to: string, text: Text, kind: Kind, iv: Bytes)
    requires |iv| == BLOCK
    ensures var message := SendMessage(cipher, table, identifier, to, text, kind, iv);
            && (message == Nothing <==> to !in table)
            && (message == Rejected <==> to in table && (!WellFormed(text) || table[to].sendKey.None?))
            && (message.Sent? ==>
                  && to in table && table[to].sendKey.Some? && Utf8.Encode(text).Some?
                  && var data := Base64.Encode(Utf8.Encode(text).value);
                     var encrypted := AesEncrypt(cipher, table[to].sendKey.value, iv, data);
                     message == Sent(NodeMessage(kind, Base64.Encode(encrypted), Base64.Encode(iv), identifier)))
  {
    Utf8.DecodeEncode(text);
  }

  /** Messages that are not for the message handler, or not from a known neighbour at its address, are ignored. */
  lemma IgnoreLaw(w: Wire, cipher: Cipher, table: Table, message: NodeMessage, address: string, from: string)
    requires Arrives(w, message.from) == Some(from)
    requires || message.kind != MessageKind || from !in table || table[from].ip != address
             || table[from].receiveKey.None?
    ensures HandleMessage(w, cipher, table, message, address) == Ignored
  {
  }

  /** What is sent is sent exactly for well-formed text to a neighbour with a key, and opens under that key. */
  lemma OpenSent(cipher: Cipher, table: Table, identifier: string, to: string, text: Text, kind: Kind, iv: Bytes)
    requires cipher.Invertible() && |iv| == BLOCK && to in table && table[to].sendKey.Some?
    ensures var sent := SendMessage(cipher, table, identifier, to, text, kind, iv);
            && (sent.Sent? <==> WellFormed(text))
            && (sent.Sent? ==>
                  && sent.message.kind == kind && sent.message.from == identifier
                  && OpenMessage(cipher, table[to].sendKey.value, sent.message) == Utf8.Encode(text))
  {
    Utf8.DecodeEncode(text);
    if WellFormed(text) {
      var key := table[to].sendKey.value;
      var data := Base64.Encode(Utf8.Encode(text).value);
      hide AesEncrypt, AesDecrypt, Base64.Encode, Base64.Decode, Utf8.Encode, WellFormed;
      Base64.DecodeEncode(AesEncrypt(cipher, key, iv, data));
      Base64.DecodeEncode(iv);
      DecryptEncrypt(cipher, key, iv, data);
      Base64.DecodeEncode(Utf8.Encode(text).value);
    }
  }

  /**
   * The round trip: between two tables whose keys agree, under every initial vector, text is sent
   * exactly if it is well formed, and it is delivered as it was sent and under the sender's name exactly
   * if that name is ASCII and the message comes from the address that the receiver has for it.
   */
  lemma RoundTrip(w: Wire, cipher: Cipher, sender: string, senderTable: Table, receiver: string, receiverTable: Table,
                  text: Text, iv: Bytes, address: string)
    requires cipher.Invertible() && |iv| == BLOCK
    requires receiver in senderTable && sender in receiverTable
    requires senderTable[receiver].sendKey.Some? && senderTable[receiver].sendKey == receiverTable[sender].receiveKey
    ensures var sent := SendMessage(cipher, senderTable, sender, receiver, text, MessageKind, iv);
            && (sent.Sent? <==> WellFormed(text))
            && (sent.Sent? ==>
                  (HandleMessage(w, cipher, receiverTable, sent.message, address) == Delivered(sender, text)
                   <==> AsciiName(sender) && receiverTable[sender].ip == address))
  {
    OpenSent(cipher, senderTable, sender, receiver, text, MessageKind, iv);
    Utf8.DecodeEncode(text);
    ArrivesIff(w, sender);
    hide SendMessage, OpenMessage, AsciiName, Arrives, WellFormed;
  }

  /** Nothing that José sends is ever read. */
  lemma JoseIsNeverHeard(w: Wire, cipher: Cipher, table: Table, message: NodeMessage, address: string)
    requires message.from == "Jos\U{E9}"
    ensures HandleMessage(w, cipher, table, message, address) == Threw
  {
    JoseNeverArrives(w);
  }

  /** A hello reaches its receiver unchanged exactly when its payload is ASCII. */
  lemma HelloIsAsciiOnly(cipher: Cipher, table: Table, identifier: string, to: string, payload: Text, iv: Bytes)
    requires cipher.Invertible() && |iv| == BLOCK && WellFormed(payload)
    requires to in table && table[to].sendKey.Some?
    ensures var sent := SendMessage(cipher, table, identifier, to, payload, HelloKind, iv);
            && sent.Sent?
            && (OpenHello(cipher, table[to].sendKey.value, sent.message) == Some(payload) <==> Ascii(payload))
  {
    OpenSent(cipher, table, identifier, to, payload, HelloKind, iv);
    BinaryReading(payload);
  }

  /** A name with one letter outside ASCII is garbled on the hello path. */
  lemma HelloGarblesAccents()
    ensures WellFormed([0xE9]) && Utf8.Encode([0xE9]) == Some([0xC3, 0xA9])
    ensures AsText([0xC3, 0xA9]) != [0xE9]
  {
    var one: Text := [0xE9];
    assert one[1..] == [];
    var rest := Utf8.Encode(one[1..]);
    assert rest == Some([]);
    var bytes: Bytes := [0xC3, 0xA9];
    assert EncodeUnit(0xE9) == bytes;
    assert Utf8.Encode(one) == Prepend(EncodeUnit(one[0]), rest);
    assert bytes + [] == bytes;
  }

  /**
   * The whole session: after any run of the mesh protocol in which the host has reported the session
   * as started, any member's connection to any other can open, and its text is delivered with its name.
   */
  lemma SessionMessaging(lib: Buffers, cipher: Cipher, session: Mesh.Session, actions: seq<Mesh.Action>,
                         x: string, y: string, text: Text, iv: Bytes)
    requires cipher.Invertible() && |iv| == BLOCK && WellFormed(text)
    requires Mesh.Named(session) && x in Mesh.Members(session) && y in Mesh.Members(session) && x != y
    requires Mesh.Exec(lib, session, actions).host.started > 0
    ensures var s := Mesh.Exec(lib, session, actions);
            && s.clients.Keys == session.roster.Keys
            && var (tx, ty) := (Mesh.TableOf(session, s, x), Mesh.TableOf(session, s, y));
               var sent := SendMessage(cipher, tx, x, y, text, MessageKind, iv);
               && sent.Sent? && y in tx && Opens(lib.certificate, y, tx[y].serverPort)
               && HandleMessage(lib.tls, cipher, ty, sent.message, Mesh.AddressOf(session, y, x)) == Delivered(x, text)
  {
    Mesh.Barrier(lib, session, actions, x);
    Mesh.Barrier(lib, session, actions, y);
    Mesh.StartedCanStart(lib, session, actions);
    Mesh.KeyAgreement(lib, session, actions, x, y);
    assert AsciiName(x) && AsciiName(y);
    var s := Mesh.Exec(lib, session, actions);
    hide Mesh.Exec, AsciiName, WellFormed, SendMessage, HandleMessage, Opens, Dialable;
    var tx, ty := Mesh.TableOf(session, s, x), Mesh.TableOf(session, s, y);
    assert y in tx.Keys && x in ty.Keys;
    Mesh.KnownAddress(lib, session, actions, y, x);
    Mesh.KnownAddress(lib, session, actions, x, y);
    AsciiOpens(lib.certificate, y, tx[y].serverPort);
    RoundTrip(lib.tls, cipher, x, tx, y, ty, text, iv, Mesh.AddressOf(session, y, x));
  }
}

/**
 * The name check of a TLS connection: a server's certificate carries its name and port joined by a
 * colon, and the client splits them apart again at colons and compares.
 */
module Certificate {
  import opened Wrappers
  import opened Utf8
  import opened Transport
  import Passcode

  /** The common name that a server puts into its certificate; port 0 is falsy and left out. */
  function CommonName(name: string, port: nat): string {
    if port == 0 then name else name + ":" + Passcode.ToDecimal(port)
  }

  /** `split(':')` */
  function Split(s: string): (parts: seq<string>)
    ensures |parts| > 0
  {
    if s == "" then [""]
    else
      var parts := Split(s[1..]);
      if s[0] == ':' then [""] + parts else [[s[0]] + parts[0]] + parts[1..]
  }

  /** The client's comparison: what stands before the first colon, and what stands between it and the next. */
  predicate Matches(commonName: string, expected: string, port: nat) {
    var parts := Split(commonName);
    parts[0] == expected && |parts| > 1 && parts[1] == Passcode.ToDecimal(port)
  }

  predicate IsPort(port: int) { 0 < port <= 0xFFFF }

  /** A connection to the server of that name and port: the certificate is read one character a byte. */
  predicate Opens(w: Wire, name: string, port: int) {
    IsPort(port) &&
    var read := Unsealed(w, CommonName(name, port));
    read.Some? && Matches(read.value, name, port)
  }

  /** A port that can be connected to, and a name without a colon. */
  predicate Dialable(name: string, port: int) {
    IsPort(port) && ':' !in name
  }

  lemma {:induction false} PartsHoldNoColon(s: string)
    ensures forall i :: 0 <= i < |Split(s)| ==> ':' !in Split(s)[i]
  {
    if s != "" {
      PartsHoldNoColon(s[1..]);
    }
  }

  lemma {:induction false} FirstPartIsPrefix(s: string)
    ensures Split(s)[0] <= s
  {
    if s != "" {
      FirstPartIsPrefix(s[1..]);
    }
  }

  lemma {:induction false} SplitPlain(s: string)
    requires ':' !in s
    ensures Split(s) == [s]
  {
    if s != "" {
      SplitPlain(s[1..]);
      assert s == [s[0]] + s[1..];
    }
  }

  lemma {:induction false} SplitAtColon(s: string, rest: string)
    requires ':' !in s
    ensures Split(s + ":" + rest) == [s] + Split(rest)
  {
    var all := s + ":" + rest;
    if s == "" {
      assert all[1..] == rest;
    } else {
      SplitAtColon(s[1..], rest);
      assert all[1..] == s[1..] + ":" + rest;
      assert [s[0]] + s[1..] == s;
    }
  }

  // ---- characters of single bytes ----

  predicate ByteChars(s: string) { forall i :: 0 <= i < |s| ==> s[i] as int < 0x100 }

  lemma OneChar(c: char)
    ensures SingleBytes(CharUnits(c)) <==> c as int < 0x100
  {
    if c as int >= 0x100 {
      assert CharUnits(c)[0] >= 0x100;
    }
  }

  lemma {:induction false} SingleByteChars(s: string)
    ensures SingleBytes(Units(s)) <==> ByteChars(s)
  {
    if s != "" {
      var first, rest := CharUnits(s[0]), Units(s[1..]);
      SingleByteChars(s[1..]);
      assert SingleBytes(first + rest) <==> SingleBytes(first) && SingleBytes(rest) by {
        assert first == (first + rest)[..|first|] && rest == (first + rest)[|first|..];
      }
      OneChar(s[0]);
      assert ByteChars(s) <==> s[0] as int < 0x100 && ByteChars(s[1..]);
    }
  }

  lemma PortIsPlain(port: nat)
    ensures ':' !in Passcode.ToDecimal(port) && ByteChars(Passcode.ToDecimal(port))
  {
    Passcode.DecimalIsCanonical(port);
    assert Passcode.AllDigits(Passcode.ToDecimal(port));
  }

  lemma DecimalApart(p: nat, q: nat)
    requires Passcode.ToDecimal(p) == Passcode.ToDecimal(q)
    ensures p == q
  {
    Passcode.DecimalIsCanonical(p);
    Passcode.DecimalIsCanonical(q);
  }

  /** The certificate of a name without a colon is accepted for no other name and no other port. */
  lemma MatchesOnlyOwn(name: string, port: nat, expected: string, remotePort: nat)
    requires ':' !in name
    ensures Matches(CommonName(name, port), expected, remotePort) <==>
              port > 0 && expected == name && remotePort == port
  {
    if port == 0 {
      SplitPlain(name);
    } else {
      PortIsPlain(port);
      SplitAtColon(name, Passcode.ToDecimal(port));
      SplitPlain(Passcode.ToDecimal(port));
      if Passcode.ToDecimal(remotePort) == Passcode.ToDecimal(port) {
        DecimalApart(remotePort, port);
      }
    }
    hide Split;
  }

  lemma AcceptedNameIsPlain(w: Wire, name: string, port: nat)
    requires var read := Unsealed(w, CommonName(name, port)); read.Some? && Matches(read.value, name, port)
    ensures ':' !in name && ByteChars(name)
  {
    var read := Unsealed(w, CommonName(name, port)).value;
    PartsHoldNoColon(read);
    FirstPartIsPrefix(read);
    assert ByteChars(read);
    hide Split, CommonName, Unsealed;
    forall i | 0 <= i < |name|
      ensures name[i] as int < 0x100
    {
      assert name[i] == read[i];
    }
  }

  lemma PlainNameIsAccepted(w: Wire, name: string, port: nat)
    requires ':' !in name && ByteChars(name) && port > 0
    ensures var read := Unsealed(w, CommonName(name, port)); read.Some? && Matches(read.value, name, port)
  {
    var commonName, digits := CommonName(name, port), Passcode.ToDecimal(port);
    PortIsPlain(port);
    assert ByteChars(commonName);
    SingleByteChars(commonName);
    UnsealedIff(w, commonName);
    SplitAtColon(name, digits);
    SplitPlain(digits);
    hide Split, Unsealed;
  }

  /**
   * The certificate of a server is accepted by a client that expects the server's own name exactly when
   * the port can be connected to and the name has single bytes only and holds no colon.
   */
  lemma OpensIff(w: Wire, name: string, port: int)
    ensures Opens(w, name, port) <==> Dialable(name, port) && SingleBytes(Units(name))
  {
    SingleByteChars(name);
    hide SingleBytes, Units, ByteChars, Matches, Unsealed;
    if Opens(w, name, port) {
      AcceptedNameIsPlain(w, name, port);
    }
    if Dialable(name, port) && ByteChars(name) {
      PlainNameIsAccepted(w, name, port);
    }
  }

  lemma AsciiOpens(w: Wire, name: string, port: int)
    requires AsciiName(name) && Dialable(name, port)
    ensures Opens(w, name, port)
  {
    OpensIff(w, name, port);
    hide Opens, Dialable;
  }

  /** The name a:b is cut to a, so no certificate for it is ever accepted. */
  lemma ColonIsNeverAccepted(w: Wire, port: int)
    ensures !Opens(w, "a:b", port)
  {
    OpensIff(w, "a:b", port);
    assert "a:b"[1] == ':';
  }
}

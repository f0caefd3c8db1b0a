/**
 * How names travel. A client hands its messages to the TLS connection as raw code units and the
 * receiver decodes them as UTF-8; a sealed answer and the payload of a hello each skip a different
 * step. Names are Unicode text, so they hold no lone surrogate.
 */
module Transport {
  import opened Wrappers
  import opened Utf8

  /** Every code unit fits in one byte. */
  predicate SingleBytes(s: Text) { forall i :: 0 <= i < |s| ==> s[i] < 0x100 }

  function Narrow(s: Text): Option<Bytes> {
    if SingleBytes(s) then Some(seq(|s|, i requires 0 <= i < |s| => s[i])) else None
  }

  /**
   * A buffer of the library keeps text of single bytes as it is. What it makes of larger code units
   * is left open, but it holds one byte for each, or the text is lost.
   */
  ghost predicate KeepsBytes(w: Text -> Option<Bytes>) {
    && (forall s: Text :: w(s).Some? ==> |w(s).value| == |s|)
    && (forall s: Text :: SingleBytes(s) ==> w(s) == Narrow(s))
  }

  type Wire = w: Text -> Option<Bytes> | KeepsBytes(w) ghost witness Narrow

  /** The buffers of the TLS connection, of the block cipher and of a certificate's fields. */
  datatype Buffers = Buffers(tls: Wire, cipher: Wire, certificate: Wire)

  // ---- names and their code units ----

  function CharUnits(c: char): Text {
    var p := c as int;
    if p < 0x1_0000 then [p] else [0xD800 + (p - 0x1_0000) / 0x400, 0xDC00 + (p - 0x1_0000) % 0x400]
  }

  function Units(name: string): Text {
    if name == [] then [] else CharUnits(name[0]) + Units(name[1..])
  }

  /** The name that has these code units, unless a surrogate stands alone. */
  function NameOf(units: Text): Option<string> {
    if units == [] then Some("")
    else if High(units[0]) then
      if |units| > 1 && Low(units[1])
      then Prepend([PairPoint(units[0], units[1]) as char], NameOf(units[2..])) else None
    else if Low(units[0]) then None
    else Prepend([units[0] as char], NameOf(units[1..]))
  }

  lemma {:induction false} NameOfUnits(name: string)
    ensures NameOf(Units(name)) == Some(name) && WellFormed(Units(name))
  {
    if name != [] {
      var first, rest := CharUnits(name[0]), Units(name[1..]);
      NameOfUnits(name[1..]);
      CharOfUnits(name[0]);
      assert (first + rest)[|first|..] == rest;
      assert [name[0]] + name[1..] == name;
    }
  }

  lemma CharOfUnits(c: char)
    ensures var units := CharUnits(c);
            if |units| == 1 then !High(units[0]) && !Low(units[0]) && units[0] as char == c
            else |units| == 2 && High(units[0]) && Low(units[1]) && PairPoint(units[0], units[1]) as char == c
  {
  }

  lemma {:induction false} UnitsOfName(units: Text)
    requires NameOf(units).Some?
    ensures Units(NameOf(units).value) == units
  {
    if units != [] {
      var n := if High(units[0]) then 2 else 1;
      UnitsOfName(units[n..]);
      var name := NameOf(units).value;
      assert name[1..] == NameOf(units[n..]).value;
      assert CharUnits(name[0]) == units[..n];
    }
  }

  predicate AsciiName(name: string) { Ascii(Units(name)) }

  /** A name is ASCII exactly when each of its characters is. */
  lemma {:induction false} AsciiChars(name: string)
    ensures AsciiName(name) <==> forall i :: 0 <= i < |name| ==> name[i] as int < 0x80
  {
    if name != [] {
      var first, rest := CharUnits(name[0]), Units(name[1..]);
      AsciiChars(name[1..]);
      assert Ascii(first + rest) <==> Ascii(first) && Ascii(rest) by {
        assert first == (first + rest)[..|first|] && rest == (first + rest)[|first|..];
      }
      assert Ascii(first) <==> name[0] as int < 0x80 by {
        assert first[0] < 0x80 <==> name[0] as int < 0x80;
      }
      assert name == [name[0]] + name[1..];
    }
  }

  // ---- the three ways of a name ----

  /** Sent raw, decoded as UTF-8 by the receiver, who drops the whole message if that fails. */
  function Arrives(w: Wire, name: string): Option<string> {
    var bytes := w(Units(name));
    if bytes.None? then None
    else
      var text := Decode(bytes.value);
      if text.None? then None else NameOf(text.value)
  }

  /** A name sent raw arrives as itself exactly when it is ASCII. */
  lemma ArrivesIff(w: Wire, name: string)
    ensures Arrives(w, name) == Some(name) <==> AsciiName(name)
  {
    var units := Units(name);
    NameOfUnits(name);
    if Ascii(units) {
      EncodedLength(units);
      DecodeEncode(units);
      assert w(units).value == Encode(units).value;
    }
    if Arrives(w, name) == Some(name) {
      var bytes := w(units).value;
      UnitsOfName(Decode(bytes).value);
      EncodeDecode(bytes);
      EncodedLength(units);
    }
  }

  /** One character for each byte. */
  function Chars(b: Bytes): (s: string)
    ensures |s| == |b| && forall i :: 0 <= i < |b| ==> s[i] as int == b[i]
  {
    seq(|b|, i requires 0 <= i < |b| => b[i] as char)
  }

  lemma {:induction false} UnitsOfChars(b: Bytes)
    ensures Units(Chars(b)) == AsText(b)
  {
    if b != [] {
      UnitsOfChars(b[1..]);
      assert Chars(b)[1..] == Chars(b[1..]);
    }
  }

  /** Sealed raw, and read one unit a byte by the receiver. */
  function Unsealed(w: Wire, name: string): Option<string> {
    var bytes := w(Units(name));
    if bytes.None? then None else Some(Chars(bytes.value))
  }

  /** A name sealed raw is read as itself exactly when it has single bytes only. */
  lemma UnsealedIff(w: Wire, name: string)
    ensures Unsealed(w, name) == Some(name) <==> SingleBytes(Units(name))
  {
    var units := Units(name);
    NameOfUnits(name);
    if w(units).Some? {
      UnitsOfChars(w(units).value);
      NameOfUnits(Chars(w(units).value));
    }
    if SingleBytes(units) {
      assert AsText(w(units).value) == units;
    }
  }

  /** Encoded as UTF-8 and read one unit a byte, as on the hello path. */
  function Garbled(name: string): string {
    NameOfUnits(name);
    DecodeEncode(Units(name));
    Chars(Encode(Units(name)).value)
  }

  lemma UnitsOfGarbled(name: string)
    ensures Encode(Units(name)).Some? && Units(Garbled(name)) == AsText(Encode(Units(name)).value)
  {
    NameOfUnits(name);
    DecodeEncode(Units(name));
    UnitsOfChars(Encode(Units(name)).value);
  }

  /** The hello path keeps a name exactly when it is ASCII, and lengthens every other. */
  lemma GarbledIff(name: string)
    ensures Garbled(name) == name <==> AsciiName(name)
    ensures !AsciiName(name) ==> |Units(Garbled(name))| > |Units(name)|
  {
    UnitsOfGarbled(name);
    NameOfUnits(name);
    NameOfUnits(Garbled(name));
    EncodedLength(Units(name));
  }

  /** No two names are garbled alike. */
  lemma GarbledApart(x: string, y: string)
    requires Garbled(x) == Garbled(y)
    ensures x == y
  {
    UnitsOfGarbled(x);
    UnitsOfGarbled(y);
    var left, right := Encode(Units(x)).value, Encode(Units(y)).value;
    assert left == right by {
      assert |left| == |right|;
      forall i | 0 <= i < |left| ensures left[i] == right[i] {
        assert AsText(left)[i] == AsText(right)[i];
      }
    }
    NameOfUnits(x);
    NameOfUnits(y);
    DecodeEncode(Units(x));
    DecodeEncode(Units(y));
  }

  /** A name outside ASCII is garbled to another outside ASCII. */
  lemma GarbledStaysForeign(name: string)
    requires !AsciiName(name)
    ensures !AsciiName(Garbled(name))
  {
    GarbledIff(name);
    GarbledIff(Garbled(name));
    if Garbled(Garbled(name)) == Garbled(name) {
      GarbledApart(Garbled(name), name);
    }
  }

  // ---- a name that fails ----

  /** "José": the lone byte of its last letter is not UTF-8, so a message with this name is dropped. */
  lemma JoseNeverArrives(w: Wire)
    ensures !AsciiName("Jos\U{E9}") && Arrives(w, "Jos\U{E9}") == None
  {
    var units: Text := [0x4A, 0x6F, 0x73, 0xE9];
    var bytes: Bytes := [0x4A, 0x6F, 0x73, 0xE9];
    assert Units("Jos\U{E9}") == units by {
      assert "Jos\U{E9}"[1..] == "os\U{E9}" && "os\U{E9}"[1..] == "s\U{E9}" && "s\U{E9}"[1..] == "\U{E9}";
      assert Units("\U{E9}") == [0xE9] && Units("s\U{E9}") == [0x73, 0xE9] && Units("os\U{E9}") == [0x6F, 0x73, 0xE9];
    }
    assert units[3] == 0xE9;
    assert SingleBytes(units) && Narrow(units).value == bytes;
    assert bytes[1..] == [0x6F, 0x73, 0xE9] && bytes[1..][1..] == [0x73, 0xE9] && bytes[1..][1..][1..] == [0xE9];
    assert Decode([0xE9]) == None;
    assert Decode([0x73, 0xE9]) == None;
    assert Decode([0x6F, 0x73, 0xE9]) == None;
  }
}

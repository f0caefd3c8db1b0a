/**
 * UTF-8 as the message path uses it: `encodeURIComponent`-style encoding of UTF-16 text, which fails
 * on a lone surrogate, and the strict decoding that undoes it.
 */
module Utf8 {
  import opened Wrappers

  type Byte = b: nat | b < 0x100
  type CodeUnit = u: nat | u < 0x1_0000
  type Bytes = seq<Byte>

  /** A JavaScript string: a sequence of UTF-16 code units. */
  type Text = seq<CodeUnit>

  predicate High(u: nat) { 0xD800 <= u <= 0xDBFF }
  predicate Low(u: nat) { 0xDC00 <= u <= 0xDFFF }

  /** No surrogate stands alone. */
  predicate WellFormed(s: Text) {
    if s == [] then true
    else if High(s[0]) then |s| > 1 && Low(s[1]) && WellFormed(s[2..])
    else !Low(s[0]) && WellFormed(s[1..])
  }

  predicate Ascii(s: Text) { forall i :: 0 <= i < |s| ==> s[i] < 0x80 }

  /** The code point of a surrogate pair. */
  function PairPoint(h: nat, l: nat): (c: nat)
    requires High(h) && Low(l)
    ensures 0x1_0000 <= c <= 0x10_FFFF
  {
    0x1_0000 + (h - 0xD800) * 0x400 + (l - 0xDC00)
  }

  /** The bytes of one code unit outside the surrogates. */
  function EncodeUnit(u: CodeUnit): Bytes {
    if u < 0x80 then [u]
    else if u < 0x800 then [0xC0 + u / 64, 0x80 + u % 64]
    else [0xE0 + u / 64 / 64, 0x80 + u / 64 % 64, 0x80 + u % 64]
  }

  /** The bytes of a surrogate pair. */
  function EncodePair(h: CodeUnit, l: CodeUnit): Bytes
    requires High(h) && Low(l)
  {
    var c := PairPoint(h, l);
    [0xF0 + c / 64 / 64 / 64, 0x80 + c / 64 / 64 % 64, 0x80 + c / 64 % 64, 0x80 + c % 64]
  }

  function Prepend<T>(p: seq<T>, o: Option<seq<T>>): Option<seq<T>> {
    if o.None? then None else Some(p + o.value)
  }

  function Encode(s: Text): Option<Bytes> {
    if s == [] then Some([])
    else if High(s[0]) then
      if |s| > 1 && Low(s[1]) then Prepend(EncodePair(s[0], s[1]), Encode(s[2..])) else None
    else if Low(s[0]) then None
    else Prepend(EncodeUnit(s[0]), Encode(s[1..]))
  }

  predicate Continuation(b: Byte) { 0x80 <= b < 0xC0 }

  // The code point of a lead byte's payload and the payloads of its continuation bytes.
  function Join2(p0: int, b1: int): int { p0 * 64 + (b1 - 0x80) }
  function Join3(p0: int, b1: int, b2: int): int { Join2(p0, b1) * 64 + (b2 - 0x80) }
  function Join4(p0: int, b1: int, b2: int, b3: int): int { Join3(p0, b1, b2) * 64 + (b3 - 0x80) }

  /**
   * The text of the character that starts `b`, with its length in bytes; none if it is malformed,
   * which includes overlong forms, encoded surrogates and points past the last.
   */
  function DecodeFirst(b: Bytes): (first: Option<(Text, nat)>)
    requires b != []
    ensures first.Some? ==> 0 < first.value.1 <= |b|
  {
    var lead: int := b[0];
    if lead < 0x80 then Some(([lead], 1))
    else if 0xC0 <= lead < 0xE0 && |b| >= 2 && Continuation(b[1]) then
      var c := Join2(lead - 0xC0, b[1]);
      if c < 0x80 then None else Some(([c], 2))
    else if 0xE0 <= lead < 0xF0 && |b| >= 3 && Continuation(b[1]) && Continuation(b[2]) then
      var c := Join3(lead - 0xE0, b[1], b[2]);
      if c < 0x800 || 0xD800 <= c <= 0xDFFF then None else Some(([c], 3))
    else if 0xF0 <= lead < 0xF8 && |b| >= 4
            && Continuation(b[1]) && Continuation(b[2]) && Continuation(b[3]) then
      var c := Join4(lead - 0xF0, b[1], b[2], b[3]);
      if c < 0x1_0000 || c > 0x10_FFFF then None
      else Some(([0xD800 + (c - 0x1_0000) / 0x400, 0xDC00 + (c - 0x1_0000) % 0x400], 4))
    else None
  }

  function Decode(b: Bytes): Option<Text>
    decreases |b|
  {
    if b == [] then Some([])
    else
      var first := DecodeFirst(b);
      if first.None? then None else Prepend(first.value.0, Decode(b[first.value.1..]))
  }

  lemma DecodeUnit(u: CodeUnit, rest: Bytes)
    requires !High(u) && !Low(u)
    ensures DecodeFirst(EncodeUnit(u) + rest) == Some(([u], |EncodeUnit(u)|))
  {
  }

  lemma PairPieces(c: nat)
    requires 0x1_0000 <= c <= 0x10_FFFF
    ensures c / 64 / 64 / 64 < 8
    ensures Join4(c / 64 / 64 / 64, 0x80 + c / 64 / 64 % 64, 0x80 + c / 64 % 64, 0x80 + c % 64) == c
  {
  }

  lemma PairOfPoint(h: nat, l: nat)
    requires High(h) && Low(l)
    ensures var c := PairPoint(h, l);
            0xD800 + (c - 0x1_0000) / 0x400 == h && 0xDC00 + (c - 0x1_0000) % 0x400 == l
  {
  }

  lemma DecodePair(h: CodeUnit, l: CodeUnit, rest: Bytes)
    requires High(h) && Low(l)
    ensures DecodeFirst(EncodePair(h, l) + rest) == Some(([h, l], 4))
  {
    PairPieces(PairPoint(h, l));
    PairOfPoint(h, l);
  }

  /** Text is encoded exactly when it is well formed, and decoding then gives it back. */
  lemma {:induction false} DecodeEncode(s: Text)
    ensures Encode(s).Some? <==> WellFormed(s)
    ensures WellFormed(s) ==> Decode(Encode(s).value) == Some(s)
  {
    if s != [] && High(s[0]) && |s| > 1 && Low(s[1]) {
      DecodeEncode(s[2..]);
      if WellFormed(s) {
        var p, rest := EncodePair(s[0], s[1]), Encode(s[2..]).value;
        DecodePair(s[0], s[1], rest);
        assert (p + rest)[4..] == rest;
        assert [s[0], s[1]] + s[2..] == s;
      }
    } else if s != [] && !High(s[0]) && !Low(s[0]) {
      DecodeEncode(s[1..]);
      if WellFormed(s) {
        var p, rest := EncodeUnit(s[0]), Encode(s[1..]).value;
        DecodeUnit(s[0], rest);
        assert (p + rest)[|p|..] == rest;
        assert [s[0]] + s[1..] == s;
      }
    }
  }

  /** `t` is one encodable character and `b` is its encoding. */
  predicate Encodes(t: Text, b: Bytes) {
    || (|t| == 1 && !High(t[0]) && !Low(t[0]) && EncodeUnit(t[0]) == b)
    || (|t| == 2 && High(t[0]) && Low(t[1]) && EncodePair(t[0], t[1]) == b)
  }

  lemma EncodedTwo(p0: nat, b1: Byte)
    requires p0 < 0x20 && Continuation(b1) && Join2(p0, b1) >= 0x80
    ensures EncodeUnit(Join2(p0, b1)) == [0xC0 + p0, b1]
  {
  }

  lemma EncodedThree(p0: nat, b1: Byte, b2: Byte)
    requires p0 < 0x10 && Continuation(b1) && Continuation(b2) && Join3(p0, b1, b2) >= 0x800
    ensures EncodeUnit(Join3(p0, b1, b2)) == [0xE0 + p0, b1, b2]
  {
    assert Join3(p0, b1, b2) / 64 == Join2(p0, b1);
  }

  lemma EncodedFour(p0: nat, b1: Byte, b2: Byte, b3: Byte)
    requires p0 < 8 && Continuation(b1) && Continuation(b2) && Continuation(b3)
    requires 0x1_0000 <= Join4(p0, b1, b2, b3) <= 0x10_FFFF
    ensures var c := Join4(p0, b1, b2, b3);
            var h, l := 0xD800 + (c - 0x1_0000) / 0x400, 0xDC00 + (c - 0x1_0000) % 0x400;
            High(h) && Low(l) && EncodePair(h, l) == [0xF0 + p0, b1, b2, b3]
  {
    JoinPieces(p0, b1, b2, b3);
    var c := Join4(p0, b1, b2, b3);
    hide Join4;
    var h, l := 0xD800 + (c - 0x1_0000) / 0x400, 0xDC00 + (c - 0x1_0000) % 0x400;
    assert PairPoint(h, l) == c;
  }

  lemma EncodeDecodedFirst(b: Bytes)
    requires b != [] && DecodeFirst(b).Some?
    ensures Encodes(DecodeFirst(b).value.0, b[..DecodeFirst(b).value.1])
  {
    var n, lead: int := DecodeFirst(b).value.1, b[0];
    hide Join2, Join3, Join4, EncodePair;
    if n == 1 {
      assert b[..1] == [b[0]];
    } else if n == 2 {
      EncodedTwo(lead - 0xC0, b[1]);
      assert b[..2] == [b[0], b[1]];
    } else if n == 3 {
      EncodedThree(lead - 0xE0, b[1], b[2]);
      assert b[..3] == [b[0], b[1], b[2]];
    } else {
      EncodedFour(lead - 0xF0, b[1], b[2], b[3]);
      assert b[..4] == [b[0], b[1], b[2], b[3]];
    }
  }

  lemma JoinPieces(p0: int, b1: Byte, b2: Byte, b3: Byte)
    requires 0 <= p0 < 8 && Continuation(b1) && Continuation(b2) && Continuation(b3)
    ensures var c := Join4(p0, b1, b2, b3);
            && c / 64 / 64 / 64 == p0 && 0x80 + c / 64 / 64 % 64 == b1
            && 0x80 + c / 64 % 64 == b2 && 0x80 + c % 64 == b3
  {
    assert Join4(p0, b1, b2, b3) / 64 == Join3(p0, b1, b2);
    assert Join3(p0, b1, b2) / 64 == Join2(p0, b1);
  }

  lemma EncodePrepend(t: Text, b: Bytes, s: Text)
    requires Encodes(t, b)
    ensures Encode(t + s) == Prepend(b, Encode(s))
  {
    assert (t + s)[|t|..] == s;
  }

  /** Decoding is strict: whatever decodes is the encoding of the text it decodes to. */
  lemma {:induction false} EncodeDecode(b: Bytes)
    requires Decode(b).Some?
    ensures Encode(Decode(b).value) == Some(b)
    decreases |b|
  {
    if b != [] {
      var (t, n) := DecodeFirst(b).value;
      EncodeDecodedFirst(b);
      EncodeDecode(b[n..]);
      EncodePrepend(t, b[..n], Decode(b[n..]).value);
      assert b[..n] + b[n..] == b;
    }
  }

  // ---- the reading of bytes as a "binary string", one code unit a byte ----

  function AsText(b: Bytes): (s: Text)
    ensures |s| == |b| && forall i :: 0 <= i < |b| ==> s[i] == b[i]
  {
    seq(|b|, i requires 0 <= i < |b| => b[i])
  }

  /** Encoding never shortens text, and keeps its length only when all of it is ASCII. */
  lemma {:induction false} EncodedLength(s: Text)
    requires WellFormed(s)
    ensures Encode(s).Some? && |Encode(s).value| >= |s|
    ensures |Encode(s).value| == |s| ==> Ascii(s)
    ensures Ascii(s) ==> AsText(Encode(s).value) == s
  {
    DecodeEncode(s);
    if s != [] && High(s[0]) {
      EncodedLength(s[2..]);
    } else if s != [] {
      EncodedLength(s[1..]);
      assert s == [s[0]] + s[1..];
    }
  }

  /** The bytes of encoded text, read one unit a byte, are that text exactly when it is ASCII. */
  lemma BinaryReading(s: Text)
    requires WellFormed(s)
    ensures Encode(s).Some?
    ensures AsText(Encode(s).value) == s <==> Ascii(s)
  {
    EncodedLength(s);
  }

  // ---- against section 3 of RFC 3629 ----

  /** One code unit outside the surrogates: the bytes carry its bits, most significant first, behind their marks. */
  lemma UnitBytes(u: CodeUnit)
    requires !(0xD800 <= u <= 0xDFFF)
    ensures Encode([u]).Some?
    ensures var b: seq<int> := Encode([u]).value;
            if u < 0x80 then b == [u]
            else if u < 0x800 then
              && |b| == 2 && 0xC0 <= b[0] <= 0xDF && 0x80 <= b[1] <= 0xBF
              && u == (b[0] - 0xC0) * 0x40 + (b[1] - 0x80)
            else
              && |b| == 3 && 0xE0 <= b[0] <= 0xEF && 0x80 <= b[1] <= 0xBF && 0x80 <= b[2] <= 0xBF
              && u == (b[0] - 0xE0) * 0x1000 + (b[1] - 0x80) * 0x40 + (b[2] - 0x80)
  {
    assert Encode([u][1..]) == Some([]);
    assert EncodeUnit(u) + [] == EncodeUnit(u);
  }

  /** A surrogate pair: four bytes carry the bits of its code point. */
  lemma PairBytes(h: CodeUnit, l: CodeUnit)
    requires 0xD800 <= h <= 0xDBFF && 0xDC00 <= l <= 0xDFFF
    ensures Encode([h, l]).Some?
    ensures var b: seq<int> := Encode([h, l]).value;
            && |b| == 4 && 0xF0 <= b[0] <= 0xF4
            && (forall i :: 1 <= i < 4 ==> 0x80 <= b[i] <= 0xBF)
            && 0x1_0000 + (h - 0xD800) * 0x400 + (l - 0xDC00) ==
               (b[0] - 0xF0) * 0x4_0000 + (b[1] - 0x80) * 0x1000 + (b[2] - 0x80) * 0x40 + (b[3] - 0x80)
  {
    assert Encode([h, l][2..]) == Some([]);
    assert EncodePair(h, l) + [] == EncodePair(h, l);
    PairPieces(PairPoint(h, l));
  }

  /** The first character of text that starts well, and what is left. */
  predicate StartsWell(s: Text) {
    s != [] && if High(s[0]) then |s| > 1 && Low(s[1]) else !Low(s[0])
  }

  function FirstSize(s: Text): (n: nat)
    requires StartsWell(s)
    ensures 1 <= n <= |s|
  {
    if High(s[0]) then 2 else 1
  }

  function FirstBytes(s: Text): Bytes
    requires StartsWell(s)
  {
    if High(s[0]) then EncodePair(s[0], s[1]) else EncodeUnit(s[0])
  }

  lemma EncodeFirst(s: Text)
    requires StartsWell(s)
    ensures Encode(s) == Prepend(FirstBytes(s), Encode(s[FirstSize(s)..]))
    ensures WellFormed(s) ==> WellFormed(s[FirstSize(s)..])
  {
    hide EncodePair, EncodeUnit;
  }

  /** Whole characters are encoded one after the other. */
  lemma {:induction false} EncodeConcat(s: Text, t: Text)
    requires WellFormed(s)
    ensures Encode(s).Some? && Encode(s + t) == Prepend(Encode(s).value, Encode(t))
  {
    if s == [] {
      assert s + t == t;
      PrependTwice([], [], Encode(t));
    } else {
      assert StartsWell(s) && StartsWell(s + t);
      hide WellFormed;
      var n := FirstSize(s);
      assert (s + t)[n..] == s[n..] + t && FirstBytes(s + t) == FirstBytes(s) && FirstSize(s + t) == n;
      EncodeFirst(s);
      EncodeFirst(s + t);
      hide Encode, FirstBytes, FirstSize, StartsWell;
      EncodeConcat(s[n..], t);
      PrependTwice(FirstBytes(s), Encode(s[n..]).value, Encode(t));
    }
  }

  lemma PrependTwice(a: Bytes, b: Bytes, o: Option<Bytes>)
    ensures Prepend(a, Prepend(b, o)) == Prepend(a + b, o)
    ensures Prepend([], o) == o
  {
    if o.Some? {
      assert a + (b + o.value) == a + b + o.value;
      assert [] + o.value == o.value;
    }
  }
}

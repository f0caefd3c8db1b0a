/** Base64 with padding, section 4 of RFC 4648, as bytes of ASCII text. */
module Base64 {
  import opened Wrappers
  import opened Utf8

  const PAD: Byte := 61

  type Sextet = n: nat | n < 64

  function Symbol(i: Sextet): Byte {
    if i < 26 then i + 65
    else if i < 52 then i + 71
    else if i < 62 then i - 4
    else if i == 62 then 43
    else 47
  }

  function Index(c: Byte): Option<Sextet> {
    if 65 <= c <= 90 then Some(c - 65)
    else if 97 <= c <= 122 then Some(c - 71)
    else if 48 <= c <= 57 then Some(c + 4)
    else if c == 43 then Some(62)
    else if c == 47 then Some(63)
    else None
  }

  // The four sextets of three bytes, and the three bytes of four sextets.
  function S0(x: Byte): Sextet { x / 4 }
  function S1(x: Byte, y: Byte): Sextet { x % 4 * 16 + y / 16 }
  function S2(y: Byte, z: Byte): Sextet { y % 16 * 4 + z / 64 }
  function S3(z: Byte): Sextet { z % 64 }
  function B0(e0: Sextet, e1: Sextet): Byte { e0 * 4 + e1 / 16 }
  function B1(e1: Sextet, e2: Sextet): Byte { e1 % 16 * 16 + e2 / 4 }
  function B2(e2: Sextet, e3: Sextet): Byte { e2 % 4 * 64 + e3 }

  lemma Sextets(x: Byte, y: Byte, z: Byte)
    ensures B0(S0(x), S1(x, y)) == x
    ensures B1(S1(x, y), S2(y, z)) == y
    ensures B2(S2(y, z), S3(z)) == z
  {
  }

  /** The symbols of one group of one, two or three bytes. */
  function EncodeGroup(b: Bytes): (t: Bytes)
    requires 1 <= |b| <= 3
    ensures |t| == 4
  {
    if |b| == 1 then [Symbol(S0(b[0])), Symbol(S1(b[0], 0)), PAD, PAD]
    else if |b| == 2 then [Symbol(S0(b[0])), Symbol(S1(b[0], b[1])), Symbol(S2(b[1], 0)), PAD]
    else [Symbol(S0(b[0])), Symbol(S1(b[0], b[1])), Symbol(S2(b[1], b[2])), Symbol(S3(b[2]))]
  }

  function Encode(b: Bytes): Bytes {
    if |b| == 0 then []
    else if |b| <= 3 then EncodeGroup(b)
    else EncodeGroup(b[..3]) + Encode(b[3..])
  }

  /** The bytes of one group of four symbols; padding may replace the last or the last two. */
  function DecodeGroup(t: Bytes): Option<Bytes>
    requires |t| == 4
  {
    if Index(t[0]).None? || Index(t[1]).None? then None
    else
      var e0, e1 := Index(t[0]).value, Index(t[1]).value;
      if t[2] == PAD then Some([B0(e0, e1)])
      else if Index(t[2]).None? then None
      else
        var e2 := Index(t[2]).value;
        if t[3] == PAD then Some([B0(e0, e1), B1(e1, e2)])
        else if Index(t[3]).None? then None
        else Some([B0(e0, e1), B1(e1, e2), B2(e2, Index(t[3]).value)])
  }

  function Decode(t: Bytes): Option<Bytes> {
    if t == [] then Some([])
    else if |t| < 4 then None
    else
      var group := DecodeGroup(t[..4]);
      if group.None? then None else Prepend(group.value, Decode(t[4..]))
  }

  lemma IndexOfSymbol(i: Sextet)
    ensures Index(Symbol(i)) == Some(i) && Symbol(i) != PAD
  {
  }

  lemma PaddedSextets(x: Byte, y: Byte)
    ensures B0(S0(x), S1(x, 0)) == x
    ensures B1(S1(x, y), S2(y, 0)) == y
  {
    Sextets(x, 0, 0);
    Sextets(x, y, 0);
  }

  lemma DecodeSymbols(e0: Sextet, e1: Sextet, e2: Sextet, e3: Sextet)
    ensures DecodeGroup([Symbol(e0), Symbol(e1), PAD, PAD]) == Some([B0(e0, e1)])
    ensures DecodeGroup([Symbol(e0), Symbol(e1), Symbol(e2), PAD]) == Some([B0(e0, e1), B1(e1, e2)])
    ensures DecodeGroup([Symbol(e0), Symbol(e1), Symbol(e2), Symbol(e3)])
         == Some([B0(e0, e1), B1(e1, e2), B2(e2, e3)])
  {
    IndexOfSymbol(e0);
    IndexOfSymbol(e1);
    IndexOfSymbol(e2);
    IndexOfSymbol(e3);
    hide Symbol, Index, B0, B1, B2;
  }

  lemma DecodeEncodedGroup(b: Bytes)
    requires 1 <= |b| <= 3
    ensures DecodeGroup(EncodeGroup(b)) == Some(b)
  {
    hide DecodeGroup, Symbol, S0, S1, S2, S3, B0, B1, B2;
    if |b| == 1 {
      PaddedSextets(b[0], 0);
      DecodeSymbols(S0(b[0]), S1(b[0], 0), 0, 0);
      assert b == [b[0]];
    } else if |b| == 2 {
      Sextets(b[0], b[1], 0);
      PaddedSextets(b[0], b[1]);
      DecodeSymbols(S0(b[0]), S1(b[0], b[1]), S2(b[1], 0), 0);
      assert b == [b[0], b[1]];
    } else {
      Sextets(b[0], b[1], b[2]);
      DecodeSymbols(S0(b[0]), S1(b[0], b[1]), S2(b[1], b[2]), S3(b[2]));
      assert b == [b[0], b[1], b[2]];
    }
  }

  /** Decoding undoes encoding on every byte string. */
  lemma {:induction false} DecodeEncode(b: Bytes)
    ensures Decode(Encode(b)) == Some(b)
  {
    if 1 <= |b| <= 3 {
      DecodeEncodedGroup(b);
      assert Encode(b)[..4] == Encode(b) && Encode(b)[4..] == [];
      assert b + [] == b;
    } else if |b| > 3 {
      var head, rest := EncodeGroup(b[..3]), Encode(b[3..]);
      DecodeEncodedGroup(b[..3]);
      DecodeEncode(b[3..]);
      assert (head + rest)[..4] == head && (head + rest)[4..] == rest;
      assert b[..3] + b[3..] == b;
    }
  }

  // ---- against section 4 of RFC 4648 ----

  /** The alphabet: the character that stands for each value. */
  function Letter(i: Sextet): int {
    if i < 26 then 'A' as int + i
    else if i < 52 then 'a' as int + (i - 26)
    else if i < 62 then '0' as int + (i - 52)
    else if i == 62 then '+' as int
    else '/' as int
  }

  /** The symbol of a value is its letter, and only its letter is read as that value. */
  lemma SymbolsOfAlphabet(i: Sextet, c: Byte)
    ensures Symbol(i) == Letter(i)
    ensures Index(c) == Some(i) <==> c == Letter(i)
  {
  }

  /** Three bytes make four letters of their 24 bits, most significant first. */
  lemma GroupOfThree(x: Byte, y: Byte, z: Byte)
    ensures var bits := (x as int) * 0x1_0000 + (y as int) * 0x100 + (z as int);
            EncodeGroup([x, y, z]) ==
            [Letter(bits / 0x4_0000), Letter(bits / 0x1000 % 64), Letter(bits / 64 % 64), Letter(bits % 64)]
  {
    SextetsOfBits(x, y, z);
    SymbolsOfAlphabet(S0(x), 0);
    SymbolsOfAlphabet(S1(x, y), 0);
    SymbolsOfAlphabet(S2(y, z), 0);
    SymbolsOfAlphabet(S3(z), 0);
    hide Symbol, Letter, S0, S1, S2, S3;
  }

  lemma SextetsOfBits(x: Byte, y: Byte, z: Byte)
    ensures var bits := (x as int) * 0x1_0000 + (y as int) * 0x100 + (z as int);
            && bits / 0x4_0000 == S0(x) && bits / 0x1000 % 64 == S1(x, y)
            && bits / 64 % 64 == S2(y, z) && bits % 64 == S3(z)
  {
    BytesAsSextets(x, y, z);
    DigitsOf64(S0(x), S1(x, y), S2(y, z), S3(z));
    hide S0, S1, S2, S3;
  }

  lemma BytesAsSextets(x: Byte, y: Byte, z: Byte)
    ensures (x as int) * 0x1_0000 + (y as int) * 0x100 + (z as int) ==
            (S0(x) as int) * 0x4_0000 + (S1(x, y) as int) * 0x1000 + (S2(y, z) as int) * 64 + (S3(z) as int)
  {
  }

  lemma DigitsOf64(s0: Sextet, s1: Sextet, s2: Sextet, s3: Sextet)
    ensures var bits := (s0 as int) * 0x4_0000 + (s1 as int) * 0x1000 + (s2 as int) * 64 + (s3 as int);
            bits / 0x4_0000 == s0 && bits / 0x1000 % 64 == s1 && bits / 64 % 64 == s2 && bits % 64 == s3
  {
    var bits := (s0 as int) * 0x4_0000 + (s1 as int) * 0x1000 + (s2 as int) * 64 + (s3 as int);
    assert bits / 64 == (s0 as int) * 0x1000 + (s1 as int) * 64 + (s2 as int);
    assert bits / 0x1000 == (s0 as int) * 64 + (s1 as int);
  }

  /** One or two bytes are filled up with zero bits, and the symbols that hold none of their bits are padding. */
  lemma GroupOfLess(b: Bytes)
    requires 1 <= |b| <= 2
    ensures EncodeGroup(b) == if |b| == 1 then EncodeGroup(b + [0, 0])[..2] + ['=' as int, '=' as int]
                              else EncodeGroup(b + [0])[..3] + ['=' as int]
  {
  }

  lemma {:induction false} EncodedSize(b: Bytes)
    ensures |Encode(b)| == 4 * ((|b| + 2) / 3)
    decreases |b|
  {
    hide EncodeGroup;
    if |b| > 3 {
      var rest := b[3..];
      EncodedSize(rest);
      assert |Encode(b)| == 4 + |Encode(rest)|;
      hide Encode;
      assert (|b| + 2) / 3 == 1 + (|rest| + 2) / 3;
    }
  }

  /** Group `j` of the bytes, the last one perhaps shorter. */
  function Group(b: Bytes, j: nat): (g: Bytes)
    requires 3 * j < |b|
    ensures 1 <= |g| <= 3
  {
    b[3 * j..if 3 * j + 3 <= |b| then 3 * j + 3 else |b|]
  }

  /** Four letters for every group of three bytes, in order. */
  lemma {:induction false} EncodeGroups(b: Bytes, j: nat)
    requires 3 * j < |b|
    ensures |Encode(b)| == 4 * ((|b| + 2) / 3)
    ensures Encode(b)[4 * j..4 * j + 4] == EncodeGroup(Group(b, j))
    decreases |b|
  {
    EncodedSize(b);
    hide EncodeGroup;
    if |b| <= 3 {
      assert b[..|b|] == b;
    } else if j == 0 {
      assert Encode(b) == EncodeGroup(b[..3]) + Encode(b[3..]);
    } else {
      var rest := b[3..];
      EncodeGroups(rest, j - 1);
      assert Group(rest, j - 1) == Group(b, j);
      assert Encode(b) == EncodeGroup(b[..3]) + Encode(rest);
      hide Encode, Group;
      FourAfter(EncodeGroup(b[..3]), Encode(rest), j);
    }
  }

  lemma FourAfter(first: Bytes, rest: Bytes, j: nat)
    requires |first| == 4 && j > 0 && 4 * j <= |rest|
    ensures (first + rest)[4 * j..4 * j + 4] == rest[4 * (j - 1)..4 * (j - 1) + 4]
  {
  }
}

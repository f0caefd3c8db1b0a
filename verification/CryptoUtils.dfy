/**
 * AES-CBC with PKCS#7 padding over an arbitrary invertible block function; the block function itself
 * is library code and a parameter.
 */
module CryptoUtils {
  import opened Wrappers
  import opened Utf8

  const BLOCK := 16
  const BYTE_BITS: nat := 8

  datatype BlockCipher<!Key(!new)> = BlockCipher(encrypt: (Key, Bytes) -> Bytes, decrypt: (Key, Bytes) -> Bytes)
  {
    /** `decrypt` undoes `encrypt` on whole blocks, whatever the key. */
    ghost predicate Invertible() {
      forall key: Key, b: Bytes :: |b| == BLOCK ==>
        |encrypt(key, b)| == BLOCK && decrypt(key, encrypt(key, b)) == b
    }
  }

  function Pow2(n: nat): (r: nat)
    ensures r > 0
  {
    if n == 0 then 1 else 2 * Pow2(n - 1)
  }

  /** The exclusive or of the low `bits` bits. */
  function XorBits(a: nat, b: nat, bits: nat): (r: nat)
    ensures r < Pow2(bits)
  {
    if bits == 0 then 0 else 2 * XorBits(a / 2, b / 2, bits - 1) + (a + b) % 2
  }

  lemma Bit(half: nat, bit: nat, a: nat, b: nat)
    requires bit == (a + b) % 2
    ensures (2 * half + bit) / 2 == half
    ensures (2 * half + bit + b) % 2 == a % 2
  {
  }

  lemma {:induction false} XorBitsTwice(a: nat, b: nat, bits: nat)
    requires a < Pow2(bits)
    ensures XorBits(XorBits(a, b, bits), b, bits) == a
  {
    if bits > 0 {
      var rest, bit := XorBits(a / 2, b / 2, bits - 1), (a + b) % 2;
      XorBitsTwice(a / 2, b / 2, bits - 1);
      Bit(rest, bit, a, b);
    }
  }

  lemma EightBits()
    ensures Pow2(BYTE_BITS) == 0x100
  {
    assert Pow2(4) == 16;
    assert Pow2(8) == 0x100;
  }

  function XorByte(a: Byte, b: Byte): Byte {
    EightBits();
    XorBits(a, b, BYTE_BITS)
  }

  function Xor(a: Bytes, b: Bytes): (r: Bytes)
    requires |a| == |b|
    ensures |r| == |a| && forall i :: 0 <= i < |a| ==> r[i] == XorByte(a[i], b[i])
  {
    seq(|a|, i requires 0 <= i < |a| => XorByte(a[i], b[i]))
  }

  lemma XorByteTwice(a: Byte, b: Byte)
    ensures XorByte(XorByte(a, b), b) == a
  {
    hide XorBits, Pow2;
    EightBits();
    XorBitsTwice(a, b, BYTE_BITS);
  }

  lemma XorTwice(a: Bytes, b: Bytes)
    requires |a| == |b|
    ensures Xor(Xor(a, b), b) == a
  {
    forall i | 0 <= i < |a|
      ensures Xor(Xor(a, b), b)[i] == a[i]
    {
      XorByteTwice(a[i], b[i]);
    }
  }

  /** Between one and sixteen copies of their own number, up to a whole number of blocks. */
  function Pad(m: Bytes): (r: Bytes)
    ensures |r| % BLOCK == 0
  {
    var n := BLOCK - |m| % BLOCK;
    m + seq(n, i => n)
  }

  function Unpad(m: Bytes): Option<Bytes> {
    if m == [] then None
    else
      var n := m[|m| - 1];
      if n == 0 || n > BLOCK || n > |m| then None else Some(m[..|m| - n])
  }

  lemma UnpadPad(m: Bytes)
    ensures Unpad(Pad(m)) == Some(m)
  {
    var n := BLOCK - |m| % BLOCK;
    var r := Pad(m);
    assert r[|r| - 1] == n;
    assert r[..|r| - n] == m;
  }

  function Chain<Key(!new)>(cipher: BlockCipher<Key>, key: Key, iv: Bytes, m: Bytes): Bytes
    requires |iv| == BLOCK && |m| % BLOCK == 0
    decreases |m|
  {
    if m == [] then []
    else
      var c := cipher.encrypt(key, Xor(m[..BLOCK], iv));
      if |c| != BLOCK then c else c + Chain(cipher, key, c, m[BLOCK..])
  }

  function Unchain<Key(!new)>(cipher: BlockCipher<Key>, key: Key, iv: Bytes, c: Bytes): Bytes
    requires |iv| == BLOCK && |c| % BLOCK == 0
    decreases |c|
  {
    if c == [] then []
    else
      var m := cipher.decrypt(key, c[..BLOCK]);
      if |m| != BLOCK then m else Xor(m, iv) + Unchain(cipher, key, c[..BLOCK], c[BLOCK..])
  }

  function AesEncrypt<Key(!new)>(cipher: BlockCipher<Key>, key: Key, iv: Bytes, data: Bytes): Bytes
    requires |iv| == BLOCK
  {
    Chain(cipher, key, iv, Pad(data))
  }

  /** None stands for the error status: input that is not whole blocks, or bad padding. */
  function AesDecrypt<Key(!new)>(cipher: BlockCipher<Key>, key: Key, iv: Bytes, data: Bytes): Option<Bytes>
    requires |iv| == BLOCK
  {
    if |data| % BLOCK != 0 then None else Unpad(Unchain(cipher, key, iv, data))
  }

  lemma {:induction false} UnchainChain<Key(!new)>(cipher: BlockCipher<Key>, key: Key, iv: Bytes, m: Bytes)
    requires cipher.Invertible() && |iv| == BLOCK && |m| % BLOCK == 0
    ensures var c := Chain(cipher, key, iv, m);
            |c| == |m| && Unchain(cipher, key, iv, c) == m
    decreases |m|
  {
    if m != [] {
      var x := Xor(m[..BLOCK], iv);
      var c := cipher.encrypt(key, x);
      var rest := Chain(cipher, key, c, m[BLOCK..]);
      UnchainChain(cipher, key, c, m[BLOCK..]);
      assert cipher.decrypt(key, c) == x;
      assert (c + rest)[..BLOCK] == c && (c + rest)[BLOCK..] == rest;
      XorTwice(m[..BLOCK], iv);
      assert m[..BLOCK] + m[BLOCK..] == m;
    }
  }

  /** Decryption under the same key and initial vector undoes encryption on every byte string. */
  lemma DecryptEncrypt<Key(!new)>(cipher: BlockCipher<Key>, key: Key, iv: Bytes, data: Bytes)
    requires cipher.Invertible() && |iv| == BLOCK
    ensures AesDecrypt(cipher, key, iv, AesEncrypt(cipher, key, iv, data)) == Some(data)
  {
    UnchainChain(cipher, key, iv, Pad(data));
    UnpadPad(data);
  }

  // ---- what the ciphertext is, block by block ----

  /** Block `j` of a byte string. */
  function Block(m: Bytes, j: nat): (b: Bytes)
    requires BLOCK * (j + 1) <= |m|
    ensures |b| == BLOCK
  {
    m[BLOCK * j..BLOCK * (j + 1)]
  }

  /** Behind a first block, blocks are counted from one. */
  lemma BlockShift(first: Bytes, rest: Bytes, j: nat)
    requires |first| == BLOCK && j > 0 && BLOCK * (j + 1) <= |first + rest|
    ensures Block(first + rest, j) == Block(rest, j - 1)
  {
  }

  lemma BlockZero(first: Bytes, rest: Bytes)
    requires |first| == BLOCK
    ensures Block(first + rest, 0) == first
  {
  }

  lemma {:induction false} ChainBlocks<Key(!new)>(cipher: BlockCipher<Key>, key: Key, iv: Bytes, m: Bytes, j: nat)
    requires cipher.Invertible() && |iv| == BLOCK && |m| % BLOCK == 0 && BLOCK * (j + 1) <= |m|
    ensures var c := Chain(cipher, key, iv, m);
            && |c| == |m|
            && Block(c, j) == cipher.encrypt(key, Xor(Block(m, j), if j == 0 then iv else Block(c, j - 1)))
    decreases j
  {
    var p, m' := m[..BLOCK], m[BLOCK..];
    var first := cipher.encrypt(key, Xor(p, iv));
    var rest, c := Chain(cipher, key, first, m'), Chain(cipher, key, iv, m);
    UnchainChain(cipher, key, iv, m);
    assert c == first + rest && m == p + m' && |first| == BLOCK;
    hide Chain, Block, Xor;
    BlockZero(first, rest);
    BlockZero(p, m');
    if j > 0 {
      ChainBlocks(cipher, key, first, m', j - 1);
      BlockShift(first, rest, j);
      BlockShift(p, m', j);
      if j > 1 {
        BlockShift(first, rest, j - 1);
      }
    }
  }

  /**
   * Cipher block chaining over the data and its padding, n bytes of value n: every block of the result is
   * the encryption of the plain block combined with the result block before it, the first with the
   * initial vector.
   */
  lemma CbcBlocks<Key(!new)>(cipher: BlockCipher<Key>, key: Key, iv: Bytes, data: Bytes)
    requires cipher.Invertible() && |iv| == BLOCK
    ensures var n := 16 - |data| % 16;
            var p, c := data + seq(n, i => n), AesEncrypt(cipher, key, iv, data);
            && |c| == |data| + n && |p| == |c|
            && forall j: nat :: 16 * (j + 1) <= |c| ==>
                 c[16 * j..16 * (j + 1)] ==
                 cipher.encrypt(key, Xor(p[16 * j..16 * (j + 1)], if j == 0 then iv else c[16 * (j - 1)..16 * j]))
  {
    var n := 16 - |data| % 16;
    var p, c := data + seq(n, i => n), AesEncrypt(cipher, key, iv, data);
    assert p == Pad(data);
    UnchainChain(cipher, key, iv, p);
    forall j: nat | 16 * (j + 1) <= |c|
      ensures c[16 * j..16 * (j + 1)] ==
              cipher.encrypt(key, Xor(p[16 * j..16 * (j + 1)], if j == 0 then iv else c[16 * (j - 1)..16 * j]))
    {
      ChainBlocks(cipher, key, iv, p, j);
    }
  }

  /** Two equal blocks of data do not make equal blocks of ciphertext, unless what they are combined with is equal. */
  lemma EqualBlocksDiffer<Key(!new)>(cipher: BlockCipher<Key>, key: Key, b: Bytes, before: Bytes, before': Bytes)
    requires cipher.Invertible() && |b| == |before| == |before'| == BLOCK && before != before'
    ensures cipher.encrypt(key, Xor(b, before)) != cipher.encrypt(key, Xor(b, before'))
  {
    var x, x' := Xor(b, before), Xor(b, before');
    var i :| 0 <= i < BLOCK && before[i] != before'[i];
    XorByteTwice(before[i], b[i]);
    XorByteTwice(before'[i], b[i]);
    XorSymmetric(b[i], before[i], BYTE_BITS);
    XorSymmetric(b[i], before'[i], BYTE_BITS);
    assert x[i] != x'[i];
    assert cipher.decrypt(key, cipher.encrypt(key, x)) == x && cipher.decrypt(key, cipher.encrypt(key, x')) == x';
  }

  lemma {:induction false} XorSymmetric(a: nat, b: nat, bits: nat)
    ensures XorBits(a, b, bits) == XorBits(b, a, bits)
  {
    if bits > 0 {
      XorSymmetric(a / 2, b / 2, bits - 1);
    }
  }

  /** Bit `k` of a number: its parity after `k` halvings. */
  function BitAt(x: nat, k: nat): nat {
    if k == 0 then x % 2 else BitAt(x / 2, k - 1)
  }

  /** A bit of the exclusive or is set exactly when that bit differs. */
  lemma {:induction false} XorBitLaw(a: nat, b: nat, bits: nat, k: nat)
    requires k < bits
    ensures BitAt(XorBits(a, b, bits), k) == if BitAt(a, k) == BitAt(b, k) then 0 else 1
  {
    var x, half := XorBits(a, b, bits), XorBits(a / 2, b / 2, bits - 1);
    LowBit(half, a, b);
    assert x == 2 * half + (a + b) % 2;
    hide XorBits;
    if k > 0 {
      XorBitLaw(a / 2, b / 2, bits - 1, k - 1);
    }
  }

  lemma LowBit(half: nat, a: nat, b: nat)
    ensures var x := 2 * half + (a + b) % 2; x / 2 == half && x % 2 == if a % 2 == b % 2 then 0 else 1
  {
  }

  /** The exclusive or of two bytes, bit by bit. */
  lemma XorByteLaw(a: Byte, b: Byte, k: nat)
    requires k < 8
    ensures BitAt(XorByte(a, b), k) == if BitAt(a, k) == BitAt(b, k) then 0 else 1
  {
    XorBitLaw(a, b, 8, k);
    hide BitAt, XorBits;
  }
}

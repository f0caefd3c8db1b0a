/** The session passcode: three random bytes formatted as six decimal digits. */
module Passcode {
  function Pow10(n: nat): (r: nat)
    ensures r > 0
  {
    if n == 0 then 1 else 10 * Pow10(n - 1)
  }

  /** `Number.prototype.toString` for a natural number. */
  function ToDecimal(v: nat): (s: string)
    ensures |s| > 0
  {
    if v < 10 then ["0123456789"[v]] else ToDecimal(v / 10) + ["0123456789"[v % 10]]
  }

  function Slice(s: string, n: nat): string {
    if n <= |s| then s[..n] else s
  }

  function PadStart(s: string, n: nat): string
    decreases n - |s|
  {
    if n <= |s| then s else PadStart("0" + s, n)
  }

  /** `bytesToHex`: two lower-case digits a byte. */
  function BytesToHex(bytes: seq<nat>): string
    requires forall i :: 0 <= i < |bytes| ==> bytes[i] < 256
  {
    if bytes == [] then ""
    else ["0123456789abcdef"[bytes[0] / 16], "0123456789abcdef"[bytes[0] % 16]] + BytesToHex(bytes[1..])
  }

  function HexDigitValue(c: char): nat {
    if '0' <= c <= '9' then c as int - '0' as int
    else if 'a' <= c <= 'f' then c as int - 'a' as int + 10
    else 0
  }

  /** `parseInt(s, 16)` on a string of hexadecimal digits. */
  function ParseHex(s: string): nat {
    if s == "" then 0 else 16 * ParseHex(s[..|s| - 1]) + HexDigitValue(s[|s| - 1])
  }

  function Format(v: nat): string {
    PadStart(Slice(ToDecimal(v), 6), 6)
  }

  function Generate(bytes: seq<nat>): string
    requires forall i :: 0 <= i < |bytes| ==> bytes[i] < 256
  {
    Format(ParseHex(BytesToHex(bytes)))
  }

  // ---- meaning of a digit string ----

  predicate IsDigit(c: char) { '0' <= c <= '9' }

  predicate AllDigits(s: string) { forall i :: 0 <= i < |s| ==> IsDigit(s[i]) }

  function Value(s: string): nat
    requires AllDigits(s)
  {
    if s == "" then 0 else 10 * Value(s[..|s| - 1]) + (s[|s| - 1] as int - '0' as int)
  }

  lemma AppendDigit(s: string, d: nat)
    requires AllDigits(s) && d < 10
    ensures var t := s + ["0123456789"[d]]; AllDigits(t) && Value(t) == 10 * Value(s) + d
  {
    var t := s + ["0123456789"[d]];
    assert t[..|t| - 1] == s;
  }

  lemma {:induction false} DecimalIsCanonical(v: nat)
    ensures var s := ToDecimal(v);
            AllDigits(s) && Value(s) == v && v < Pow10(|s|) && (v > 0 ==> Pow10(|s| - 1) <= v)
  {
    if v < 10 {
      AppendDigit("", v);
      assert "" + ["0123456789"[v]] == ToDecimal(v);
      assert Pow10(1) == 10;
    } else {
      DecimalIsCanonical(v / 10);
      AppendDigit(ToDecimal(v / 10), v % 10);
      hide Value, AllDigits;
    }
  }

  /** Keeping the first `n` digits divides by the power of ten of what is cut. */
  lemma {:induction false} PrefixValue(s: string, n: nat)
    requires AllDigits(s) && n <= |s|
    ensures AllDigits(s[..n]) && Value(s[..n]) == Value(s) / Pow10(|s| - n)
  {
    if n == |s| {
      assert s[..n] == s;
    } else {
      var t := s[..|s| - 1];
      PrefixValue(t, n);
      assert t[..n] == s[..n];
      DivideTwice(Value(t), s[|s| - 1] as int - '0' as int, Pow10(|t| - n));
    }
  }

  lemma DivideTwice(v: nat, d: nat, p: nat)
    requires d < 10 && p > 0
    ensures v / p == (10 * v + d) / (10 * p)
  {
    var q, r := v / p, v % p;
    assert v == p * q + r;
    assert 10 * v + d == (10 * p) * q + (10 * r + d);
    assert 0 <= 10 * r + d < 10 * p;
    QuotientUnique(10 * v + d, 10 * p, q, 10 * r + d);
  }

  lemma QuotientUnique(a: nat, p: nat, q: nat, r: nat)
    requires p > 0 && r < p && a == p * q + r
    ensures a / p == q
  {
    var q', r' := a / p, a % p;
    assert a == p * q' + r';
    Distribute(p, q, q');
    if q' < q {
      AtLeast(p, q - q');
    } else if q < q' {
      AtLeast(p, q' - q);
    }
  }

  lemma Distribute(p: int, q: int, q': int)
    ensures p * (q - q') == p * q - p * q'
    ensures p * (q' - q) == p * q' - p * q
  {
  }

  lemma AtLeast(p: nat, d: nat)
    requires d > 0
    ensures p * d >= p
  {
  }

  lemma {:induction false} LeadingZero(s: string)
    requires AllDigits(s)
    ensures AllDigits("0" + s) && Value("0" + s) == Value(s)
  {
    if s == "" {
      assert "0" + s == "0";
      assert "0"[..0] == "";
    } else {
      LeadingZero(s[..|s| - 1]);
      assert ("0" + s)[..|s|] == "0" + s[..|s| - 1];
    }
  }

  lemma {:induction false} PaddedValue(s: string, n: nat)
    requires AllDigits(s) && |s| <= n
    ensures var r := PadStart(s, n); |r| == n && AllDigits(r) && Value(r) == Value(s)
    decreases n - |s|
  {
    if |s| < n {
      LeadingZero(s);
      PaddedValue("0" + s, n);
    }
  }

  /**
   * Every number is shown as exactly six digits: the number itself when it has at most six, and
   * otherwise its six leading digits.
   */
  lemma SixDigits(v: nat)
    ensures |Format(v)| == 6 && AllDigits(Format(v))
    ensures v < 1000000 ==> Value(Format(v)) == v
    ensures v >= 1000000 ==>
              |ToDecimal(v)| > 6 && Value(Format(v)) == v / Pow10(|ToDecimal(v)| - 6)
  {
    var s := ToDecimal(v);
    DecimalIsCanonical(v);
    assert Pow10(6) == 1000000;
    if |s| > 6 {
      Pow10Monotone(6, |s| - 1);
      PrefixValue(s, 6);
      PaddedValue(s[..6], 6);
    } else {
      Pow10Monotone(|s|, 6);
      assert Slice(s, 6) == s;
      PaddedValue(s, 6);
    }
  }

  lemma {:induction false} Pow10Monotone(m: nat, n: nat)
    requires m <= n
    ensures Pow10(m) <= Pow10(n)
  {
    if m < n {
      Pow10Monotone(m, n - 1);
    }
  }

  /** The big-endian number that a sequence of bytes denotes. */
  function BigEndian(bytes: seq<nat>): nat {
    if bytes == [] then 0 else 256 * BigEndian(bytes[..|bytes| - 1]) + bytes[|bytes| - 1]
  }

  lemma {:induction false} HexAppend(bytes: seq<nat>, b: nat)
    requires forall i :: 0 <= i < |bytes| ==> bytes[i] < 256
    requires b < 256
    ensures BytesToHex(bytes + [b]) ==
            BytesToHex(bytes) + ["0123456789abcdef"[b / 16], "0123456789abcdef"[b % 16]]
  {
    if bytes == [] {
      assert bytes + [b] == [b];
    } else {
      HexAppend(bytes[1..], b);
      assert (bytes + [b])[1..] == bytes[1..] + [b];
    }
  }

  lemma HexDigitRoundTrip(d: nat)
    requires d < 16
    ensures HexDigitValue("0123456789abcdef"[d]) == d
  {
  }

  /** Reading back the hexadecimal form of some bytes gives their big-endian value. */
  lemma {:induction false} HexRoundTrip(bytes: seq<nat>)
    requires forall i :: 0 <= i < |bytes| ==> bytes[i] < 256
    ensures ParseHex(BytesToHex(bytes)) == BigEndian(bytes)
  {
    if bytes != [] {
      var init, b := bytes[..|bytes| - 1], bytes[|bytes| - 1];
      HexRoundTrip(init);
      HexAppend(init, b);
      assert init + [b] == bytes;
      var h, x, y := BytesToHex(init), "0123456789abcdef"[b / 16], "0123456789abcdef"[b % 16];
      HexDigitRoundTrip(b / 16);
      HexDigitRoundTrip(b % 16);
      assert (h + [x, y])[..|h| + 1] == h + [x];
      assert (h + [x])[..|h|] == h;
      assert ParseHex(h + [x]) == 16 * ParseHex(h) + b / 16;
      assert ParseHex(h + [x, y]) == 16 * ParseHex(h + [x]) + b % 16;
    }
  }

  /** The passcode of any three random bytes is six digits, read off their big-endian value. */
  lemma PasscodeOfBytes(bytes: seq<nat>)
    requires |bytes| == 3 && forall i :: 0 <= i < 3 ==> bytes[i] < 256
    ensures var v := BigEndian(bytes);
            && |Generate(bytes)| == 6 && AllDigits(Generate(bytes))
            && (v < 1000000 ==> Value(Generate(bytes)) == v)
            && (v >= 1000000 ==> |ToDecimal(v)| > 6 && Value(Generate(bytes)) == v / Pow10(|ToDecimal(v)| - 6))
  {
    HexRoundTrip(bytes);
    SixDigits(BigEndian(bytes));
  }
}

/**
 * Byte strings and the textual encodings the contract builds by hand:
 * Rust strings are UTF-8 byte sequences, `format!("{}", n)` of an unsigned
 * integer is its decimal digits, and `hex::encode` / `hex::decode` are the
 * base-16 codec of the `hex` crate.
 */
module Bytes {
  import opened Wrappers

  type byte = x: int | 0 <= x < 256

  /** A Rust `String`/`&str` seen as its UTF-8 bytes. */
  type Str = seq<byte>

  /** The bytes of a string literal; every literal in the model is ASCII. */
  function Ascii(s: string): (r: Str)
    ensures |r| == |s|
    ensures forall i :: 0 <= i < |s| ==> r[i] == (s[i] as int) % 256
  {
    seq(|s|, i requires 0 <= i < |s| => (s[i] as int) % 256)
  }

  const Colon: byte := 58
  const Dash: byte := 45

  predicate IsDigit(c: byte) { 48 <= c <= 57 }

  predicate AllDigits(s: Str) { forall i :: 0 <= i < |s| ==> IsDigit(s[i]) }

  // ---------------------------------------------------------------------------
  // Decimal rendering of unsigned integers (`format!("{}", n)`)
  // ---------------------------------------------------------------------------

  /** The decimal digits of `n`, most significant first, without leading zeros. */
  function Decimal(n: nat): (r: Str)
    ensures 1 <= |r|
    ensures AllDigits(r)
    ensures r[0] == 48 ==> n == 0
    ensures n < 10 <==> |r| == 1
    decreases n
  {
    if n < 10 then [48 + n] else Decimal(n / 10) + [48 + n % 10]
  }

  /** The value of a string of decimal digits. */
  function ParseDecimal(s: Str): (n: nat)
    requires AllDigits(s)
    decreases |s|
  {
    if s == [] then 0 else ParseDecimal(s[..|s| - 1]) * 10 + (s[|s| - 1] - 48)
  }

  lemma {:induction false} DecimalRoundTrip(n: nat)
    ensures ParseDecimal(Decimal(n)) == n
    decreases n
  {
    var d := Decimal(n);
    if n >= 10 {
      DecimalRoundTrip(n / 10);
      assert d[..|d| - 1] == Decimal(n / 10);
    }
  }

  /** Distinct numbers render as distinct strings. */
  lemma DecimalInjective(n: nat, m: nat)
    requires Decimal(n) == Decimal(m)
    ensures n == m
  {
    DecimalRoundTrip(n);
    DecimalRoundTrip(m);
  }

  /** Larger numbers never have fewer digits. */
  lemma {:induction false} DecimalLengthMonotone(a: nat, b: nat)
    requires a <= b
    ensures |Decimal(a)| <= |Decimal(b)|
    decreases b
  {
    if a >= 10 {
      DecimalLengthMonotone(a / 10, b / 10);
    }
  }

  /** A decimal rendering never contains a colon or a dash. */
  lemma DecimalHasNoSeparator(n: nat)
    ensures Colon !in Decimal(n) && Dash !in Decimal(n)
  {
  }

  // ---------------------------------------------------------------------------
  // Base 16 (`hex::encode` writes lower case; `hex::decode` reads either case)
  // ---------------------------------------------------------------------------

  predicate IsHexDigit(c: byte) { 48 <= c <= 57 || 97 <= c <= 102 || 65 <= c <= 70 }

  predicate AllHex(s: Str) { forall i :: 0 <= i < |s| ==> IsHexDigit(s[i]) }

  function HexValue(c: byte): (v: nat)
    requires IsHexDigit(c)
    ensures v < 16
  {
    if c <= 57 then c - 48 else if c <= 70 then c - 55 else c - 87
  }

  /** The lower-case digit for a nibble. */
  function HexChar(v: nat): (c: byte)
    requires v < 16
    ensures IsHexDigit(c) && HexValue(c) == v
    ensures !(65 <= c <= 70)
  {
    if v < 10 then 48 + v else 87 + v
  }

  function HexEncode(b: seq<byte>): (r: Str)
    ensures |r| == 2 * |b|
    ensures AllHex(r)
    ensures forall i :: 0 <= i < |b| ==>
              HexValue(r[2 * i]) == b[i] / 16 && HexValue(r[2 * i + 1]) == b[i] % 16
  {
    if b == [] then [] else [HexChar(b[0] / 16), HexChar(b[0] % 16)] + HexEncode(b[1..])
  }

  /** `hex::decode`: `None` for an odd length or any non-hex character. */
  function HexDecode(s: Str): (r: Option<seq<byte>>)
    ensures r.Some? <==> |s| % 2 == 0 && AllHex(s)
    ensures r.Some? ==> 2 * |r.value| == |s|
    decreases |s|
  {
    if |s| == 0 then Some([])
    else if |s| == 1 || !IsHexDigit(s[0]) || !IsHexDigit(s[1]) then None
    else match HexDecode(s[2..])
      case None => None
      case Some(rest) => Some([HexValue(s[0]) * 16 + HexValue(s[1])] + rest)
  }

  lemma {:induction false} HexRoundTrip(b: seq<byte>)
    ensures HexDecode(HexEncode(b)) == Some(b)
  {
    if b != [] {
      HexRoundTrip(b[1..]);
      var e := HexEncode(b);
      assert e[2..] == HexEncode(b[1..]);
      assert HexValue(e[0]) * 16 + HexValue(e[1]) == b[0];
      assert IsHexDigit(e[0]) && IsHexDigit(e[1]) && |e| >= 2;
      assert [b[0]] + b[1..] == b;
    }
  }
}

/**
 * The basic encoding rules of ITU-T X.690 that the LDAP codec relies on.
 *
 * The codec's helpers `BerValue.getNbBytes`, `BerValue.getBytes`,
 * `BerValue.encode`, `TLV.getNbBytes`, `TLV.getBytes` and `IntegerDecoder.parse`
 * are not part of this model; they are given here as specification functions:
 * definite length octets (section 8.1.3 of X.690), minimal two's-complement
 * INTEGER contents (section 8.3), ENUMERATED (8.4), OCTET STRING (8.7) and
 * SEQUENCE (8.9).
 */
module Ber {
  import opened Wrappers

  /** An octet, as stored in a Java `byte[]` read with `& 0xFF`. */
  type byte = x: int | 0 <= x < 256

  const SEQUENCE_TAG: byte := 0x30
  const INTEGER_TAG: byte := 0x02
  const OCTET_STRING_TAG: byte := 0x04
  const ENUMERATED_TAG: byte := 0x0A

  const MAX_INT: int := 0x7FFF_FFFF
  const MIN_INT: int := -0x8000_0000

  /** The values of a Java `int`. */
  predicate IsInt(v: int) { MIN_INT <= v <= MAX_INT }

  /** The values of a Java `long`. */
  predicate IsLong(v: int) { -0x8000_0000_0000_0000 <= v < 0x8000_0000_0000_0000 }

  /** Java's signed reading of an octet. */
  function Signed(b: byte): (r: int)
    ensures -128 <= r < 128 && r % 256 == b
  {
    if b < 128 then b else b - 256
  }

  /** Java `int` arithmetic: the result of an `int` operation, wrapped to 32 bits. */
  function Wrap32(x: int): (r: int)
    ensures IsInt(r) && (r - x) % 0x1_0000_0000 == 0
  {
    (x + 0x8000_0000) % 0x1_0000_0000 - 0x8000_0000
  }

  // ---------------------------------------------------------------------
  // INTEGER contents (section 8.3 of X.690)
  // ---------------------------------------------------------------------

  /** Half the range of an n-octet two's-complement number: 2^(8n-1). */
  function Half(n: nat): (h: nat)
    requires n >= 1
    ensures h >= 128
  {
    if n == 1 then 128 else 256 * Half(n - 1)
  }

  /** `v` is representable in `n` octets of two's complement. */
  predicate Fits(v: int, n: nat)
    requires n >= 1
  {
    var h: int := Half(n);
    -h <= v < h
  }

  function Magnitude(v: int): nat { if v < 0 then -v else v }

  /** `BerValue.getNbBytes`: the number of contents octets of the INTEGER `v`. */
  function IntNbBytes(v: int): (n: nat)
    ensures n >= 1
    decreases Magnitude(v)
  {
    if -128 <= v < 128 then 1 else 1 + IntNbBytes(v / 256)
  }

  /** `BerValue.getBytes`: the minimal two's-complement octets of `v`, most significant first. */
  function IntBytes(v: int): (s: seq<byte>)
    ensures |s| == IntNbBytes(v)
    decreases Magnitude(v)
  {
    if -128 <= v < 128 then [v % 256] else IntBytes(v / 256) + [v % 256]
  }

  /** The value of big-endian two's-complement contents octets (what `IntegerDecoder` reads). */
  function TwosValue(s: seq<byte>): int
    requires |s| >= 1
    decreases |s|
  {
    if |s| == 1 then Signed(s[0]) else 256 * TwosValue(s[..|s| - 1]) + s[|s| - 1]
  }

  /** The contents octets of `IntBytes(v)` read back give `v`. */
  lemma {:induction false} IntBytesRoundTrip(v: int)
    ensures TwosValue(IntBytes(v)) == v
    decreases Magnitude(v)
  {
    if !(-128 <= v < 128) {
      var p := IntBytes(v / 256);
      var s := IntBytes(v);
      assert s[..|s| - 1] == p;
      IntBytesRoundTrip(v / 256);
    }
  }

  /** `IntNbBytes(v)` octets hold `v`, and no fewer would (the minimality of section 8.3.2). */
  lemma {:induction false} IntNbBytesMinimal(v: int)
    ensures Fits(v, IntNbBytes(v))
    ensures IntNbBytes(v) > 1 ==> !Fits(v, IntNbBytes(v) - 1)
    decreases Magnitude(v)
  {
    if !(-128 <= v < 128) {
      var q := v / 256;
      IntNbBytesMinimal(q);
      var n := IntNbBytes(v);
      assert n == IntNbBytes(q) + 1;
      assert Half(n) == 256 * Half(n - 1);
      if n - 1 > 1 {
        assert Half(n - 1) == 256 * Half(n - 2);
      }
    }
  }

  lemma {:induction false} HalfMonotone(m: nat, n: nat)
    requires 1 <= m <= n
    ensures Half(m) <= Half(n)
    decreases n
  {
    if m < n { HalfMonotone(m, n - 1); }
  }

  /**
   * For a Java `int` the count is the one `BerValue.getNbBytes(int)` computes
   * with its explicit thresholds, hence at most 4.
   */
  lemma IntNbBytesOfInt(v: int)
    requires IsInt(v)
    ensures IntNbBytes(v) == (if -128 <= v < 128 then 1
                              else if -0x8000 <= v < 0x8000 then 2
                              else if -0x80_0000 <= v < 0x80_0000 then 3
                              else 4)
  {
    var n := IntNbBytes(v);
    IntNbBytesMinimal(v);
    assert Half(1) == 0x80 && Half(2) == 0x8000 && Half(3) == 0x80_0000 && Half(4) == 0x8000_0000;
    if n > 4 {
      HalfMonotone(4, n - 1);
    }
  }

  /** For a Java `long` the count is at most 8. */
  lemma IntNbBytesOfLong(v: int)
    requires IsLong(v)
    ensures 1 <= IntNbBytes(v) <= 8
  {
    var n := IntNbBytes(v);
    IntNbBytesMinimal(v);
    assert Half(8) == 0x8000_0000_0000_0000;
    if n > 8 {
      HalfMonotone(8, n - 1);
    }
  }

  /** Any n contents octets read as a two's-complement number fit in n octets. */
  lemma {:induction false} TwosValueFits(s: seq<byte>)
    requires |s| >= 1
    ensures Fits(TwosValue(s), |s|)
    decreases |s|
  {
    if |s| > 1 {
      TwosValueFits(s[..|s| - 1]);
    }
  }

  // ---------------------------------------------------------------------
  // Length octets (section 8.1.3 of X.690)
  // ---------------------------------------------------------------------

  /** The k low-order octets of x, most significant first. */
  function BigEndian(x: nat, k: nat): (s: seq<byte>)
    ensures |s| == k
  {
    if k == 0 then [] else BigEndian(x / 256, k - 1) + [x % 256]
  }

  /** The unsigned value of big-endian octets. */
  function UnsignedValue(s: seq<byte>): nat
  {
    if s == [] then 0 else 256 * UnsignedValue(s[..|s| - 1]) + s[|s| - 1]
  }

  function Pow256(k: nat): (p: nat)
    ensures p >= 1
  {
    if k == 0 then 1 else 256 * Pow256(k - 1)
  }

  lemma {:induction false} BigEndianValue(x: nat, k: nat)
    requires x < Pow256(k)
    ensures UnsignedValue(BigEndian(x, k)) == x
  {
    if k > 0 {
      var s := BigEndian(x, k);
      var high, low := x / 256, x % 256;
      assert s[..|s| - 1] == BigEndian(high, k - 1) && s[|s| - 1] == low;
      assert high < Pow256(k - 1) by {
        assert x == 256 * high + low && x < 256 * Pow256(k - 1);
      }
      BigEndianValue(high, k - 1);
      assert UnsignedValue(s) == 256 * high + low;
    }
  }

  /** `TLV.getNbBytes`: how many octets the length `n` takes. */
  function LenNbBytes(n: nat): nat
  {
    if n < 0x80 then 1
    else if n < 0x100 then 2
    else if n < 0x1_0000 then 3
    else if n < 0x100_0000 then 4
    else 5
  }

  /** `TLV.getBytes`: the definite length octets of `n` (short form below 128, else long form). */
  function LenBytes(n: nat): (s: seq<byte>)
    ensures |s| == LenNbBytes(n)
  {
    if n < 0x80 then [n]
    else [0x80 + (LenNbBytes(n) - 1)] + BigEndian(n, LenNbBytes(n) - 1)
  }

  /**
   * Reading definite length octets: the length and how many octets held it.
   * The indefinite form (a lone 0x80) is refused, as LDAP requires.
   */
  function DecodeLength(s: seq<byte>): (r: Option<(nat, nat)>)
    ensures r.Some? ==> 1 <= r.value.1 <= |s|
  {
    if |s| == 0 then None
    else if s[0] < 0x80 then Some((s[0], 1))
    else if s[0] == 0x80 || |s| < 1 + (s[0] - 0x80) then None
    else Some((UnsignedValue(s[1..1 + (s[0] - 0x80)]), 1 + (s[0] - 0x80)))
  }

  /** Length octets read back give the length, for every length a Java `int` can hold. */
  lemma LenBytesRoundTrip(n: nat, rest: seq<byte>)
    requires n < 0x1_0000_0000
    ensures DecodeLength(LenBytes(n) + rest) == Some((n, LenNbBytes(n)))
  {
    if n >= 0x80 {
      var k := LenNbBytes(n) - 1;
      assert Pow256(1) == 0x100 && Pow256(2) == 0x1_0000 && Pow256(3) == 0x100_0000 && Pow256(4) == 0x1_0000_0000;
      BigEndianValue(n, k);
      var s := LenBytes(n) + rest;
      assert s[1..1 + k] == BigEndian(n, k);
    }
  }

  /** The long form is minimal: its first length octet after the count is never zero. */
  lemma LenBytesMinimal(n: nat)
    requires 0x80 <= n < 0x1_0000_0000
    ensures LenBytes(n)[0] == 0x80 + |LenBytes(n)| - 1
    ensures LenBytes(n)[1] != 0
  {
    var k := LenNbBytes(n) - 1;
    assert Pow256(0) == 1 && Pow256(1) == 0x100 && Pow256(2) == 0x1_0000 && Pow256(3) == 0x100_0000 && Pow256(4) == 0x1_0000_0000;
    BigEndianLeading(n, k);
  }

  /** A number of exactly k significant octets has a non-zero leading octet. */
  lemma {:induction false} BigEndianLeading(x: nat, k: nat)
    requires k >= 1 && Pow256(k - 1) <= x < Pow256(k)
    ensures BigEndian(x, k)[0] != 0
  {
    if k > 1 {
      var q := x / 256;
      assert x == 256 * q + x % 256;
      assert Pow256(k - 1) == 256 * Pow256(k - 2);
      BigEndianLeading(q, k - 1);
    }
  }

  // ---------------------------------------------------------------------
  // Tag-length-value triples
  // ---------------------------------------------------------------------

  /** A TLV read from the front of `s`: its tag, its value and what follows it. */
  function DecodeTlv(s: seq<byte>): (r: Option<(byte, seq<byte>, seq<byte>)>)
    ensures r.Some? ==> |r.value.1| + |r.value.2| < |s|
  {
    if |s| == 0 then None
    else match DecodeLength(s[1..])
      case None => None
      case Some((len, k)) =>
        if |s| < 1 + k + len then None
        else Some((s[0], s[1 + k..1 + k + len], s[1 + k + len..]))
  }

  /** A primitive TLV as the codec writes it: tag, `TLV.getBytes` length octets, value. */
  function Tlv(tag: byte, value: seq<byte>): seq<byte>
  {
    [tag] + LenBytes(|value|) + value
  }

  /** Every TLV written with definite length octets reads back as the same tag and value. */
  lemma TlvRoundTrip(tag: byte, value: seq<byte>, rest: seq<byte>)
    requires |value| < 0x1_0000_0000
    ensures DecodeTlv(Tlv(tag, value) + rest) == Some((tag, value, rest))
  {
    var s := Tlv(tag, value) + rest;
    var len := LenBytes(|value|);
    assert s[1..] == len + (value + rest);
    LenBytesRoundTrip(|value|, value + rest);
    var k := |len|;
    assert s[1 + k..1 + k + |value|] == value;
    assert s[1 + k + |value|..] == rest;
  }

  /**
   * `BerValue.encode(buffer, int)` and `BerValue.encode(buffer, long)`: the INTEGER
   * tag, the octet count written as one byte, then the contents octets.
   */
  function IntegerTlv(v: int): seq<byte>
    requires IsLong(v)
  {
    IntNbBytesOfLong(v);
    [INTEGER_TAG, IntNbBytes(v)] + IntBytes(v)
  }

  /**
   * `BerValue.encode(buffer, byte[])` and `BerValue.encode(buffer, String)`: the OCTET
   * STRING tag, the length octets, then the octets (a null or empty value gives `04 00`).
   */
  function OctetStringTlv(value: seq<byte>): seq<byte>
  {
    Tlv(OCTET_STRING_TAG, value)
  }

  /** The codec's INTEGER, with its count octet, is a TLV with definite short-form length. */
  lemma IntegerTlvIsTlv(v: int)
    requires IsLong(v)
    ensures IntegerTlv(v) == Tlv(INTEGER_TAG, IntBytes(v))
    ensures |IntegerTlv(v)| == 2 + IntNbBytes(v) <= 10
  {
    IntNbBytesOfLong(v);
  }

  /** An INTEGER written by the codec decodes to its own value. */
  lemma IntegerTlvRoundTrip(v: int, rest: seq<byte>)
    requires IsLong(v)
    ensures DecodeTlv(IntegerTlv(v) + rest) == Some((INTEGER_TAG, IntBytes(v), rest))
    ensures TwosValue(IntBytes(v)) == v
  {
    IntegerTlvIsTlv(v);
    TlvRoundTrip(INTEGER_TAG, IntBytes(v), rest);
    IntBytesRoundTrip(v);
  }

  /** Reading consecutive OCTET STRING TLVs until the input runs out. */
  function DecodeOctetStrings(s: seq<byte>): Option<seq<seq<byte>>>
    decreases |s|
  {
    if s == [] then Some([])
    else match DecodeTlv(s)
      case None => None
      case Some((tag, value, rest)) =>
        if tag != OCTET_STRING_TAG then None
        else match DecodeOctetStrings(rest)
          case None => None
          case Some(values) => Some([value] + values)
  }

  /** An OCTET STRING in front of a readable run of them reads back as one more value. */
  lemma DecodeOctetStringsCons(value: seq<byte>, rest: seq<byte>)
    requires |value| < 0x1_0000_0000 && DecodeOctetStrings(rest).Some?
    ensures DecodeOctetStrings(OctetStringTlv(value) + rest) == Some([value] + DecodeOctetStrings(rest).value)
  {
    TlvRoundTrip(OCTET_STRING_TAG, value, rest);
  }

  // ---------------------------------------------------------------------
  // IntegerDecoder.parse
  // ---------------------------------------------------------------------

  datatype IntegerDecodeError = ZeroBytes | AboveFourBytes | NotInRange

  /**
   * `IntegerDecoder.parse(value, min, max)`: the value of one to four octets of
   * two's complement, refused when empty, longer than four octets or out of [min, max].
   */
  function ParseInteger(value: seq<byte>, min: int, max: int): (r: Result<int, IntegerDecodeError>)
    ensures r.Ok? ==> IsInt(r.value) && min <= r.value <= max
    ensures r.Ok? <==> 1 <= |value| <= 4 && min <= TwosValue(value) <= max
  {
    if |value| == 0 then Err(ZeroBytes)
    else if |value| > 4 then Err(AboveFourBytes)
    else
      var v := TwosValue(value);
      TwosValueFits(value);
      HalfMonotone(|value|, 4);
      assert Half(4) == 0x8000_0000;
      if min <= v <= max then Ok(v) else Err(NotInRange)
  }

  /** Every Java `int` in range, encoded minimally, parses back to itself. */
  lemma ParseIntBytes(v: int, min: int, max: int)
    requires IsInt(v) && min <= v <= max
    ensures ParseInteger(IntBytes(v), min, max) == Ok(v)
  {
    IntNbBytesOfInt(v);
    IntBytesRoundTrip(v);
  }
}

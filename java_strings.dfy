/**
 * The few `java.lang.String` operations the modelled code relies on:
 * UTF-8 encoding (`Strings.getBytesUtf8`), `trim()`, and case mapping
 * restricted to ASCII letters.
 */
module JavaStrings {
  import opened Wrappers
  import opened Ber

  // ---------------------------------------------------------------------
  // UTF-8
  // ---------------------------------------------------------------------

  /** The UTF-8 octets of one Unicode scalar value. */
  function Utf8Char(c: char): (s: seq<byte>)
    ensures 1 <= |s| <= 4
    ensures (|s| == 1) <==> (c as int) < 0x80
  {
    var v := c as int;
    if v < 0x80 then [v]
    else if v < 0x800 then [0xC0 + v / 0x40, 0x80 + v % 0x40]
    else if v < 0x1_0000 then [0xE0 + v / 0x1000, 0x80 + (v / 0x40) % 0x40, 0x80 + v % 0x40]
    else [0xF0 + v / 0x4_0000, 0x80 + (v / 0x1000) % 0x40, 0x80 + (v / 0x40) % 0x40, 0x80 + v % 0x40]
  }

  /** `Strings.getBytesUtf8`: the UTF-8 octets of a string. */
  function Utf8(s: string): (b: seq<byte>)
    ensures |s| <= |b| <= 4 * |s|
  {
    if s == [] then [] else Utf8(s[..|s| - 1]) + Utf8Char(s[|s| - 1])
  }

  /** Encoding is compositional: the octets of a concatenation are the concatenated octets. */
  lemma {:induction false} Utf8Append(s: string, t: string)
    ensures Utf8(s + t) == Utf8(s) + Utf8(t)
    decreases |t|
  {
    if t != [] {
      var t' := t[..|t| - 1];
      assert (s + t)[..|s + t| - 1] == s + t';
      assert (s + t)[|s + t| - 1] == t[|t| - 1];
      Utf8Append(s, t');
      assert Utf8(t) == Utf8(t') + Utf8Char(t[|t| - 1]);
    } else {
      assert s + t == s;
    }
  }

  // ---------------------------------------------------------------------
  // String.trim()
  // ---------------------------------------------------------------------

  /** The characters `String.trim()` removes: every code point up to U+0020. */
  predicate IsTrimmed(c: char) { c as int <= 0x20 }

  function TrimStart(s: string): (r: string)
    ensures |r| <= |s| && r == s[|s| - |r|..]
    ensures r != [] ==> !IsTrimmed(r[0])
  {
    if s != [] && IsTrimmed(s[0]) then TrimStart(s[1..]) else s
  }

  function TrimEnd(s: string): (r: string)
    ensures |r| <= |s| && r == s[..|r|]
    ensures r != [] ==> !IsTrimmed(r[|r| - 1])
  {
    if s != [] && IsTrimmed(s[|s| - 1]) then TrimEnd(s[..|s| - 1]) else s
  }

  /** `String.trim()`. */
  function Trim(s: string): (r: string)
  {
    TrimEnd(TrimStart(s))
  }

  /** The result of `trim()` has no leading or trailing character up to U+0020. */
  lemma TrimHasNoEdges(s: string)
    ensures Trim(s) != [] ==> !IsTrimmed(Trim(s)[0]) && !IsTrimmed(Trim(s)[|Trim(s)| - 1])
    ensures Trim(s) == [] <==> forall i :: 0 <= i < |s| ==> IsTrimmed(s[i])
  {
    var a := TrimStart(s);
    var r := TrimEnd(a);
    if r != [] {
      assert r[0] == a[0];
    }
    TrimStartAll(s);
    TrimEndAll(a);
    if a != [] {
      assert !IsTrimmed(a[0]);
      assert s[|s| - |a|] == a[0];
    }
  }

  lemma {:induction false} TrimStartAll(s: string)
    ensures forall i :: 0 <= i < |s| - |TrimStart(s)| ==> IsTrimmed(s[i])
  {
    if s != [] && IsTrimmed(s[0]) {
      TrimStartAll(s[1..]);
    }
  }

  lemma {:induction false} TrimEndAll(s: string)
    ensures TrimEnd(s) == [] ==> forall i :: 0 <= i < |s| ==> IsTrimmed(s[i])
  {
    if s != [] && IsTrimmed(s[|s| - 1]) {
      TrimEndAll(s[..|s| - 1]);
    }
  }

  /** A string without trimmable edges is left alone by `trim()`. */
  lemma TrimOfTrimmed(s: string)
    requires s != [] ==> !IsTrimmed(s[0]) && !IsTrimmed(s[|s| - 1])
    ensures Trim(s) == s
  {
  }

  /** `trim()` is idempotent. */
  lemma TrimIdempotent(s: string)
    ensures Trim(Trim(s)) == Trim(s)
  {
    TrimHasNoEdges(s);
    TrimOfTrimmed(Trim(s));
  }

  // ---------------------------------------------------------------------
  // Case mapping (ASCII letters)
  // ---------------------------------------------------------------------

  function UpperChar(c: char): char
  {
    if 'a' <= c <= 'z' then (c as int - 32) as char else c
  }

  function LowerChar(c: char): char
  {
    if 'A' <= c <= 'Z' then (c as int + 32) as char else c
  }

  /** `toUpperCase()` on ASCII letters. */
  function ToUpper(s: string): (r: string)
    ensures |r| == |s| && forall i :: 0 <= i < |s| ==> r[i] == UpperChar(s[i])
  {
    seq(|s|, i requires 0 <= i < |s| => UpperChar(s[i]))
  }

  /** `toLowerCase()` on ASCII letters. */
  function ToLower(s: string): (r: string)
    ensures |r| == |s| && forall i :: 0 <= i < |s| ==> r[i] == LowerChar(s[i])
  {
    seq(|s|, i requires 0 <= i < |s| => LowerChar(s[i]))
  }

  /** Case mapping neither creates nor removes trimmable characters. */
  lemma CaseKeepsTrimmed(c: char)
    ensures IsTrimmed(UpperChar(c)) <==> IsTrimmed(c)
    ensures IsTrimmed(LowerChar(c)) <==> IsTrimmed(c)
  {
  }

  lemma ToUpperIdempotent(s: string)
    ensures ToUpper(ToUpper(s)) == ToUpper(s)
  {
  }

  lemma ToLowerIdempotent(s: string)
    ensures ToLower(ToLower(s)) == ToLower(s)
  {
  }

  // ---------------------------------------------------------------------
  // Decimal numerals (`Long.toString`, `new BigInteger(String)`)
  // ---------------------------------------------------------------------

  predicate IsDigit(c: char) { '0' <= c <= '9' }

  function DigitChar(d: nat): (c: char)
    requires d < 10
    ensures IsDigit(c)
  {
    ('0' as int + d) as char
  }

  /** The decimal digits of n, without leading zeros. */
  function NatDecimal(n: nat): (s: string)
    ensures |s| >= 1 && forall i :: 0 <= i < |s| ==> IsDigit(s[i])
  {
    if n < 10 then [DigitChar(n)] else NatDecimal(n / 10) + [DigitChar(n % 10)]
  }

  /** `Long.toString`: a minus sign for a negative number, then its digits. */
  function Decimal(v: int): (s: string)
    ensures |s| >= 1 && (IsDigit(s[0]) || s[0] == '-')
  {
    if v < 0 then "-" + NatDecimal(-v) else NatDecimal(v)
  }

  /** The value of a run of decimal digits. */
  function DigitsValue(s: string): nat
    requires forall i :: 0 <= i < |s| ==> IsDigit(s[i])
  {
    if s == [] then 0
    else
      assert IsDigit(s[|s| - 1]);
      10 * DigitsValue(s[..|s| - 1]) + (s[|s| - 1] as int - '0' as int)
  }

  predicate AllDigits(s: string)
  {
    |s| >= 1 && forall i :: 0 <= i < |s| ==> IsDigit(s[i])
  }

  /**
   * `new BigInteger(String)`: an optional sign followed by at least one ASCII
   * digit; anything else is a `NumberFormatException`, here `None`. Other
   * Unicode decimal digits, which Java also accepts, are refused here.
   */
  function DecimalValue(s: string): (r: Option<int>)
  {
    if |s| >= 1 && s[0] == '-' && AllDigits(s[1..]) then Some(0 - DigitsValue(s[1..]) as int)
    else if |s| >= 1 && s[0] == '+' && AllDigits(s[1..]) then Some(DigitsValue(s[1..]))
    else if AllDigits(s) then Some(DigitsValue(s))
    else None
  }

  lemma {:induction false} NatDecimalValue(n: nat)
    ensures DigitsValue(NatDecimal(n)) == n
  {
    if n >= 10 {
      var s := NatDecimal(n);
      assert s[..|s| - 1] == NatDecimal(n / 10);
      NatDecimalValue(n / 10);
    }
  }

  /** Every number written in decimal reads back as itself. */
  lemma DecimalRoundTrip(v: int)
    ensures DecimalValue(Decimal(v)) == Some(v)
  {
    if v < 0 {
      var digits := NatDecimal(-v);
      var s := Decimal(v);
      assert s == "-" + digits;
      assert s[0] == '-' && s[1..] == digits;
      assert AllDigits(digits);
      NatDecimalValue(-v);
    } else {
      var digits := NatDecimal(v);
      assert Decimal(v) == digits;
      assert digits[0] != '-' && digits[0] != '+';
      assert AllDigits(digits);
      NatDecimalValue(v);
    }
  }
}

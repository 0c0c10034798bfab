/**
  The pieces of the Java platform that the Snowflake starter relies on, stated as
  values: the `long` and `byte` ranges, a nullable reference as `Option`, the
  unsigned reading of a byte (`b & 0xFF`), and the decimal parser
  `Long.parseLong(String)` together with its inverse `Long.toString(long)`.
 */
module JavaLang {

  const MinLong: int := -0x8000_0000_0000_0000
  const MaxLong: int := 0x7FFF_FFFF_FFFF_FFFF

  /** A Java `long`: a signed 64-bit integer. */
  type Long = x: int | MinLong <= x <= MaxLong

  /** A Java `byte`: a signed 8-bit integer. */
  type Byte = x: int | -128 <= x <= 127

  /** A nullable reference: `None` is Java's `null`. */
  datatype Option<+T> = None | Some(value: T)

  /**
    `b & 0xFF` on a Java byte: the byte is sign-extended to `int`, then its low
    eight bits are kept. The result is the unique value in [0, 255] congruent to
    the byte modulo 256.
   */
  function UnsignedByte(b: Byte): (r: int)
    ensures 0 <= r <= 255
    ensures r % 256 == b % 256
    ensures b >= 0 ==> r == b
  {
    if b < 0 then b + 256 else b
  }

  // ---------------------------------------------------------------------------
  // Decimal digits
  // ---------------------------------------------------------------------------

  predicate IsDigit(c: char) {
    '0' <= c <= '9'
  }

  predicate AllDigits(s: string) {
    forall k :: 0 <= k < |s| ==> IsDigit(s[k])
  }

  function DigitValue(c: char): (d: nat)
    requires IsDigit(c)
    ensures d < 10
  {
    (c as int) - ('0' as int)
  }

  function DigitChar(d: nat): (c: char)
    requires d < 10
    ensures IsDigit(c) && DigitValue(c) == d
  {
    ('0' as int + d) as char
  }

  /** The number a (non-empty or empty) string of decimal digits denotes, most significant first. */
  function DigitsValue(s: string): nat
    requires AllDigits(s)
  {
    if s == [] then 0 else DigitsValue(s[..|s| - 1]) * 10 + DigitValue(s[|s| - 1])
  }

  /** The canonical decimal digits of `m`: never empty and without leading zeros. */
  function NatToDigits(m: nat): (s: string)
    ensures |s| > 0 && AllDigits(s)
    ensures s[0] == '0' <==> m == 0
  {
    if m < 10 then [DigitChar(m)] else NatToDigits(m / 10) + [DigitChar(m % 10)]
  }

  lemma {:induction false} DigitsRoundTrip(m: nat)
    ensures DigitsValue(NatToDigits(m)) == m
  {
    var s := NatToDigits(m);
    if m >= 10 {
      DigitsRoundTrip(m / 10);
      assert s[..|s| - 1] == NatToDigits(m / 10);
    }
  }

  /** `k` zero digits. */
  function Zeros(k: nat): (z: string)
    ensures |z| == k && AllDigits(z)
    ensures forall i :: 0 <= i < k ==> z[i] == '0'
  {
    if k == 0 then "" else Zeros(k - 1) + "0"
  }

  lemma {:induction false} ZerosValue(k: nat)
    ensures DigitsValue(Zeros(k)) == 0
  {
    if k > 0 {
      ZerosValue(k - 1);
      assert Zeros(k)[..k - 1] == Zeros(k - 1);
    }
  }

  /** Digits in front of a string denoting zero do not change its value. */
  lemma {:induction false} LeadingZeroDigits(p: string, t: string)
    requires AllDigits(p) && AllDigits(t) && DigitsValue(p) == 0
    ensures AllDigits(p + t) && DigitsValue(p + t) == DigitsValue(t)
  {
    if t == [] {
      assert p + t == p;
    } else {
      LeadingZeroDigits(p, t[..|t| - 1]);
      assert (p + t)[..|p + t| - 1] == p + t[..|t| - 1];
    }
  }

  /** A digit string that starts with a non-zero digit denotes a positive number. */
  lemma {:induction false} NonZeroLead(t: string)
    requires |t| > 0 && AllDigits(t) && t[0] != '0'
    ensures DigitsValue(t) >= 1
  {
    if |t| == 1 {
      assert t[..0] == [];
    } else {
      NonZeroLead(t[..|t| - 1]);
    }
  }

  /** Digits without a leading zero (or the single digit `0`) are the canonical digits of their value. */
  lemma {:induction false} CanonicalDigits(t: string)
    requires |t| > 0 && AllDigits(t) && (|t| == 1 || t[0] != '0')
    ensures NatToDigits(DigitsValue(t)) == t
  {
    var c := t[|t| - 1];
    if |t| == 1 {
      assert t[..0] == [];
      assert DigitChar(DigitValue(c)) == c;
      assert t == [c];
    } else {
      var init := t[..|t| - 1];
      CanonicalDigits(init);
      NonZeroLead(init);
      var v := DigitsValue(t);
      assert v / 10 == DigitsValue(init) && v % 10 == DigitValue(c);
      assert DigitChar(DigitValue(c)) == c;
      assert t == init + [c];
    }
  }

  /** Any digit string is some run of zeros followed by digits without a leading zero. */
  lemma {:induction false} SplitLeadingZeros(d: string) returns (k: nat)
    requires |d| > 0 && AllDigits(d)
    ensures k < |d| && d == Zeros(k) + d[k..]
    ensures k == |d| - 1 || d[k] != '0'
  {
    if |d| == 1 || d[0] != '0' {
      k := 0;
      assert d == Zeros(0) + d[0..];
    } else {
      var j := SplitLeadingZeros(d[1..]);
      k := j + 1;
      assert Zeros(k) == "0" + Zeros(j);
      assert d == [d[0]] + d[1..];
      assert d[1..][j..] == d[k..];
    }
  }

  /** Any digit string is some leading zeros followed by the canonical digits of its value. */
  lemma PaddedCanonical(d: string) returns (k: nat)
    requires |d| > 0 && AllDigits(d)
    ensures d == Zeros(k) + NatToDigits(DigitsValue(d))
  {
    k := SplitLeadingZeros(d);
    var t := d[k..];
    assert AllDigits(t) by {
      forall i | 0 <= i < |t| ensures IsDigit(t[i]) { assert t[i] == d[k + i]; }
    }
    CanonicalDigits(t);
    ZerosValue(k);
    LeadingZeroDigits(Zeros(k), t);
  }

  // ---------------------------------------------------------------------------
  // Long.toString(long) and Long.parseLong(String)
  // ---------------------------------------------------------------------------

  /** `Long.toString(n)`: an optional minus sign followed by the canonical digits. */
  function ToDecimal(n: Long): (s: string)
    ensures |s| > 0
    ensures s[0] == '-' <==> n < 0
  {
    if n < 0 then "-" + NatToDigits(-(n as int)) else NatToDigits(n)
  }

  /** Number of sign characters `Long.parseLong` accepts at the front of `s`. */
  function SignLength(s: string): (k: nat)
    ensures k <= 1 && k <= |s|
  {
    if |s| > 0 && (s[0] == '-' || s[0] == '+') then 1 else 0
  }

  /**
    `Long.parseLong(s)` with radix 10; `None` stands for the
    `NumberFormatException` it throws. Accepted: an optional `-` or `+` followed
    by at least one decimal digit (leading zeros allowed), whose value lies in
    the `long` range. Rejected: the empty string, a lone sign, any other
    character (including white space), and any value outside the `long` range.
   */
  function ParseLong(s: string): (r: Option<Long>)
    ensures r.Some? ==> SignLength(s) < |s| && AllDigits(s[SignLength(s)..])
    ensures r.Some? ==> (r.value < 0 ==> s[0] == '-')
  {
    var start := SignLength(s);
    var digits := s[start..];
    if |digits| == 0 || !AllDigits(digits) then None
    else
      var magnitude: int := DigitsValue(digits);
      var v: int := if start == 1 && s[0] == '-' then -magnitude else magnitude;
      if MinLong <= v <= MaxLong then Some(v) else None
  }

  /** Parsing the text `Long.toString` prints gives back the same `long`. */
  lemma ParseLongToDecimal(n: Long)
    ensures ParseLong(ToDecimal(n)) == Some(n)
  {
    var s := ToDecimal(n);
    if n < 0 {
      assert s[1..] == NatToDigits(-(n as int));
      DigitsRoundTrip(-(n as int));
    } else {
      assert SignLength(s) == 0 by { assert IsDigit(s[0]); }
      assert s[0..] == s;
      DigitsRoundTrip(n);
    }
  }

  /** A character that is neither a digit nor the leading sign makes the parse fail. */
  lemma ParseLongRejectsNonDigit(s: string, k: nat)
    requires k < |s| && !IsDigit(s[k])
    requires !(k == 0 && (s[0] == '-' || s[0] == '+'))
    ensures ParseLong(s) == None
  {
    var start := SignLength(s);
    assert start <= k;
    assert s[start..][k - start] == s[k];
  }

  /** The empty string and a lone sign are rejected. */
  lemma ParseLongRejectsNoDigits(s: string)
    requires |s| <= SignLength(s)
    ensures ParseLong(s) == None
  {
  }

  /** A digit string denoting a number beyond `Long.MAX_VALUE` is rejected; the parse never wraps. */
  lemma ParseLongRejectsOverflow(s: string)
    requires SignLength(s) < |s| && AllDigits(s[SignLength(s)..])
    requires DigitsValue(s[SignLength(s)..]) > MaxLong
    requires !(s[0] == '-' && DigitsValue(s[1..]) == MaxLong + 1)
    ensures ParseLong(s) == None
  {
  }

  /**
    Acceptance: an optional sign followed by at least one digit, whose signed
    value lies in the `long` range, parses to that value.
   */
  lemma ParseLongSucceeds(s: string)
    requires SignLength(s) < |s| && AllDigits(s[SignLength(s)..])
    requires var m: int := DigitsValue(s[SignLength(s)..]);
      MinLong <= (if s[0] == '-' then -m else m) <= MaxLong
    ensures var m: int := DigitsValue(s[SignLength(s)..]);
      ParseLong(s).Some? && ParseLong(s).value == (if s[0] == '-' then -m else m)
  {
  }

  /** Zero-padded canonical digits: still digits, and still denoting `m`. */
  lemma PaddedDigits(k: nat, m: nat)
    ensures var d := Zeros(k) + NatToDigits(m);
      |d| > 0 && AllDigits(d) && DigitsValue(d) == m
  {
    ZerosValue(k);
    DigitsRoundTrip(m);
    LeadingZeroDigits(Zeros(k), NatToDigits(m));
  }

  /** A sign (none, `+` or `-`) followed by digits of in-range signed value parses to that value. */
  lemma SignedDigits(sign: string, d: string)
    requires sign == "" || sign == "+" || sign == "-"
    requires |d| > 0 && AllDigits(d)
    requires var m: int := DigitsValue(d); MinLong <= (if sign == "-" then -m else m) <= MaxLong
    ensures var m: int := DigitsValue(d);
      ParseLong(sign + d).Some? && ParseLong(sign + d).value == (if sign == "-" then -m else m)
  {
    var s := sign + d;
    assert SignLength(s) == |sign| && (s[0] == '-' <==> sign == "-") by {
      if sign == "" { assert s[0] == d[0] && IsDigit(d[0]); }
    }
    assert s[|sign|..] == d;
    ParseLongSucceeds(s);
  }

  /**
    Any sign (none, `+` or `-`) and any number of leading zeros in front of the
    canonical digits of an in-range magnitude `m` parse to the signed `m`.
   */
  lemma ParseLongLeadingZeros(sign: string, k: nat, m: nat)
    requires sign == "" || sign == "+" || sign == "-"
    requires if sign == "-" then m <= MaxLong + 1 else m <= MaxLong
    ensures var r := ParseLong(sign + (Zeros(k) + NatToDigits(m)));
      r.Some? && r.value == (if sign == "-" then -(m as int) else m)
  {
    var d := Zeros(k) + NatToDigits(m);
    PaddedDigits(k, m);
    assert DigitsValue(d) == m;
    SignedDigits(sign, d);
  }

  /**
    The converse of `ParseLongLeadingZeros`: every string the parser accepts
    is a sign (none, `+` or `-`), some leading zeros and the canonical digits
    of the magnitude of the result.
   */
  lemma ParseLongCanonical(s: string)
    requires ParseLong(s).Some?
    ensures var n := ParseLong(s).value;
      var m: nat := if n < 0 then -(n as int) else n;
      exists sign: string, k: nat ::
        (sign == "" || sign == "+" || sign == "-") && s == sign + (Zeros(k) + NatToDigits(m))
  {
    var n := ParseLong(s).value;
    var m: nat := if n < 0 then -(n as int) else n;
    var start := SignLength(s);
    var sign := s[..start];
    var d := s[start..];
    assert DigitsValue(d) == m;
    var k := PaddedCanonical(d);
    assert s == sign + d;
    assert sign == "" || sign == "+" || sign == "-";
  }

  /** Signs and leading zeros are accepted: the parse is not the exact inverse of `ToDecimal`. */
  lemma ParseLongLenient()
    ensures ParseLong("+07") == Some(7)
    ensures ParseLong("-0") == Some(0)
  {
    assert "+07"[1..] == "07";
    assert "07"[..1] == "0";
    assert "0"[..0] == "";
    assert "-0"[1..] == "0";
  }
}

/** Module strings as the host sees them: binary-safe byte sequences, the
    conversions between them and 64-bit integers (StringToLongLong and
    CreateStringFromLongLong), and the 64-bit arithmetic the handlers do. */
module ModuleString {

  newtype byte = b: int | 0 <= b < 256

  type Bytes = seq<byte>

  datatype Option<T> = None | Some(value: T)

  const MinInt64: int := -0x8000_0000_0000_0000
  const MaxInt64: int := 0x7FFF_FFFF_FFFF_FFFF
  const Two64: int := 0x1_0000_0000_0000_0000
  const MinInt32: int := -0x8000_0000
  const Two32: int := 0x1_0000_0000

  predicate InInt64(x: int) {
    MinInt64 <= x <= MaxInt64
  }

  predicate InInt32(x: int) {
    MinInt32 <= x < MinInt32 + Two32
  }

  /** Two's-complement wrap-around of a long long result: 2^64 is taken off
      or added until the value is a long long. */
  function Wrap64(x: int): (r: int)
    ensures InInt64(r)
    ensures InInt64(x) ==> r == x
    decreases if x > MaxInt64 then x - MaxInt64 else if x < MinInt64 then MinInt64 - x else 0
  {
    if x > MaxInt64 then Wrap64(x - Two64)
    else if x < MinInt64 then Wrap64(x + Two64)
    else x
  }

  /** Wrap-around lands a whole number of 2^64 away from where it started. */
  lemma {:induction false} Wrap64Offset(x: int) returns (q: int)
    ensures Wrap64(x) == x + Two64 * q
    decreases if x > MaxInt64 then x - MaxInt64 else if x < MinInt64 then MinInt64 - x else 0
  {
    if x > MaxInt64 {
      var p := Wrap64Offset(x - Two64);
      q := p - 1;
    } else if x < MinInt64 {
      var p := Wrap64Offset(x + Two64);
      q := p + 1;
    } else {
      q := 0;
    }
  }

  /** Wrap-around forgets multiples of 2^64. */
  lemma {:induction false} Wrap64Shift(x: int, q: int)
    ensures Wrap64(x + Two64 * q) == Wrap64(x)
    decreases if q < 0 then -q else q
  {
    if q > 0 {
      Wrap64Shift(x, q - 1);
      assert x + Two64 * q == (x + Two64 * (q - 1)) + Two64;
    } else if q < 0 {
      Wrap64Shift(x, q + 1);
      assert x + Two64 * q == (x + Two64 * (q + 1)) - Two64;
    }
  }

  /** The wrapped value is congruent to the exact one modulo 2^64. */
  lemma {:induction false} Wrap64Congruent(x: int)
    ensures (x - Wrap64(x)) % Two64 == 0
  {
    var q := Wrap64Offset(x);
    assert x - Wrap64(x) == Two64 * -q;
  }

  /** Conversion of a long long to a C int: the value modulo 2^32. */
  function Int32Of(x: int): (r: int)
    ensures InInt32(r)
    ensures InInt32(x) ==> r == x
    ensures (x - r) % Two32 == 0
  {
    (x - MinInt32) % Two32 + MinInt32
  }

  /** 2^32 converts to the C int 0. */
  lemma Int32OfTwo32()
    ensures Int32Of(Two32) == 0
  {
    assert (Two32 - MinInt32) % Two32 == -MinInt32;
  }

  /** Adding to a wrapped value and wrapping again equals wrapping once. */
  lemma WrapAdd(a: int, b: int)
    ensures Wrap64(Wrap64(a) + b) == Wrap64(a + b)
  {
    var q := Wrap64Offset(a);
    assert Wrap64(a) + b == (a + b) + Two64 * q;
    Wrap64Shift(a + b, q);
  }

  /** Two wrapped additions regroup. */
  lemma Wrap64Assoc(t: int, a: int, b: int)
    ensures Wrap64(Wrap64(t + a) + b) == Wrap64(t + Wrap64(a + b))
  {
    WrapAdd(t + a, b);
    WrapAdd(a + b, t);
  }

  /** A C string literal as bytes. */
  function Lit(s: string): (r: Bytes)
    ensures |r| == |s|
    ensures forall i :: 0 <= i < |s| ==> r[i] as int == s[i] as int % 256
  {
    seq(|s|, i requires 0 <= i < |s| => (s[i] as int % 256) as byte)
  }

  const Minus: byte := 45
  const Zero: byte := 48

  predicate IsDigit(b: byte) {
    Zero <= b <= Zero + 9
  }

  /** Every byte is a decimal digit, checked from the last one back. */
  predicate IsDigits(d: Bytes) {
    d == [] || (IsDigit(d[|d| - 1]) && IsDigits(d[..|d| - 1]))
  }

  /** Digits without a leading zero, other than "0" itself. */
  predicate IsCanonicalDigits(d: Bytes) {
    |d| > 0 && IsDigits(d) && (d[0] == Zero ==> |d| == 1)
  }

  function DigitChar(n: nat): byte
    requires n < 10
  {
    (n + Zero as int) as byte
  }

  /** The value of a run of decimal digits, most significant first. */
  function ValueOf(d: Bytes): nat
    requires IsDigits(d)
  {
    if d == [] then 0
    else
      DigitsPrefix(d, |d| - 1);
      ValueOf(d[..|d| - 1]) * 10 + (d[|d| - 1] - Zero) as int
  }

  /** The decimal digits of n, without leading zeros. */
  function DigitsOf(n: nat): Bytes
  {
    if n < 10 then [DigitChar(n)] else DigitsOf(n / 10) + [DigitChar(n % 10)]
  }

  /** CreateStringFromLongLong: the decimal form of n, with '-' when negative. */
  function Format(n: int): Bytes
  {
    if n < 0 then [Minus] + DigitsOf(-n) else DigitsOf(n)
  }

  /** The value of the decimal digits s[lo..hi], most significant first, or
      None when one of those bytes is not a digit. */
  function Magnitude(s: Bytes, lo: nat, hi: nat): Option<nat>
    requires lo <= hi <= |s|
    decreases hi - lo
  {
    if hi == lo then Some(0)
    else if !IsDigit(s[hi - 1]) then None
    else match Magnitude(s, lo, hi - 1)
      case None => None
      case Some(v) => Some(v * 10 + (s[hi - 1] - Zero) as int)
  }

  /** Magnitude accepts exactly the runs of digits, and reads their value. */
  lemma {:induction false} MagnitudeIsValue(s: Bytes, lo: nat, hi: nat)
    requires lo <= hi <= |s|
    ensures Magnitude(s, lo, hi).Some? <==> IsDigits(s[lo..hi])
    ensures IsDigits(s[lo..hi]) ==> Magnitude(s, lo, hi).value == ValueOf(s[lo..hi])
    decreases hi - lo
  {
    if hi > lo {
      MagnitudeIsValue(s, lo, hi - 1);
      var d := s[lo..hi];
      assert d[..|d| - 1] == s[lo..hi - 1];
      assert d[|d| - 1] == s[hi - 1];
    }
  }

  /** StringToLongLong: succeeds exactly on the canonical decimal form of a
      long long (no sign but '-', no leading zeros, no "-0", no spaces). */
  function Parse(s: Bytes): (r: Option<int>)
    ensures r.Some? ==> InInt64(r.value)
  {
    if |s| == 1 && s[0] == Zero then Some(0)
    else if |s| > 1 && s[0] == Minus && s[1] != Zero then
      match Magnitude(s, 1, |s|)
      case Some(m) => if m <= -MinInt64 then Some(-(m as int)) else None
      case None => None
    else if |s| > 0 && s[0] != Minus && s[0] != Zero then
      match Magnitude(s, 0, |s|)
      case Some(m) => if m <= MaxInt64 then Some(m as int) else None
      case None => None
    else None
  }

  /** The number of its digits bounds a number from below. */
  lemma {:induction false} LeadingDigitBound(d: Bytes)
    requires |d| > 0 && IsDigits(d) && d[0] != Zero
    ensures ValueOf(d) >= Pow10(|d| - 1)
  {
    if |d| > 1 {
      var p := d[..|d| - 1];
      DigitsPrefix(d, |d| - 1);
      LeadingDigitBound(p);
    }
  }

  function Pow10(n: nat): (r: nat)
    ensures r >= 1
  {
    if n == 0 then 1 else 10 * Pow10(n - 1)
  }

  lemma {:induction false} DigitsPrefix(d: Bytes, k: nat)
    requires IsDigits(d) && k <= |d|
    ensures IsDigits(d[..k])
    decreases |d|
  {
    if k < |d| {
      DigitsPrefix(d[..|d| - 1], k);
      assert d[..|d| - 1][..k] == d[..k];
    } else {
      assert d[..k] == d;
    }
  }

  lemma {:induction false} DigitAt(d: Bytes, i: nat)
    requires IsDigits(d) && i < |d|
    ensures IsDigit(d[i])
    decreases |d|
  {
    if i < |d| - 1 {
      DigitAt(d[..|d| - 1], i);
    }
  }

  /** DigitsOf yields canonical digits whose value is n. */
  lemma {:induction false} DigitsOfValue(n: nat)
    ensures IsCanonicalDigits(DigitsOf(n))
    ensures DigitsOf(n)[0] == Zero <==> n == 0
    ensures ValueOf(DigitsOf(n)) == n
  {
    if n >= 10 {
      DigitsOfValue(n / 10);
      var p := DigitsOf(n / 10);
      var d := DigitsOf(n);
      assert d == p + [DigitChar(n % 10)];
      assert d[..|d| - 1] == p;
    }
  }

  /** Canonical digits are the digits of their value. */
  lemma {:induction false} ValueOfDigits(d: Bytes)
    requires IsCanonicalDigits(d)
    ensures DigitsOf(ValueOf(d)) == d
  {
    if |d| > 1 {
      var p := d[..|d| - 1];
      DigitsPrefix(d, |d| - 1);
      assert p[0] == d[0];
      ValueOfDigits(p);
      LeadingDigitBound(p);
      var v := ValueOf(d);
      assert v == ValueOf(p) * 10 + (d[|d| - 1] - Zero) as int;
      assert v / 10 == ValueOf(p) && v % 10 == (d[|d| - 1] - Zero) as int;
      assert d == p + [d[|d| - 1]];
    }
  }

  /** Parsing the decimal form of a long long gives it back. */
  lemma ParseFormat(n: int)
    requires InInt64(n)
    ensures Parse(Format(n)) == Some(n)
  {
    if n < 0 {
      ParseFormatNegative(n);
    } else {
      ParseFormatNatural(n);
    }
  }

  lemma ParseFormatNegative(n: int)
    requires MinInt64 <= n < 0
    ensures Parse(Format(n)) == Some(n)
  {
    DigitsOfValue(-n);
    var s := Format(n);
    MagnitudeIsValue(s, 1, |s|);
    assert s[1..|s|] == DigitsOf(-n);
    assert Magnitude(s, 1, |s|) == Some(-n);
    assert s[0] == Minus && s[1] == DigitsOf(-n)[0] != Zero;
  }

  lemma ParseFormatNatural(n: int)
    requires 0 <= n <= MaxInt64
    ensures Parse(Format(n)) == Some(n)
  {
    DigitsOfValue(n);
    var s := Format(n);
    MagnitudeIsValue(s, 0, |s|);
    assert s[0..|s|] == s;
    assert Magnitude(s, 0, |s|) == Some(n);
    DigitAt(s, 0);
  }

  /** A string that parses is the decimal form of its value. */
  lemma FormatParse(s: Bytes)
    requires Parse(s).Some?
    ensures Format(Parse(s).value) == s
  {
    if |s| == 1 && s[0] == Zero {
    } else if s[0] == Minus {
      MagnitudeIsValue(s, 1, |s|);
      assert s[1..|s|] == s[1..];
      ValueOfDigits(s[1..]);
      LeadingDigitBound(s[1..]);
      assert s == [Minus] + s[1..];
    } else {
      MagnitudeIsValue(s, 0, |s|);
      assert s[0..|s|] == s;
      ValueOfDigits(s);
      LeadingDigitBound(s);
    }
  }
}

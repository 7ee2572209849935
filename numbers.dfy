/**
 * Decimal text and numbers: Python's `str(int)`, `int(str)`, `float(str)` and
 * `int(float)` on exact arithmetic.
 */
module Numbers {
  import opened Wrappers
  import opened Text

  predicate IsDigit(c: char) {
    '0' <= c <= '9'
  }

  predicate AllDigits(s: string) {
    forall k :: 0 <= k < |s| ==> IsDigit(s[k])
  }

  function Pow10(n: nat): (p: nat)
    ensures p >= 1
  {
    if n == 0 then 1 else 10 * Pow10(n - 1)
  }

  /** The value of a string of decimal digits, most significant first. */
  function DigitsValue(s: string): nat
    requires AllDigits(s)
  {
    if s == [] then 0 else 10 * DigitsValue(s[..|s| - 1]) + (s[|s| - 1] - '0') as nat
  }

  /** The shortest decimal rendering of a natural number, as `str(n)` prints it. */
  function NatToString(n: nat): (s: string)
    ensures |s| >= 1 && AllDigits(s)
    decreases n
  {
    if n < 10 then ['0' + n as char] else NatToString(n / 10) + ['0' + (n % 10) as char]
  }

  /** `str(i)` for an integer. */
  function IntToString(i: int): (s: string)
    ensures |s| >= 1
  {
    if i < 0 then "-" + NatToString(-i) else NatToString(i)
  }

  lemma {:induction false} NatToStringValue(n: nat)
    ensures DigitsValue(NatToString(n)) == n
    decreases n
  {
    if n >= 10 {
      NatToStringValue(n / 10);
      var s := NatToString(n);
      assert s[..|s| - 1] == NatToString(n / 10);
    }
  }

  /** Characters that Python's `strip()` would remove never occur in a rendered integer. */
  lemma IntToStringNoSpace(i: int)
    ensures forall k :: 0 <= k < |IntToString(i)| ==> IntToString(i)[k] !in Whitespace
  {
    var s := IntToString(i);
    forall k | 0 <= k < |s| ensures s[k] !in Whitespace {
      assert s[k] == '-' || IsDigit(s[k]);
    }
  }

  lemma StripRender(i: int)
    ensures Strip(IntToString(i)) == IntToString(i)
  {
    var s := IntToString(i);
    IntToStringNoSpace(i);
    assert LStrip(s, Whitespace) == s;
    assert RStrip(s, Whitespace) == s;
  }

  /** An optional leading `+` or `-`: the sign and the unsigned rest. */
  function SplitSign(t: string): (r: (int, string))
    ensures r.0 == 1 || r.0 == -1
    ensures |r.1| <= |t|
  {
    if t != [] && t[0] == '-' then (-1, t[1..])
    else if t != [] && t[0] == '+' then (1, t[1..])
    else (1, t)
  }

  /** `int(s)` for a string: optional whitespace, an optional sign and at least one decimal digit. */
  function ParseInt(s: string): (r: Option<int>)
  {
    var (sign, body) := SplitSign(Strip(s));
    if body != [] && AllDigits(body) then Some(sign * DigitsValue(body)) else None
  }

  /** `int(str(i)) == i`. */
  lemma ParseIntRender(i: int)
    ensures ParseInt(IntToString(i)) == Some(i)
  {
    var n: nat := if i < 0 then -i else i;
    var body := NatToString(n);
    StripRender(i);
    NatToStringValue(n);
    SignOfRender(i);
    assert SplitSign(Strip(IntToString(i))) == (if i < 0 then -1 else 1, body);
  }

  /** The sign split of a rendered integer gives its sign and its digits. */
  lemma SignOfRender(i: int)
    ensures SplitSign(IntToString(i)) == (if i < 0 then -1 else 1, NatToString(if i < 0 then -i else i))
  {
    var s := NatToString(if i < 0 then -i else i);
    assert IsDigit(s[0]);
    if i < 0 {
      assert IntToString(i)[1..] == s;
    }
  }

  /** A decimal mantissa: digits, optionally with one `.` and more digits, at least one digit overall. */
  function ParseMantissa(m: string): (r: Option<real>)
    ensures r.Some? ==> r.value >= 0.0
  {
    if '.' in m then
      var (ip, fp) := SplitOnce(m, '.');
      if AllDigits(ip) && AllDigits(fp) && |ip| + |fp| >= 1
      then Some(DigitsValue(ip) as real + DigitsValue(fp) as real / Pow10(|fp|) as real)
      else None
    else if m != [] && AllDigits(m) then Some(DigitsValue(m) as real)
    else None
  }

  /** Index of the first `e` or `E`, or the length when there is none. */
  function ExponentMark(t: string): (i: nat)
    ensures i <= |t|
    ensures forall k :: 0 <= k < i ==> t[k] != 'e' && t[k] != 'E'
    ensures i < |t| ==> t[i] == 'e' || t[i] == 'E'
  {
    if t == [] then 0 else if t[0] == 'e' || t[0] == 'E' then 0 else 1 + ExponentMark(t[1..])
  }

  /** `x * 10**e` for an integer exponent. */
  function Scale(x: real, e: int): real {
    if e >= 0 then x * Pow10(e) as real else x / Pow10(-e) as real
  }

  /** A mantissa with an optional exponent `e`/`E` that has an optional sign. */
  function ParseUnsignedFloat(body: string): (r: Option<real>)
    ensures r.Some? ==> r.value >= 0.0
  {
    var i := ExponentMark(body);
    var mantissa := ParseMantissa(body[..i]);
    if mantissa.None? then None
    else if i == |body| then mantissa
    else
      var (esign, edigits) := SplitSign(body[i + 1..]);
      if edigits != [] && AllDigits(edigits)
      then Some(Scale(mantissa.value, esign * DigitsValue(edigits)))
      else None
  }

  /** `float(s)` for a string: optional whitespace, an optional sign and an unsigned decimal number. */
  function ParseFloat(s: string): (r: Option<real>)
  {
    var (sign, body) := SplitSign(Strip(s));
    var u := ParseUnsignedFloat(body);
    if u.Some? then Some(sign as real * u.value) else None
  }

  /** `float(str(i)) == i`. */
  lemma ParseFloatRender(i: int)
    ensures ParseFloat(IntToString(i)) == Some(i as real)
  {
    var n: nat := if i < 0 then -i else i;
    var body := NatToString(n);
    StripRender(i);
    NatToStringValue(n);
    SignOfRender(i);
    DigitsFloat(body);
    assert SplitSign(Strip(IntToString(i))) == (if i < 0 then -1 else 1, body);
  }

  /** A plain digit string is a number without fraction and exponent. */
  lemma DigitsFloat(body: string)
    requires body != [] && AllDigits(body)
    ensures ParseUnsignedFloat(body) == Some(DigitsValue(body) as real)
  {
    assert body[..|body|] == body;
  }

  /** `int(x)` for a float: truncation toward zero. */
  function Trunc(x: real): (r: int)
    ensures x >= 0.0 ==> r == x.Floor
    ensures x < 0.0 ==> r == -((-x).Floor)
    ensures (x >= 0.0 ==> r as real <= x) && (x <= 0.0 ==> x <= r as real)
    ensures (x >= 0.0 ==> r >= 0) && (x <= 0.0 ==> r <= 0)
  {
    if x >= 0.0 then x.Floor else -((-x).Floor)
  }

  /** Truncating an integral value gives that integer back. */
  lemma TruncInt(n: int)
    ensures Trunc(n as real) == n
  {
  }

  /** Truncation keeps the integer part: the dropped part is less than one in size. */
  lemma TruncBounds(x: real)
    ensures x >= 0.0 ==> Trunc(x) as real <= x < Trunc(x) as real + 1.0
    ensures x < 0.0 ==> Trunc(x) as real - 1.0 < x <= Trunc(x) as real
  {
  }
}

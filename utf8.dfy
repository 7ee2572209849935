/**
 * UTF-8 as Python's `bytes.decode("utf-8", errors)` reads it, for the three
 * error handlers the monitor uses. An ill-formed sequence is handled one
 * maximal subpart at a time (the longest prefix of a well-formed sequence,
 * or a single byte), as section 3.9 of the Unicode Standard describes and
 * CPython does: `strict` fails, `ignore` drops it, `replace` emits U+FFFD.
 */
module Utf8 {
  import opened Wrappers

  type byte = x: int | 0 <= x < 256

  datatype ErrorHandler = Strict | Ignore | Replace

  /** How many bytes a sequence with this lead byte has; 0 when the byte cannot start one. */
  function SequenceLength(lead: byte): (n: nat)
    ensures n <= 4
  {
    if lead < 0x80 then 1
    else if 0xC2 <= lead <= 0xDF then 2
    else if 0xE0 <= lead <= 0xEF then 3
    else if 0xF0 <= lead <= 0xF4 then 4
    else 0
  }

  /** The range the second byte must lie in, which depends on the lead byte. */
  function SecondLow(lead: byte): byte {
    if lead == 0xE0 then 0xA0 else if lead == 0xF0 then 0x90 else 0x80
  }

  function SecondHigh(lead: byte): byte {
    if lead == 0xED then 0x9F else if lead == 0xF4 then 0x8F else 0xBF
  }

  predicate IsContinuation(b: byte) {
    0x80 <= b <= 0xBF
  }

  /**
   * How many bytes from the start of `s` fit a well-formed sequence: the
   * whole sequence when this equals `SequenceLength(s[0])`, the maximal
   * subpart of an ill-formed one otherwise.
   */
  function Matched(s: seq<byte>): (m: nat)
    requires s != []
    ensures m <= SequenceLength(s[0]) && m <= |s|
    ensures SequenceLength(s[0]) > 0 ==> m >= 1
  {
    var n := SequenceLength(s[0]);
    if n == 0 then 0
    else if n == 1 || |s| < 2 || !(SecondLow(s[0]) <= s[1] <= SecondHigh(s[0])) then 1
    else if n == 2 || |s| < 3 || !IsContinuation(s[2]) then 2
    else if n == 3 || |s| < 4 || !IsContinuation(s[3]) then 3
    else 4
  }

  predicate WellFormedAt(s: seq<byte>) {
    s != [] && SequenceLength(s[0]) > 0 && Matched(s) == SequenceLength(s[0])
  }

  predicate IsScalar(cp: int) {
    (0 <= cp < 0xD800) || (0xE000 <= cp < 0x11_0000)
  }

  /** The code point of the well-formed sequence at the start of `s`. */
  function CodePointAt(s: seq<byte>): (cp: int)
    requires WellFormedAt(s)
    ensures IsScalar(cp)
  {
    var n := SequenceLength(s[0]);
    var b0: int := s[0];
    if n == 1 then b0
    else
      var b1: int := s[1];
      if n == 2 then (b0 - 0xC0) * 64 + (b1 - 0x80)
      else
        var b2: int := s[2];
        if n == 3 then (b0 - 0xE0) * 4096 + (b1 - 0x80) * 64 + (b2 - 0x80)
        else
          var b3: int := s[3];
          (b0 - 0xF0) * 262144 + (b1 - 0x80) * 4096 + (b2 - 0x80) * 64 + (b3 - 0x80)
  }

  /** `bytes.decode("utf-8", errors=h)`; `None` is the UnicodeDecodeError that `strict` raises. */
  function Decode(s: seq<byte>, h: ErrorHandler): (r: Option<string>)
    ensures h != Strict ==> r.Some?
    decreases |s|
  {
    if s == [] then Some([])
    else if WellFormedAt(s) then
      var rest := Decode(s[SequenceLength(s[0])..], h);
      if rest.Some? then Some([CodePointAt(s) as char] + rest.value) else None
    else
      var skip := if Matched(s) == 0 then 1 else Matched(s);
      var rest := Decode(s[skip..], h);
      match h
      case Strict => None
      case Ignore => rest
      case Replace => Some(['\U{FFFD}'] + rest.value)
  }

  /** The UTF-8 encoding of one character. */
  function EncodeChar(c: char): (e: seq<byte>)
    ensures 1 <= |e| <= 4
  {
    var cp := c as int;
    if cp < 0x80 then [cp]
    else if cp < 0x800 then [0xC0 + cp / 64, 0x80 + cp % 64]
    else if cp < 0x10000 then [0xE0 + cp / 4096, 0x80 + (cp / 64) % 64, 0x80 + cp % 64]
    else [0xF0 + cp / 262144, 0x80 + (cp / 4096) % 64, 0x80 + (cp / 64) % 64, 0x80 + cp % 64]
  }

  /** `s.encode("utf-8")`. */
  function Encode(s: string): seq<byte> {
    if s == [] then [] else EncodeChar(s[0]) + Encode(s[1..])
  }

  /** An encoded character is one well-formed sequence that decodes back to it. */
  lemma EncodeCharDecodes(c: char, rest: seq<byte>)
    ensures WellFormedAt(EncodeChar(c) + rest)
    ensures SequenceLength((EncodeChar(c) + rest)[0]) == |EncodeChar(c)|
    ensures CodePointAt(EncodeChar(c) + rest) == c as int
  {
    var e := EncodeChar(c);
    var s := e + rest;
    var cp := c as int;
    assert forall k :: 0 <= k < |e| ==> s[k] == e[k];
    if cp < 0x80 {
    } else if cp < 0x800 {
      EncodeTwo(cp);
    } else if cp < 0x10000 {
      EncodeThree(cp);
    } else {
      EncodeFour(cp);
    }
  }

  lemma EncodeTwo(cp: int)
    requires 0x80 <= cp < 0x800
    ensures 0xC2 <= 0xC0 + cp / 64 <= 0xDF && (0xC0 + cp / 64 - 0xC0) * 64 + cp % 64 == cp
  {
  }

  lemma EncodeThree(cp: int)
    requires 0x800 <= cp < 0x10000 && IsScalar(cp)
    ensures var b0, b1 := 0xE0 + cp / 4096, 0x80 + (cp / 64) % 64;
      && 0xE0 <= b0 <= 0xEF
      && (if b0 == 0xE0 then 0xA0 else 0x80) <= b1 <= (if b0 == 0xED then 0x9F else 0xBF)
      && (b0 - 0xE0) * 4096 + (b1 - 0x80) * 64 + cp % 64 == cp
  {
  }

  lemma EncodeFour(cp: int)
    requires 0x10000 <= cp < 0x11_0000
    ensures var b0, b1, b2 := 0xF0 + cp / 262144, 0x80 + (cp / 4096) % 64, 0x80 + (cp / 64) % 64;
      && 0xF0 <= b0 <= 0xF4
      && (if b0 == 0xF0 then 0x90 else 0x80) <= b1 <= (if b0 == 0xF4 then 0x8F else 0xBF)
      && (b0 - 0xF0) * 262144 + (b1 - 0x80) * 4096 + (b2 - 0x80) * 64 + cp % 64 == cp
  {
    var hi, lo := cp / 4096, cp % 4096;
    assert cp == hi * 4096 + lo && 0 <= lo < 4096;
    assert hi / 64 == cp / 262144 && hi % 64 == (cp / 4096) % 64;
    assert lo / 64 == (cp / 64) % 64 && lo % 64 == cp % 64;
  }

  /** Decoding what was encoded gives the text back, whatever the error handler. */
  lemma {:induction false} DecodeEncode(t: string, h: ErrorHandler)
    ensures Decode(Encode(t), h) == Some(t)
  {
    if t != [] {
      var e := EncodeChar(t[0]);
      var rest := Encode(t[1..]);
      EncodeCharDecodes(t[0], rest);
      assert (e + rest)[|e|..] == rest;
      DecodeEncode(t[1..], h);
      assert t == [t[0]] + t[1..];
    }
  }

  /** Only the `strict` handler can fail, and it fails exactly when some other handler would have to drop or replace something. */
  lemma {:induction false} StrictFailsOnlyOnIllFormed(s: seq<byte>)
    ensures Decode(s, Strict).Some? ==> Decode(s, Strict) == Decode(s, Ignore) && Decode(s, Strict) == Decode(s, Replace)
    decreases |s|
  {
    if s != [] && WellFormedAt(s) {
      StrictFailsOnlyOnIllFormed(s[SequenceLength(s[0])..]);
    }
  }
}

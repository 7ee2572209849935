/**
 * Text operations of Python's `str` that the monitor relies on: whitespace
 * stripping, ASCII case mapping, `split`, `replace`, prefix tests and the
 * code-point order used by `sorted`.
 */
module Text {

  /** The characters for which Python's `str.isspace()` holds. */
  const Whitespace: set<char> := {
    '\U{9}', '\U{A}', '\U{B}', '\U{C}', '\U{D}', '\U{1C}', '\U{1D}', '\U{1E}',
    '\U{1F}', '\U{20}', '\U{85}', '\U{A0}', '\U{1680}', '\U{2000}', '\U{2001}', '\U{2002}',
    '\U{2003}', '\U{2004}', '\U{2005}', '\U{2006}', '\U{2007}', '\U{2008}', '\U{2009}', '\U{200A}',
    '\U{2028}', '\U{2029}', '\U{202F}', '\U{205F}', '\U{3000}'
  }

  /** `s.lstrip(chars)`: drops the longest prefix made of characters in `cs`. */
  function LStrip(s: string, cs: set<char>): (r: string)
    ensures |r| <= |s|
    ensures r == [] || r[0] !in cs
  {
    if s == [] || s[0] !in cs then s else LStrip(s[1..], cs)
  }

  /** What `lstrip` keeps is a suffix of its input. */
  lemma {:induction false} LStripSuffix(s: string, cs: set<char>)
    ensures LStrip(s, cs) == s[|s| - |LStrip(s, cs)|..]
  {
    if s != [] && s[0] in cs {
      LStripSuffix(s[1..], cs);
    }
  }

  /** Everything `lstrip` drops is in `cs`. */
  lemma {:induction false} LStripDrops(s: string, cs: set<char>)
    ensures forall k :: 0 <= k < |s| - |LStrip(s, cs)| ==> s[k] in cs
  {
    if s != [] && s[0] in cs {
      LStripDrops(s[1..], cs);
      forall k | 1 <= k < |s| - |LStrip(s, cs)| ensures s[k] in cs {
        assert s[k] == s[1..][k - 1];
      }
    }
  }

  /** `s.rstrip(chars)`: drops the longest suffix made of characters in `cs`. */
  function RStrip(s: string, cs: set<char>): (r: string)
    ensures |r| <= |s| && r == s[..|r|]
    ensures r == [] || r[|r| - 1] !in cs
  {
    if s == [] || s[|s| - 1] !in cs then s else RStrip(s[..|s| - 1], cs)
  }

  /** Everything `rstrip` drops is in `cs`. */
  lemma {:induction false} RStripDrops(s: string, cs: set<char>)
    ensures forall k :: |RStrip(s, cs)| <= k < |s| ==> s[k] in cs
  {
    if s != [] && s[|s| - 1] in cs {
      RStripDrops(s[..|s| - 1], cs);
      forall k | |RStrip(s, cs)| <= k < |s| - 1 ensures s[k] in cs {
        assert s[k] == s[..|s| - 1][k];
      }
    }
  }

  /** `s.strip(chars)`. */
  function StripChars(s: string, cs: set<char>): string {
    RStrip(LStrip(s, cs), cs)
  }

  /** `s.strip()`: removes leading and trailing whitespace. */
  function Strip(s: string): string {
    StripChars(s, Whitespace)
  }

  /** What `strip` keeps neither starts nor ends with a character of `cs`. */
  lemma StripCharsEnds(s: string, cs: set<char>)
    ensures var r := StripChars(s, cs);
      r == [] || (r[0] !in cs && r[|r| - 1] !in cs)
  {
    var l := LStrip(s, cs);
    var r := RStrip(l, cs);
    assert r == l[..|r|];
    if r != [] {
      assert r[0] == l[0];
    }
  }

  /** What `strip` keeps is taken from its input. */
  lemma StripCharsInside(s: string, cs: set<char>)
    ensures forall c :: c in StripChars(s, cs) ==> c in s
  {
    var l := LStrip(s, cs);
    LStripSuffix(s, cs);
    var r := RStrip(l, cs);
    forall c | c in r ensures c in s {
      var k :| 0 <= k < |r| && r[k] == c;
      assert r[k] == l[k];
      assert l[k] == s[|s| - |l| + k];
    }
  }

  /** Text that neither starts nor ends with a character of `cs` is its own strip. */
  lemma StripCharsKeeps(s: string, cs: set<char>)
    requires s == [] || (s[0] !in cs && s[|s| - 1] !in cs)
    ensures StripChars(s, cs) == s
  {
  }

  /** Stripping twice changes nothing more. */
  lemma StripCharsIdempotent(s: string, cs: set<char>)
    ensures StripChars(StripChars(s, cs), cs) == StripChars(s, cs)
  {
    var r := StripChars(s, cs);
    StripCharsEnds(s, cs);
    if r != [] {
      assert LStrip(r, cs) == r;
      assert RStrip(r, cs) == r;
    }
  }

  /** ASCII upper case to lower case; every other character is kept. */
  function LowerChar(c: char): (d: char)
    ensures !('A' <= d <= 'Z')
    ensures 'a' <= d <= 'z' ==> (c == d || c == d - 'a' + 'A')
  {
    if 'A' <= c <= 'Z' then c - 'A' + 'a' else c
  }

  /** ASCII lower case to upper case; every other character is kept. */
  function UpperChar(c: char): (d: char)
    ensures !('a' <= d <= 'z')
    ensures 'A' <= d <= 'Z' ==> (c == d || c == d - 'A' + 'a')
  {
    if 'a' <= c <= 'z' then c - 'a' + 'A' else c
  }

  /** `s.lower()`, restricted to the ASCII letters. */
  function Lower(s: string): (r: string)
    ensures |r| == |s|
    ensures forall k :: 0 <= k < |s| ==> r[k] == LowerChar(s[k])
  {
    if s == [] then [] else [LowerChar(s[0])] + Lower(s[1..])
  }

  /** `s.replace(a, b)` for single characters. */
  function ReplaceChar(s: string, a: char, b: char): (r: string)
    ensures |r| == |s|
    ensures forall k :: 0 <= k < |s| ==> r[k] == if s[k] == a then b else s[k]
  {
    if s == [] then [] else [if s[0] == a then b else s[0]] + ReplaceChar(s[1..], a, b)
  }

  /** `s.startswith(p)`. */
  predicate StartsWith(s: string, p: string) {
    |p| <= |s| && s[..|p|] == p
  }

  /** Index of the first occurrence of `c` in `s`. */
  function IndexOf(s: string, c: char): (i: nat)
    requires c in s
    ensures i < |s| && s[i] == c && c !in s[..i]
  {
    if s[0] == c then 0 else 1 + IndexOf(s[1..], c)
  }

  /** `s.split(sep)` for a one-character separator. */
  function Split(s: string, sep: char): (parts: seq<string>)
    ensures |parts| >= 1
    decreases |s|
  {
    if sep !in s then [s]
    else
      var i := IndexOf(s, sep);
      [s[..i]] + Split(s[i + 1..], sep)
  }

  /** No part of a split holds the separator. */
  lemma {:induction false} SplitParts(s: string, sep: char)
    ensures forall k :: 0 <= k < |Split(s, sep)| ==> sep !in Split(s, sep)[k]
    decreases |s|
  {
    if sep in s {
      var i := IndexOf(s, sep);
      var rest := Split(s[i + 1..], sep);
      SplitParts(s[i + 1..], sep);
      assert Split(s, sep) == [s[..i]] + rest;
      forall k | 1 <= k < |Split(s, sep)| ensures sep !in Split(s, sep)[k] {
        assert Split(s, sep)[k] == rest[k - 1];
      }
    }
  }

  /** `sep.join(parts)`. */
  function Join(parts: seq<string>, sep: char): string {
    if parts == [] then []
    else if |parts| == 1 then parts[0]
    else parts[0] + [sep] + Join(parts[1..], sep)
  }

  /** Joining a part in front of more parts puts the separator between them. */
  lemma JoinCons(part: string, rest: seq<string>, sep: char)
    requires rest != []
    ensures Join([part] + rest, sep) == part + [sep] + Join(rest, sep)
  {
    var parts := [part] + rest;
    assert parts[0] == part && parts[1..] == rest;
  }

  /** Joining a split puts the separator back after the first part. */
  lemma JoinSplitStep(s: string, sep: char)
    requires sep in s
    ensures Join(Split(s, sep), sep) == s[..IndexOf(s, sep)] + [sep] + Join(Split(s[IndexOf(s, sep) + 1..], sep), sep)
  {
    var i := IndexOf(s, sep);
    var tail := Split(s[i + 1..], sep);
    assert Split(s, sep) == [s[..i]] + tail;
    JoinCons(s[..i], tail, sep);
  }

  /** Splitting and joining back with the same separator gives the input back. */
  lemma {:induction false} JoinSplit(s: string, sep: char)
    ensures Join(Split(s, sep), sep) == s
    decreases |s|
  {
    if sep in s {
      var i := IndexOf(s, sep);
      JoinSplitStep(s, sep);
      JoinSplit(s[i + 1..], sep);
      assert s == s[..i] + [sep] + s[i + 1..];
    }
  }

  /** The parts of `s.split(sep, 1)` when `sep` occurs in `s`: the text before its first occurrence and the rest. */
  function SplitOnce(s: string, sep: char): (r: (string, string))
    requires sep in s
    ensures sep !in r.0
    ensures r.0 + [sep] + r.1 == s
  {
    var i := IndexOf(s, sep);
    assert s == s[..i] + [sep] + s[i + 1..];
    (s[..i], s[i + 1..])
  }

  /** Python's `<` on strings: code-point lexicographic order, a proper prefix first. */
  predicate StrLess(a: string, b: string) {
    if a == [] then b != []
    else if b == [] then false
    else if a[0] != b[0] then a[0] < b[0]
    else StrLess(a[1..], b[1..])
  }

  lemma {:induction false} StrLessIrreflexive(a: string)
    ensures !StrLess(a, a)
  {
    if a != [] {
      StrLessIrreflexive(a[1..]);
    }
  }

  lemma {:induction false} StrLessTransitive(a: string, b: string, c: string)
    requires StrLess(a, b) && StrLess(b, c)
    ensures StrLess(a, c)
  {
    if a != [] && b != [] && c != [] && a[0] == b[0] && b[0] == c[0] {
      StrLessTransitive(a[1..], b[1..], c[1..]);
    }
  }

  lemma {:induction false} StrLessTotal(a: string, b: string)
    ensures a == b || StrLess(a, b) || StrLess(b, a)
  {
    if a != [] && b != [] && a[0] == b[0] {
      StrLessTotal(a[1..], b[1..]);
      if a[1..] == b[1..] {
        assert a == [a[0]] + a[1..] && b == [b[0]] + b[1..];
      }
    }
  }
}

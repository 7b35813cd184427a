/**
 * The PHP string built-ins the two scripts lean on, over byte strings
 * (one `char` per byte). Only the behaviour the scripts rely on is modelled.
 */
module PhpText {

  /** PHP's `empty()` on a string: true for "" and for "0". */
  predicate PhpEmpty(s: string) {
    s == "" || s == "0"
  }

  predicate IsDigit(c: char) {
    '0' <= c <= '9'
  }

  predicate IsAsciiLetter(c: char) {
    'a' <= c <= 'z' || 'A' <= c <= 'Z'
  }

  /** ASCII lower-casing, as `strtolower` and PCRE's `/i` do in the C locale. */
  function Lower(c: char): (r: char)
    ensures IsAsciiLetter(c) ==> 'a' <= r <= 'z'
    ensures !('A' <= c <= 'Z') ==> r == c
  {
    if 'A' <= c <= 'Z' then (c as int + 32) as char else c
  }

  /** Case-insensitive equality of two byte strings. */
  predicate EqualsIgnoreCase(a: string, b: string) {
    |a| == |b| && forall i :: 0 <= i < |a| ==> Lower(a[i]) == Lower(b[i])
  }

  /** The characters `trim()` strips by default. */
  predicate IsTrimSpace(c: char) {
    c == ' ' || c == '\t' || c == '\n' || c == '\r' || c == '\0' || c == 11 as char
  }

  /** The character list '\/' given to `ltrim`/`rtrim`: backslash and slash. */
  predicate IsSlash(c: char) {
    c == '/' || c == '\\'
  }

  /** The length of the leading run of characters in `strip`. */
  function LeadLen(s: string, strip: char -> bool): (n: nat)
    ensures n <= |s|
    ensures forall i :: 0 <= i < n ==> strip(s[i])
    ensures n < |s| ==> !strip(s[n])
  {
    if s == [] || !strip(s[0]) then 0
    else
      var n := LeadLen(s[1..], strip);
      assert forall i :: 1 <= i < n + 1 ==> s[i] == s[1..][i - 1];
      n + 1
  }

  /** The length of what is left once the trailing run of characters in `strip` is cut. */
  function KeepLen(s: string, strip: char -> bool): (n: nat)
    ensures n <= |s|
    ensures forall i :: n <= i < |s| ==> strip(s[i])
    ensures n > 0 ==> !strip(s[n - 1])
  {
    if s == [] || !strip(s[|s| - 1]) then |s|
    else
      var n := KeepLen(s[..|s| - 1], strip);
      assert forall i :: n <= i < |s| - 1 ==> s[i] == s[..|s| - 1][i];
      n
  }

  /** `ltrim($s, chars)` for the set of characters `strip`. */
  function TrimLeft(s: string, strip: char -> bool): string {
    s[LeadLen(s, strip)..]
  }

  /** `rtrim($s, chars)` for the set of characters `strip`. */
  function TrimRight(s: string, strip: char -> bool): string {
    s[..KeepLen(s, strip)]
  }

  /** `ltrim(rtrim($s, chars), chars)`: strip from both ends. */
  function Trim(s: string, strip: char -> bool): string {
    TrimLeft(TrimRight(s, strip), strip)
  }

  /** Where the trimmed part of `s` starts. */
  function TrimStart(s: string, strip: char -> bool): nat {
    LeadLen(s[..KeepLen(s, strip)], strip)
  }

  /**
   * Trimming both ends leaves the slice of `s` between `TrimStart` and
   * `KeepLen`: it neither starts nor ends with a stripped character, and
   * only stripped characters lie outside it.
   */
  lemma {:induction false} TrimSplits(s: string, strip: char -> bool)
    ensures var lo := TrimStart(s, strip); var hi := KeepLen(s, strip);
      && lo <= hi <= |s| && Trim(s, strip) == s[lo..hi]
      && (forall i :: 0 <= i < lo ==> strip(s[i]))
      && (forall i :: hi <= i < |s| ==> strip(s[i]))
      && (lo < hi ==> !strip(s[lo]) && !strip(s[hi - 1]))
  {
    var hi := KeepLen(s, strip);
    var m := s[..hi];
    var lo := LeadLen(m, strip);
    assert Trim(s, strip) == m[lo..] == s[lo..hi];
    assert forall i :: 0 <= i < lo ==> s[i] == m[i];
    if lo < hi {
      assert s[lo] == m[lo];
    }
  }

  /** True when `s` contains the two-character substring `ab`. */
  predicate ContainsPair(s: string, a: char, b: char) {
    exists i :: 0 <= i < |s| - 1 && s[i] == a && s[i + 1] == b
  }

  /** `strpos($s, '..') !== false`. */
  predicate HasDotDot(s: string) {
    ContainsPair(s, '.', '.')
  }

  /** Index of the last occurrence of `c` in `s`, as `strrpos`; None when absent. */
  function LastIndexOf(s: string, c: char): (r: int)
    ensures -1 <= r < |s|
    ensures r >= 0 ==> s[r] == c && c !in s[r + 1..]
    ensures r < 0 <==> c !in s
  {
    if s == [] then -1
    else if s[|s| - 1] == c then |s| - 1
    else
      var r := LastIndexOf(s[..|s| - 1], c);
      assert s == s[..|s| - 1] + [s[|s| - 1]];
      r
  }

  /** `explode($sep, $s)`: the pieces between occurrences of `sep`. */
  function Explode(sep: char, s: string): (parts: seq<string>)
    ensures |parts| >= 1
  {
    if s == [] then [[]]
    else
      var rest := Explode(sep, s[1..]);
      if s[0] == sep then [[]] + rest
      else [[s[0]] + rest[0]] + rest[1..]
  }

  /** `implode($sep, $parts)`: the pieces joined with `sep`. */
  function Implode(sep: char, parts: seq<string>): (s: string)
  {
    if parts == [] then []
    else if |parts| == 1 then parts[0]
    else parts[0] + [sep] + Implode(sep, parts[1..])
  }

  /** `implode` undoes `explode`. */
  lemma {:induction false} ImplodeExplode(sep: char, s: string)
    ensures Implode(sep, Explode(sep, s)) == s
  {
    if s != [] {
      var rest := Explode(sep, s[1..]);
      ImplodeExplode(sep, s[1..]);
      if s[0] != sep {
        ImplodeHead(sep, s[0], rest);
      }
    }
  }

  /** Prefixing the first piece prefixes the joined string. */
  lemma {:induction false} ImplodeHead(sep: char, c: char, parts: seq<string>)
    requires |parts| >= 1
    ensures Implode(sep, [[c] + parts[0]] + parts[1..]) == [c] + Implode(sep, parts)
  {
    var ps := [[c] + parts[0]] + parts[1..];
    if |parts| == 1 {
    } else {
      assert ps[1..] == parts[1..];
    }
  }

  /** A separator splits the pieces: exploding `a + [sep] + b` explodes `a` and `b` apart. */
  lemma {:induction false} ExplodeAppend(sep: char, a: string, b: string)
    ensures Explode(sep, a + [sep] + b) == Explode(sep, a) + Explode(sep, b)
  {
    if a != [] {
      assert (a + [sep] + b)[1..] == a[1..] + [sep] + b;
      ExplodeAppend(sep, a[1..], b);
    }
  }

  /** Text without the separator explodes into itself alone. */
  lemma {:induction false} ExplodeNoSep(sep: char, s: string)
    requires sep !in s
    ensures Explode(sep, s) == [s]
  {
    if s != [] {
      ExplodeNoSep(sep, s[1..]);
      assert [s[0]] + s[1..] == s;
    }
  }

  /** Joining all but the last piece gives the text before the last separator. */
  lemma {:induction false} ExplodeLast(sep: char, s: string)
    ensures var parts := Explode(sep, s);
      var i := LastIndexOf(s, sep);
      Implode(sep, parts[..|parts| - 1]) == (if i < 0 then [] else s[..i])
      && parts[|parts| - 1] == s[i + 1..]
  {
    var i := LastIndexOf(s, sep);
    if i < 0 {
      ExplodeNoSep(sep, s);
    } else {
      assert s == s[..i] + [sep] + s[i + 1..];
      ExplodeAppend(sep, s[..i], s[i + 1..]);
      ExplodeNoSep(sep, s[i + 1..]);
      ImplodeExplode(sep, s[..i]);
      var parts := Explode(sep, s);
      assert parts[..|parts| - 1] == Explode(sep, s[..i]);
    }
  }

  /** A slice of text without ".." has no ".." either. */
  lemma {:induction false} NoDotDotInSlice(s: string, i: int, j: int)
    requires 0 <= i <= j <= |s| && !HasDotDot(s)
    ensures !HasDotDot(s[i..j])
  {
    forall k | 0 <= k < j - i - 1
      ensures !(s[i..j][k] == '.' && s[i..j][k + 1] == '.')
    {
      assert s[i..j][k] == s[i + k] && s[i..j][k + 1] == s[i + k + 1];
    }
  }

  /**
   * `preg_match('/^[set]+$/', $s)` (or `*` when `min` is 0): every character
   * is in the set; PCRE's `$` without the D modifier also matches just before
   * a final newline, so one trailing "\n" is allowed.
   */
  predicate WholeMatch(s: string, inSet: char -> bool, min: nat) {
    || (|s| >= min && forall i :: 0 <= i < |s| ==> inSet(s[i]))
    || (|s| >= min + 1 && s[|s| - 1] == '\n' && forall i :: 0 <= i < |s| - 1 ==> inSet(s[i]))
  }

  /** Every character of `t` satisfies `p`. */
  predicate AllIn(t: string, p: char -> bool) {
    forall i :: 0 <= i < |t| ==> p(t[i])
  }

  /** A slice whose characters all satisfy `p`. */
  lemma {:induction false} SliceAllIn(s: string, lo: int, hi: int, p: char -> bool)
    requires 0 <= lo <= hi <= |s|
    requires forall i :: lo <= i < hi ==> p(s[i])
    ensures AllIn(s[lo..hi], p)
  {
    var t := s[lo..hi];
    forall i | 0 <= i < |t| ensures p(t[i]) { assert t[i] == s[lo + i]; }
  }

  /** Cutting a string at two points and gluing the pieces back. */
  lemma {:induction false} ThreePieces(s: string, lo: int, hi: int)
    requires 0 <= lo <= hi <= |s|
    ensures s == s[..lo] + s[lo..hi] + s[hi..]
  {
    assert s[..hi] == s[..lo] + s[lo..hi];
    assert s == s[..hi] + s[hi..];
  }

  /** Trimming takes off only characters in the stripped set, and only at the ends. */
  lemma {:induction false} TrimAround(s: string, strip: char -> bool)
    ensures exists lead, trail :: s == lead + Trim(s, strip) + trail && AllIn(lead, strip) && AllIn(trail, strip)
  {
    TrimSplits(s, strip);
    var lo, hi := TrimStart(s, strip), KeepLen(s, strip);
    SliceAllIn(s, 0, lo, strip);
    SliceAllIn(s, hi, |s|, strip);
    ThreePieces(s, lo, hi);
    assert s[0..lo] == s[..lo] && s[hi..|s|] == s[hi..];
    var lead, trail := s[..lo], s[hi..];
    assert s == lead + Trim(s, strip) + trail && AllIn(lead, strip) && AllIn(trail, strip);
  }
}

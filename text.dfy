/**
 * Character classes and string operations shared by the Python backend and the
 * TypeScript frontend: whitespace as each language defines it, ASCII lowercasing,
 * Python's `str.strip()` and `str.split()`.
 */
module Text {
  import opened Seqs

  const IdeographicSpace: char := '\U{3000}'

  /** Python's `str.isspace()` for one character: the separators `split()` and `strip()` use. */
  predicate IsPySpace(c: char)
  {
    var n := c as int;
    (0x09 <= n <= 0x0D) || (0x1C <= n <= 0x20) || n == 0x85 || n == 0xA0 || n == 0x1680
    || (0x2000 <= n <= 0x200A) || n == 0x2028 || n == 0x2029 || n == 0x202F || n == 0x205F
    || n == 0x3000
  }

  /** The JavaScript regular-expression class `\s`. */
  predicate IsJsSpace(c: char)
  {
    var n := c as int;
    (0x09 <= n <= 0x0D) || n == 0x20 || n == 0xA0 || n == 0x1680
    || (0x2000 <= n <= 0x200A) || n == 0x2028 || n == 0x2029 || n == 0x202F || n == 0x205F
    || n == 0x3000 || n == 0xFEFF
  }

  predicate IsAsciiUpper(c: char)
  {
    'A' <= c <= 'Z'
  }

  /** Lowercasing of one character, restricted to the ASCII letters. */
  function LowerChar(c: char): (d: char)
    ensures !IsAsciiUpper(d)
    ensures IsAsciiUpper(c) ==> d as int == c as int + 32
    ensures !IsAsciiUpper(c) ==> d == c
  {
    if IsAsciiUpper(c) then (c as int + 32) as char else c
  }

  /** Character-wise lowercasing (`str.lower()`, `String.prototype.toLowerCase()`). */
  function Lower(s: string): (r: string)
    ensures |r| == |s|
    ensures forall i :: 0 <= i < |s| ==> r[i] == LowerChar(s[i])
  {
    seq(|s|, i requires 0 <= i < |s| => LowerChar(s[i]))
  }

  /** A string no character of which is an upper-case ASCII letter. */
  ghost predicate IsLower(s: string)
  {
    forall i :: 0 <= i < |s| ==> !IsAsciiUpper(s[i])
  }

  lemma LowerOfLower(s: string)
    requires IsLower(s)
    ensures Lower(s) == s
  {
  }

  /** Where `lstrip()` starts: the first index at or after `i` that is not whitespace. */
  function SkipSpaces(s: string, i: nat): (j: nat)
    requires i <= |s|
    ensures i <= j <= |s|
    ensures forall k :: i <= k < j ==> IsPySpace(s[k])
    ensures j == |s| || !IsPySpace(s[j])
    decreases |s| - i
  {
    if i < |s| && IsPySpace(s[i]) then SkipSpaces(s, i + 1) else i
  }

  /** Where `rstrip()` ends within `s[lo..hi]`: just after its last character that is not whitespace. */
  function TrimEnd(s: string, lo: nat, hi: nat): (j: nat)
    requires lo <= hi <= |s|
    ensures lo <= j <= hi
    ensures forall k :: j <= k < hi ==> IsPySpace(s[k])
    ensures j == lo || !IsPySpace(s[j - 1])
    decreases hi
  {
    if lo < hi && IsPySpace(s[hi - 1]) then TrimEnd(s, lo, hi - 1) else hi
  }

  /** Python's `str.strip()`: `rstrip()` of `lstrip()`, as one slice of the input. */
  function Strip(s: string): string
  {
    var a := SkipSpaces(s, 0);
    s[a..TrimEnd(s, a, |s|)]
  }

  /** A string with no whitespace at either end is its own strip. */
  lemma StripNoop(s: string)
    requires s == [] || (!IsPySpace(s[0]) && !IsPySpace(s[|s| - 1]))
    ensures Strip(s) == s
  {
    assert SkipSpaces(s, 0) == 0;
    assert TrimEnd(s, 0, |s|) == |s|;
  }

  /** `strip()` drops exactly the whitespace at both ends: it leaves none there and is idempotent. */
  lemma StripProperties(s: string)
    ensures var r := Strip(s);
      && (r == [] || (!IsPySpace(r[0]) && !IsPySpace(r[|r| - 1])))
      && Strip(r) == r
  {
    var a := SkipSpaces(s, 0);
    var b := TrimEnd(s, a, |s|);
    var r := s[a..b];
    if r != [] {
      assert r[0] == s[a];
      assert r[|r| - 1] == s[b - 1];
    }
    StripNoop(r);
  }

  /** Stripping a string without upper-case letters leaves none. */
  lemma StripKeepsLower(s: string)
    requires IsLower(s)
    ensures IsLower(Strip(s))
  {
    var a := SkipSpaces(s, 0);
    var r := Strip(s);
    forall i | 0 <= i < |r| ensures !IsAsciiUpper(r[i]) {
      assert r[i] == s[a + i];
    }
  }

  /** The string with every Python whitespace character removed. */
  function Squeeze(s: string): string
  {
    if s == [] then [] else (if IsPySpace(s[0]) then [] else [s[0]]) + Squeeze(s[1..])
  }

  /** The length of the leading run of non-whitespace characters. */
  function TokenLength(s: string): (n: nat)
    ensures n <= |s|
    ensures forall k :: 0 <= k < n ==> !IsPySpace(s[k])
    ensures n < |s| ==> IsPySpace(s[n])
  {
    if s == [] || IsPySpace(s[0]) then 0 else 1 + TokenLength(s[1..])
  }

  lemma {:induction false} SqueezeToken(s: string, n: nat)
    requires n <= |s|
    requires forall k :: 0 <= k < n ==> !IsPySpace(s[k])
    ensures Squeeze(s) == s[..n] + Squeeze(s[n..])
  {
    if n > 0 {
      SqueezeToken(s[1..], n - 1);
      assert s[1..][..n - 1] == s[1..n];
      assert s[1..][n - 1..] == s[n..];
      assert s[..n] == [s[0]] + s[1..n];
    }
  }

  /** Python's `str.split()` with no separator: the maximal runs of non-whitespace characters. */
  function Split(s: string): (r: seq<string>)
    ensures forall i :: 0 <= i < |r| ==> r[i] != []
    ensures forall i, k :: 0 <= i < |r| && 0 <= k < |r[i]| ==> !IsPySpace(r[i][k])
    ensures Concat(r) == Squeeze(s)
    decreases |s|
  {
    if s == [] then []
    else if IsPySpace(s[0]) then Split(s[1..])
    else
      var n := TokenLength(s);
      var rest := Split(s[n..]);
      SqueezeToken(s, n);
      TokenThenWords(s[..n], rest);
      [s[..n]] + rest
  }

  /** Putting one more token in front of a list of tokens. */
  lemma TokenThenWords(token: string, rest: seq<string>)
    requires token != [] && forall k :: 0 <= k < |token| ==> !IsPySpace(token[k])
    requires forall i :: 0 <= i < |rest| ==> rest[i] != []
    requires forall i, k :: 0 <= i < |rest| && 0 <= k < |rest[i]| ==> !IsPySpace(rest[i][k])
    ensures var r := [token] + rest;
      && (forall i :: 0 <= i < |r| ==> r[i] != [])
      && (forall i, k :: 0 <= i < |r| && 0 <= k < |r[i]| ==> !IsPySpace(r[i][k]))
      && Concat(r) == token + Concat(rest)
  {
    ConcatAppend([token], rest);
    ConcatSingle(token);
    var r := [token] + rest;
    forall i | 0 < i < |r| ensures r[i] == rest[i - 1] { }
  }

  /** `a` and `b` have whitespace at the same positions and agree everywhere else. */
  ghost predicate SameWords(a: string, b: string)
  {
    && |a| == |b|
    && (forall k :: 0 <= k < |a| ==> (IsPySpace(a[k]) <==> IsPySpace(b[k])))
    && (forall k :: 0 <= k < |a| && !IsPySpace(a[k]) ==> a[k] == b[k])
  }

  lemma {:induction false} TokenLengthSame(a: string, b: string)
    requires SameWords(a, b)
    ensures TokenLength(a) == TokenLength(b)
    decreases |a|
  {
    if a != [] && !IsPySpace(a[0]) {
      TokenLengthSame(a[1..], b[1..]);
    }
  }

  /** `split()` only looks at where the whitespace is, not at which whitespace it is. */
  lemma {:induction false} SplitSameWords(a: string, b: string)
    requires SameWords(a, b)
    ensures Split(a) == Split(b)
    decreases |a|
  {
    if a == [] {
    } else if IsPySpace(a[0]) {
      SplitSameWords(a[1..], b[1..]);
    } else {
      TokenLengthSame(a, b);
      var n := TokenLength(a);
      assert a[..n] == b[..n];
      SplitSameWords(a[n..], b[n..]);
    }
  }
}

/**
 * The few JavaScript built-ins the chat server leans on, stated over
 * Dafny strings (sequences of characters): `String.prototype.trim`,
 * `slice` with a non-negative bound and `slice` with a possibly negative
 * start, plus an Option type for the values that may be `undefined`.
 */
module Js {

  datatype Option<+T> = None | Some(value: T)

  /** `r` is `s` with some elements left out, the others in their order. */
  ghost predicate IsSubsequence<T>(r: seq<T>, s: seq<T>)
    decreases |s|
  {
    r == [] || (s != [] && ((r[0] == s[0] && IsSubsequence(r[1..], s[1..])) || IsSubsequence(r, s[1..])))
  }

  /** The characters `trim` removes: ECMAScript WhiteSpace and LineTerminator. */
  predicate IsWhitespace(c: char) {
    c == '\t' || c == '\n' || c == '\U{000B}' || c == '\U{000C}' || c == '\r' || c == ' '
    || c == '\U{00A0}' || c == '\U{1680}' || ('\U{2000}' <= c <= '\U{200A}')
    || c == '\U{2028}' || c == '\U{2029}' || c == '\U{202F}' || c == '\U{205F}'
    || c == '\U{3000}' || c == '\U{FEFF}'
  }

  predicate AllWhitespace(s: string) {
    forall k :: 0 <= k < |s| ==> IsWhitespace(s[k])
  }

  /** `s.trimStart()`: the suffix of `s` after its leading whitespace. */
  function TrimStart(s: string): (r: string)
    ensures |r| <= |s| && r == s[|s| - |r|..]
    ensures r == [] || !IsWhitespace(r[0])
    ensures AllWhitespace(s[..|s| - |r|])
  {
    if s != [] && IsWhitespace(s[0]) then TrimStart(s[1..]) else s
  }

  /** `s.trimEnd()`: the prefix of `s` before its trailing whitespace. */
  function TrimEnd(s: string): (r: string)
    ensures |r| <= |s| && r == s[..|r|]
    ensures r == [] || !IsWhitespace(r[|r| - 1])
    ensures AllWhitespace(s[|r|..])
  {
    if s != [] && IsWhitespace(s[|s| - 1]) then TrimEnd(s[..|s| - 1]) else s
  }

  /**
   * `s.trim()`: `s` without its leading and trailing whitespace.  The
   * result is the infix of `s` that starts where the leading whitespace
   * ends; what follows it is whitespace too.
   */
  function Trim(s: string): (r: string)
    ensures var i := |s| - |TrimStart(s)|;
      i + |r| <= |s| && r == s[i..i + |r|] && AllWhitespace(s[..i]) && AllWhitespace(s[i + |r|..])
    ensures r == [] || (!IsWhitespace(r[0]) && !IsWhitespace(r[|r| - 1]))
  {
    var t := TrimStart(s);
    var r := TrimEnd(t);
    TrimEndInfix(s, t, r);
    r
  }

  lemma TrimEndInfix(s: string, t: string, r: string)
    requires |t| <= |s| && t == s[|s| - |t|..]
    requires |r| <= |t| && r == t[..|r|] && AllWhitespace(t[|r|..])
    ensures var i := |s| - |t|; r == s[i..i + |r|] && AllWhitespace(s[i + |r|..])
  {
    var i := |s| - |t|;
    assert s[i + |r|..] == t[|r|..];
  }

  /** A string with no whitespace at either end is its own trim. */
  lemma {:induction false} TrimOfTrimmed(s: string)
    requires s == [] || (!IsWhitespace(s[0]) && !IsWhitespace(s[|s| - 1]))
    ensures Trim(s) == s
  {
    assert TrimStart(s) == s;
    assert TrimEnd(s) == s;
  }

  /** A string made only of whitespace trims to the empty string. */
  lemma TrimOfWhitespace(s: string)
    requires AllWhitespace(s)
    ensures Trim(s) == []
  {
  }

  /** Only whitespace-only strings trim to the empty string. */
  lemma {:induction false} TrimEmptyOnlyForWhitespace(s: string)
    requires Trim(s) == []
    ensures AllWhitespace(s)
  {
    var i := |s| - |TrimStart(s)|;
    forall k | 0 <= k < |s| ensures IsWhitespace(s[k]) {
      if k < i { assert s[k] == s[..i][k]; } else { assert s[k] == s[i..][k - i]; }
    }
  }

  /** `s.slice(0, n)` for `n >= 0`: at most the first `n` characters. */
  function Take(s: string, n: nat): (r: string)
    ensures |r| == if |s| <= n then |s| else n
    ensures r == s[..|r|]
  {
    if |s| <= n then s else s[..n]
  }

  /**
   * `s.slice(start)` on an array: a negative `start` counts from the end
   * and is clamped at the beginning; a non-negative one is clamped at the end.
   */
  function SliceFrom<T>(s: seq<T>, start: int): (r: seq<T>)
    ensures |r| <= |s| && r == s[|s| - |r|..]
    ensures start < 0 ==> |r| == if -start < |s| then -start else |s|
    ensures start >= 0 ==> |r| == if start < |s| then |s| - start else 0
  {
    var from := if start < 0 then (if |s| + start < 0 then 0 else |s| + start)
                else (if start < |s| then start else |s|);
    s[from..]
  }
}

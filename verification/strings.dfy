/**
 The string primitives the recipe parser relies on: the JavaScript whitespace
 set, `String.prototype.trim`, `startsWith` and the one-argument `substring`.
 Strings are sequences of characters; every character used by the parser's
 markers lies in the Basic Multilingual Plane, so one `char` stands for one
 UTF-16 code unit of a JavaScript string.
 */
module Strings {

  /** The characters JavaScript's `trim` removes and the regular-expression
      class `\s` matches: the WhiteSpace and LineTerminator code points of
      ECMAScript (tab, line tabulation, form feed, ZWNBSP, the space
      separators of Unicode category Zs, LF, CR, LS and PS). */
  predicate IsSpace(c: char)
  {
    || c == '\t' || c == '\n' || c == '\U{000B}' || c == '\U{000C}' || c == '\r'
    || c == ' ' || c == '\U{00A0}' || c == '\U{1680}'
    || ('\U{2000}' <= c <= '\U{200A}')
    || c == '\U{2028}' || c == '\U{2029}' || c == '\U{202F}' || c == '\U{205F}'
    || c == '\U{3000}' || c == '\U{FEFF}'
  }

  /** Every character of `s` is whitespace (vacuously true of the empty string). */
  predicate AllSpace(s: string)
  {
    forall i :: 0 <= i < |s| ==> IsSpace(s[i])
  }

  /** `s` is empty, or begins and ends with a non-whitespace character. */
  predicate IsTrimmed(s: string)
  {
    s == [] || (!IsSpace(s[0]) && !IsSpace(s[|s| - 1]))
  }

  /** JavaScript's `trim`: whitespace is removed from both ends, one character
      at a time. The result begins and ends with a non-whitespace character,
      and it is empty exactly when `s` is all whitespace. */
  function Trim(s: string): (r: string)
    decreases |s|
    ensures |r| <= |s|
    ensures IsTrimmed(r)
    ensures r == [] <==> AllSpace(s)
  {
    if |s| > 0 && IsSpace(s[0]) then
      var r := Trim(s[1..]);
      assert AllSpace(s) <==> AllSpace(s[1..]) by {
        assert forall i :: 0 < i < |s| ==> s[i] == s[1..][i - 1];
      }
      r
    else if |s| > 0 && IsSpace(s[|s| - 1]) then
      var r := Trim(s[..|s| - 1]);
      assert AllSpace(s) <==> AllSpace(s[..|s| - 1]) by {
        assert forall i :: 0 <= i < |s| - 1 ==> s[i] == s[..|s| - 1][i];
      }
      r
    else
      assert s != [] ==> !AllSpace(s) by {
        if s != [] {
          assert !IsSpace(s[0]);
        }
      }
      s
  }

  /** `r` is the infix of `s` that starts at index `i`, and everything
      before and after it in `s` is whitespace. */
  predicate IsPaddedInfix(s: string, r: string, i: nat)
  {
    && i + |r| <= |s|
    && (forall k :: 0 <= k < |r| ==> r[k] == s[i + k])
    && (forall k :: 0 <= k < i ==> IsSpace(s[k]))
    && (forall k :: i + |r| <= k < |s| ==> IsSpace(s[k]))
  }

  /** What `Trim` removes is whitespace: its result is the infix of `s` that
      starts at index `i`, and everything before and after that infix is
      whitespace. */
  lemma {:induction false} TrimIsInfix(s: string) returns (i: nat)
    decreases |s|
    ensures IsPaddedInfix(s, Trim(s), i)
  {
    if |s| > 0 && IsSpace(s[0]) {
      var j := TrimIsInfix(s[1..]);
      PaddedInfixFront(s, Trim(s[1..]), j);
      i := j + 1;
    } else if |s| > 0 && IsSpace(s[|s| - 1]) {
      i := TrimIsInfix(s[..|s| - 1]);
      PaddedInfixBack(s, Trim(s[..|s| - 1]), i);
    } else {
      i := 0;
    }
  }

  /** A padded infix of `s` without its leading whitespace character is one
      of `s` itself, one position further on. */
  lemma PaddedInfixFront(s: string, r: string, j: nat)
    requires |s| > 0 && IsSpace(s[0])
    requires IsPaddedInfix(s[1..], r, j)
    ensures IsPaddedInfix(s, r, j + 1)
  {
    forall k | 0 < k < |s| ensures s[k] == s[1..][k - 1] {
    }
  }

  /** A padded infix of `s` without its trailing whitespace character is one
      of `s` itself. */
  lemma PaddedInfixBack(s: string, r: string, i: nat)
    requires |s| > 0 && IsSpace(s[|s| - 1])
    requires IsPaddedInfix(s[..|s| - 1], r, i)
    ensures IsPaddedInfix(s, r, i)
  {
    forall k | 0 <= k < |s| - 1 ensures s[k] == s[..|s| - 1][k] {
    }
  }

  /** A string that is already trimmed is left unchanged, so trimming is idempotent. */
  lemma TrimOfTrimmed(s: string)
    requires IsTrimmed(s)
    ensures Trim(s) == s
  {
  }

  /** `s.startsWith(p)`. */
  predicate StartsWith(s: string, p: string)
  {
    |p| <= |s| && s[..|p|] == p
  }

  /** `s.substring(k)` with one argument: the characters from index `k` on,
      or the empty string when `s` has no more than `k` characters. */
  function Drop(s: string, k: nat): (r: string)
    ensures |r| == if k <= |s| then |s| - k else 0
    ensures s == s[..|s| - |r|] + r
  {
    if k <= |s| then s[k..] else []
  }
}

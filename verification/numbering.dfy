/**
 The two regular expressions the parser applies to instruction lines:
 the test of `^\d+\.` and the replacement of the match of `^\d+\.\s*` by the
 empty string.
 `\d` is the ASCII digit class and `\s` the whitespace set of `Strings.IsSpace`.
 */
module Numbering {
  import opened Strings

  predicate IsDigit(c: char)
  {
    '0' <= c <= '9'
  }

  predicate AllDigits(s: string)
  {
    forall i :: 0 <= i < |s| ==> IsDigit(s[i])
  }

  /** The length of the longest run of digits at the start of `s`. */
  function LeadingDigits(s: string): (n: nat)
    ensures n <= |s| && AllDigits(s[..n])
    ensures n == |s| || !IsDigit(s[n])
  {
    if |s| > 0 && IsDigit(s[0]) then
      var n := 1 + LeadingDigits(s[1..]);
      assert s[..n] == [s[0]] + s[1..][..n - 1];
      n
    else
      0
  }

  /** The length of the longest run of whitespace at the start of `s`. */
  function LeadingSpaces(s: string): (n: nat)
    ensures n <= |s| && AllSpace(s[..n])
    ensures n == |s| || !IsSpace(s[n])
  {
    if |s| > 0 && IsSpace(s[0]) then
      var n := 1 + LeadingSpaces(s[1..]);
      assert s[..n] == [s[0]] + s[1..][..n - 1];
      n
    else
      0
  }

  /** The regular-expression test of `^\d+\.` on `line`, computed by measuring the digit run. */
  predicate IsNumbered(line: string)
  {
    var n := LeadingDigits(line);
    0 < n < |line| && line[n] == '.'
  }

  /** `IsNumbered` is the regular expression: some non-empty run of digits at
      the start is followed by a period. Greedy and backtracking matching
      agree here because a period is not a digit. */
  lemma NumberedIffPattern(line: string)
    ensures IsNumbered(line) <==> exists k :: 0 < k < |line| && AllDigits(line[..k]) && line[k] == '.'
  {
    var n := LeadingDigits(line);
    if IsNumbered(line) {
      assert 0 < n < |line| && AllDigits(line[..n]) && line[n] == '.';
    }
    forall k | 0 < k < |line| && AllDigits(line[..k]) && line[k] == '.' ensures IsNumbered(line) {
      assert n >= k by {
        assert AllDigits(line[..k]);
      }
    }
  }

  /** The length of the prefix `^\d+\.\s*` matches, or 0 when it does not match. */
  function NumberPrefixLength(line: string): (n: nat)
    ensures n <= |line|
  {
    if IsNumbered(line) then
      var d := LeadingDigits(line) + 1;
      d + LeadingSpaces(line[d..])
    else
      0
  }

  /** `line.replace` of the pattern `^\d+\.\s*` by the empty string.
      Without a match the line is unchanged; with one, the line is its digits, a period, a whitespace run and the
      result, and the result does not start with whitespace. */
  function StripNumberPrefix(line: string): (r: string)
    ensures !IsNumbered(line) ==> r == line
    ensures IsNumbered(line) ==>
      exists w :: AllSpace(w) && line == line[..LeadingDigits(line)] + "." + w + r
    ensures IsNumbered(line) ==> r == [] || !IsSpace(r[0])
  {
    if IsNumbered(line) then
      NumberPrefixParts(line);
      line[NumberPrefixLength(line)..]
    else
      line
  }

  /** A matched prefix is the digits, the period and a whitespace run, and
      what follows it does not start with whitespace. */
  lemma NumberPrefixParts(line: string)
    requires IsNumbered(line)
    ensures var d := LeadingDigits(line); var n := NumberPrefixLength(line);
      && d + 1 <= n
      && AllSpace(line[d + 1..n])
      && line == line[..d] + "." + line[d + 1..n] + line[n..]
      && (line[n..] == [] || !IsSpace(line[n..][0]))
  {
    var d := LeadingDigits(line);
    var n := NumberPrefixLength(line);
    var tail := line[d + 1..];
    var m := LeadingSpaces(tail);
    assert line[d + 1..n] == tail[..m];
    assert line[n..] == tail[m..];
    assert line == line[..d] + "." + line[d + 1..n] + line[n..];
  }
}

/**
 JavaScript's `String.prototype.split` with a non-empty string separator:
 the text is cut at every occurrence of the separator found by a left-to-right
 search that resumes just after the previous occurrence, so occurrences never
 overlap and the result always has at least one piece.
 */
module Splitting {

  datatype Option<T> = None | Some(value: T)

  /** `sep` occurs in `s` starting at index `k`. */
  predicate OccursAt(s: string, sep: string, k: nat)
  {
    k + |sep| <= |s| && MatchesFrom(s, sep, k, 0)
  }

  /** The characters of `sep` from index `j` on match those of `s` from
      index `k + j` on, compared one at a time. */
  predicate MatchesFrom(s: string, sep: string, k: nat, j: nat)
    requires k + |sep| <= |s|
    decreases |sep| - j
  {
    j >= |sep| || (s[k + j] == sep[j] && MatchesFrom(s, sep, k, j + 1))
  }

  /** The recursive comparison is the elementwise one. */
  lemma {:induction false} MatchesFromIff(s: string, sep: string, k: nat, j: nat)
    requires k + |sep| <= |s|
    decreases |sep| - j
    ensures MatchesFrom(s, sep, k, j) <==> forall i :: j <= i < |sep| ==> s[k + i] == sep[i]
  {
    if j < |sep| {
      MatchesFromIff(s, sep, k, j + 1);
    }
  }

  /** An occurrence is a position where every character of `sep` matches. */
  lemma OccursAtIff(s: string, sep: string, k: nat)
    requires k + |sep| <= |s|
    ensures OccursAt(s, sep, k) <==> forall i :: 0 <= i < |sep| ==> s[k + i] == sep[i]
  {
    MatchesFromIff(s, sep, k, 0);
  }

  /** `sep` occurs somewhere in `s`. */
  predicate Contains(s: string, sep: string)
  {
    exists k: nat | k <= |s| :: OccursAt(s, sep, k)
  }

  /** The first occurrence of `sep` in `s` at or after index `from`. */
  function FindFrom(s: string, sep: string, from: nat): (r: Option<nat>)
    decreases |s| - from
    ensures r.Some? ==> from <= r.value && OccursAt(s, sep, r.value)
    ensures r.Some? ==> forall k: nat :: from <= k < r.value ==> !OccursAt(s, sep, k)
    ensures r.None? ==> forall k: nat :: from <= k ==> !OccursAt(s, sep, k)
  {
    if from + |sep| > |s| then None
    else if OccursAt(s, sep, from) then Some(from)
    else FindFrom(s, sep, from + 1)
  }

  /** The first occurrence of `sep` in `s`, if any. */
  function Find(s: string, sep: string): (r: Option<nat>)
    ensures r.Some? ==> OccursAt(s, sep, r.value)
    ensures r.Some? ==> forall k: nat :: k < r.value ==> !OccursAt(s, sep, k)
    ensures r.None? <==> !Contains(s, sep)
  {
    FindFrom(s, sep, 0)
  }

  /** Any index that is an occurrence with none before it is what `Find` returns. */
  lemma FindIsFirst(s: string, sep: string, k: nat)
    requires OccursAt(s, sep, k)
    requires forall m: nat :: m < k ==> !OccursAt(s, sep, m)
    ensures Find(s, sep) == Some(k)
  {
  }

  /** Glues `pieces` back together with `sep` between consecutive pieces. */
  function Join(pieces: seq<string>, sep: string): string
  {
    if |pieces| == 0 then []
    else if |pieces| == 1 then pieces[0]
    else pieces[0] + sep + Join(pieces[1..], sep)
  }

  /** `s.split(sep)`: the pieces between occurrences of `sep`, found left to
      right. There is always at least one piece, and a text without `sep` is
      a single piece. */
  function Split(s: string, sep: string): (r: seq<string>)
    requires |sep| > 0
    decreases |s|
    ensures |r| >= 1
    ensures !Contains(s, sep) ==> r == [s]
  {
    match Find(s, sep)
    case None => [s]
    case Some(k) => [s[..k]] + Split(s[k + |sep|..], sep)
  }

  /** Cutting `s` around an occurrence of `sep` at `k` and gluing the parts
      back together with `sep` gives `s`. */
  lemma CutAround(s: string, sep: string, k: nat)
    requires OccursAt(s, sep, k)
    ensures s == s[..k] + sep + s[k + |sep|..]
  {
    var g := s[..k] + sep + s[k + |sep|..];
    OccursAtIff(s, sep, k);
    assert |g| == |s|;
    forall i | 0 <= i < |s| ensures g[i] == s[i] {
      if k <= i < k + |sep| {
        assert g[i] == sep[i - k];
      }
    }
  }

  /** Joining the pieces with `sep` gives the text back. */
  lemma {:induction false} SplitJoin(s: string, sep: string)
    requires |sep| > 0
    decreases |s|
    ensures Join(Split(s, sep), sep) == s
  {
    match Find(s, sep)
    case None =>
    case Some(k) =>
      var rest := Split(s[k + |sep|..], sep);
      var pieces := Split(s, sep);
      SplitJoin(s[k + |sep|..], sep);
      assert pieces == [s[..k]] + rest;
      assert pieces[1..] == rest;
      assert Join(pieces, sep) == s[..k] + sep + Join(rest, sep);
      CutAround(s, sep, k);
  }

  /** The text before the first occurrence of `sep` does not contain `sep`. */
  lemma PrefixBeforeFirstLacksSeparator(s: string, sep: string, k: nat)
    requires |sep| > 0 && k <= |s|
    requires forall m: nat :: m < k ==> !OccursAt(s, sep, m)
    ensures !Contains(s[..k], sep)
  {
    var head := s[..k];
    forall m: nat | m <= |head| ensures !OccursAt(head, sep, m) {
      if m + |sep| <= |head| {
        assert !OccursAt(s, sep, m);
        OccursAtIff(s, sep, m);
        OccursAtIff(head, sep, m);
        var j :| 0 <= j < |sep| && s[m + j] != sep[j];
        assert head[m + j] == s[m + j];
      }
    }
  }

  /** No piece contains `sep`: every occurrence left in a piece would have
      been found by the left-to-right search and cut there. */
  lemma {:induction false} SplitPiecesLackSeparator(s: string, sep: string)
    requires |sep| > 0
    decreases |s|
    ensures forall i :: 0 <= i < |Split(s, sep)| ==> !Contains(Split(s, sep)[i], sep)
  {
    match Find(s, sep)
    case None =>
    case Some(k) =>
      SplitPiecesLackSeparator(s[k + |sep|..], sep);
      PiecesLackSeparatorStep(s, sep, k);
  }

  /** The inductive step of `SplitPiecesLackSeparator`: the first piece lies
      before the first occurrence, and the others are pieces of the text
      after it. */
  lemma PiecesLackSeparatorStep(s: string, sep: string, k: nat)
    requires |sep| > 0
    requires Find(s, sep) == Some(k)
    requires var rest := Split(s[k + |sep|..], sep);
      forall i :: 0 <= i < |rest| ==> !Contains(rest[i], sep)
    ensures forall i :: 0 <= i < |Split(s, sep)| ==> !Contains(Split(s, sep)[i], sep)
  {
    var rest := Split(s[k + |sep|..], sep);
    var pieces := Split(s, sep);
    SplitStep(s, sep, k);
    forall i | 0 <= i < |pieces| ensures !Contains(pieces[i], sep) {
      if i == 0 {
        PrefixBeforeFirstLacksSeparator(s, sep, k);
      } else {
        assert pieces[i] == rest[i - 1];
      }
    }
  }

  /** The last `k` characters of `a` are the first `k` of `sep`. */
  predicate EndsWithPrefix(a: string, sep: string, k: nat)
    requires k <= |a| && k <= |sep|
  {
    forall j :: 0 <= j < k ==> a[|a| - k + j] == sep[j]
  }

  /** No non-empty proper prefix of `sep` is a suffix of `a`: an occurrence of
      `sep` cannot straddle the end of `a`. */
  predicate NoStraddle(a: string, sep: string)
  {
    forall k :: 0 < k < |sep| && k <= |a| ==> !EndsWithPrefix(a, sep, k)
  }

  /** With no straddling occurrence, the first occurrence in `a + sep + b`
      is the first one inside `a`, or else the inserted `sep`. */
  lemma FindAppend(a: string, sep: string, b: string)
    requires |sep| > 0
    requires NoStraddle(a, sep)
    ensures Find(a + sep + b, sep) == if Find(a, sep).Some? then Find(a, sep) else Some(|a|)
  {
    var t := a + sep + b;
    var i := match Find(a, sep) case Some(k) => k case None => |a|;
    assert OccursAt(t, sep, i) by {
      if i < |a| {
        OccursAtIff(a, sep, i);
      }
      forall j | 0 <= j < |sep| ensures t[i + j] == sep[j] {
        if i < |a| {
          assert t[i + j] == a[i + j];
        }
      }
      OccursAtIff(t, sep, i);
    }
    forall m: nat | m < i ensures !OccursAt(t, sep, m) {
      if m + |sep| > |t| {
      } else if m + |sep| <= |a| {
        assert !OccursAt(a, sep, m);
        OccursAtIff(a, sep, m);
        OccursAtIff(t, sep, m);
        var j :| 0 <= j < |sep| && a[m + j] != sep[j];
        assert t[m + j] == a[m + j];
      } else {
        OccursAtIff(t, sep, m);
        var k := |a| - m;
        assert 0 < k < |sep|;
        assert !EndsWithPrefix(a, sep, k);
        var j :| 0 <= j < k && a[|a| - k + j] != sep[j];
        assert t[m + j] == a[m + j];
      }
    }
    FindIsFirst(t, sep, i);
  }

  /** One step of `Split`: the piece before the first occurrence, then the
      pieces of what follows it. */
  lemma SplitStep(s: string, sep: string, k: nat)
    requires |sep| > 0
    requires Find(s, sep) == Some(k)
    ensures Split(s, sep) == [s[..k]] + Split(s[k + |sep|..], sep)
  {
  }

  /** A suffix of a text without a straddling occurrence has none either. */
  lemma NoStraddleSuffix(a: string, sep: string, j: nat)
    requires j <= |a|
    requires NoStraddle(a, sep)
    ensures NoStraddle(a[j..], sep)
  {
    var a' := a[j..];
    forall k | 0 < k < |sep| && k <= |a'| ensures !EndsWithPrefix(a', sep, k) {
      assert !EndsWithPrefix(a, sep, k);
      var i :| 0 <= i < k && a[|a| - k + i] != sep[i];
      assert a'[|a'| - k + i] == a[|a| - k + i];
    }
  }

  /** The slices of `a + sep + b` that splitting it takes at a cut inside
      `a`: the text before the cut, and the text after it. */
  lemma SlicesOfAppend(a: string, sep: string, b: string, k: nat)
    requires |sep| > 0 && k + |sep| <= |a|
    ensures (a + sep + b)[..k] == a[..k]
    ensures (a + sep + b)[k + |sep|..] == a[k + |sep|..] + sep + b
  {
  }

  /** The two slices of `a + sep + b` around the inserted `sep`. */
  lemma EndsOfAppend(a: string, sep: string, b: string)
    requires |sep| > 0
    ensures (a + sep + b)[..|a|] == a
    ensures (a + sep + b)[|a| + |sep|..] == b
  {
  }


  /** `SplitAppend` when `a` holds no occurrence: the inserted `sep` is the
      first one, so `a` is the first piece. */
  lemma SplitAppendAtSeparator(a: string, sep: string, b: string)
    requires |sep| > 0
    requires NoStraddle(a, sep)
    requires Find(a, sep).None?
    ensures Split(a + sep + b, sep) == Split(a, sep) + Split(b, sep)
  {
    FindAppend(a, sep, b);
    SplitStep(a + sep + b, sep, |a|);
    EndsOfAppend(a, sep, b);
  }

  /** When the first occurrence in `a` is at `k`, splitting `a + sep + b`
      starts with the piece of `a` before it and continues with the text
      after it. */
  lemma SplitAppendFirstPiece(a: string, sep: string, b: string, k: nat)
    requires |sep| > 0
    requires NoStraddle(a, sep)
    requires Find(a, sep) == Some(k)
    ensures Split(a + sep + b, sep) == [a[..k]] + Split(a[k + |sep|..] + sep + b, sep)
  {
    FindAppend(a, sep, b);
    SlicesOfAppend(a, sep, b, k);
    SplitStep(a + sep + b, sep, k);
  }

  /** `SplitAppend` when the first occurrence lies inside `a`, at `k`: both
      splits start with the piece before it, and the rest follows from the
      same property of the text after it. */
  lemma SplitAppendInside(a: string, sep: string, b: string, k: nat)
    requires |sep| > 0
    requires NoStraddle(a, sep)
    requires Find(a, sep) == Some(k)
    requires Split(a[k + |sep|..] + sep + b, sep) == Split(a[k + |sep|..], sep) + Split(b, sep)
    ensures Split(a + sep + b, sep) == Split(a, sep) + Split(b, sep)
  {
    var rest := a[k + |sep|..];
    SplitAppendFirstPiece(a, sep, b, k);
    SplitStep(a, sep, k);
    ConsThenAppend(Split(a + sep + b, sep), Split(a, sep), Split(b, sep), Split(rest, sep),
      Split(rest + sep + b, sep), a[..k]);
  }

  /** Two lists that start with the same piece `h`, continuing with `more`
      and with `rest` where `more == rest + tail`, differ by `tail`. */
  lemma ConsThenAppend(whole: seq<string>, left: seq<string>, tail: seq<string>,
                       rest: seq<string>, more: seq<string>, h: string)
    requires whole == [h] + more
    requires left == [h] + rest
    requires more == rest + tail
    ensures whole == left + tail
  {
  }

  /** When no occurrence can straddle the end of `a`, splitting `a + sep + b`
      cuts exactly at the inserted `sep`, and each side splits on its own. */
  lemma {:induction false} SplitAppend(a: string, sep: string, b: string)
    requires |sep| > 0
    requires NoStraddle(a, sep)
    ensures Split(a + sep + b, sep) == Split(a, sep) + Split(b, sep)
    decreases |a|
  {
    match Find(a, sep)
    case None =>
      SplitAppendAtSeparator(a, sep, b);
    case Some(k) =>
      NoStraddleSuffix(a, sep, k + |sep|);
      SplitAppend(a[k + |sep|..], sep, b);
      SplitAppendInside(a, sep, b, k);
  }
}

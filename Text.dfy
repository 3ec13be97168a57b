/**
  String primitives behind the regular expressions of the feed parsers: a
  literal occurrence test, the leftmost occurrence at or after a position (what a
  regular expression's scan does for a literal), and `String.prototype.trim`.
*/
module Text {
  import opened Wrappers

  /** `p` occurs in `s` starting at index `i`. */
  predicate OccursAt(s: string, p: string, i: nat) {
    i + |p| <= |s| && s[i..i + |p|] == p
  }

  predicate StartsWith(s: string, p: string) {
    OccursAt(s, p, 0)
  }

  ghost predicate Contains(s: string, p: string) {
    exists i: nat :: OccursAt(s, p, i)
  }

  /** The leftmost occurrence of `p` in `s` at or after `from` (`FindSound` states
      that it is one and that it is the leftmost). */
  function Find(s: string, p: string, from: nat): (r: Option<nat>)
    ensures r.Some? ==> from <= r.value && r.value + |p| <= |s|
    decreases |s| - from
  {
    if from + |p| > |s| then None
    else if OccursAt(s, p, from) then Some(from)
    else Find(s, p, from + 1)
  }

  /** `Find` answers with an occurrence, the leftmost one, and answers `None` only
      when there is no occurrence at or after `from`. */
  lemma {:induction false} FindSound(s: string, p: string, from: nat)
    ensures Find(s, p, from).Some? ==> OccursAt(s, p, Find(s, p, from).value)
    ensures Find(s, p, from).Some? ==> forall j: nat :: from <= j < Find(s, p, from).value ==> !OccursAt(s, p, j)
    ensures Find(s, p, from).None? ==> forall j: nat :: from <= j ==> !OccursAt(s, p, j)
    decreases |s| - from
  {
    if from + |p| <= |s| && !OccursAt(s, p, from) {
      FindSound(s, p, from + 1);
    }
  }

  lemma FindFirst(s: string, p: string, from: nat)
    requires OccursAt(s, p, from)
    ensures Find(s, p, from) == Some(from)
  {
  }

  /** Skipping positions where `p` does not occur does not change the answer. */
  lemma {:induction false} FindSkip(s: string, p: string, from: nat, upto: nat)
    requires from <= upto
    requires forall j: nat :: from <= j < upto ==> !OccursAt(s, p, j)
    ensures Find(s, p, from) == Find(s, p, upto)
    decreases upto - from
  {
    if from < upto && from + |p| <= |s| {
      FindSkip(s, p, from + 1, upto);
    } else if from < upto {
      var a, b := Find(s, p, from), Find(s, p, upto);
      assert a.None?;
      assert b.None?;
    }
  }

  /** The first occurrence at or after `from` is at `at`. */
  lemma FindAt(s: string, p: string, from: nat, at: nat)
    requires from <= at && OccursAt(s, p, at)
    requires forall j: nat :: from <= j < at ==> !OccursAt(s, p, j)
    ensures Find(s, p, from) == Some(at)
  {
    FindSkip(s, p, from, at);
  }

  /** An occurrence in `s` at or after `n` is an occurrence in the suffix `s[n..]`. */
  lemma {:induction false} OccursAtSuffix(s: string, n: nat, b: string, p: string, k: nat)
    requires n <= |s| && s[n..] == b
    ensures OccursAt(s, p, n + k) <==> OccursAt(b, p, k)
  {
    if k + |p| <= |b| {
      var x, y := s[n + k..n + k + |p|], b[k..k + |p|];
      forall t | 0 <= t < |p|
        ensures x[t] == y[t]
      {
        assert b[k + t] == s[n..][k + t] == s[n + k + t];
      }
      assert x == y;
    }
  }

  /** Searching `s` from inside its suffix `s[n..]` is searching the suffix. */
  lemma {:induction false} FindSuffix(s: string, n: nat, b: string, p: string, k: nat)
    requires n <= |s| && s[n..] == b
    ensures Find(b, p, k).None? ==> Find(s, p, n + k).None?
    ensures Find(b, p, k).Some? ==> Find(s, p, n + k) == Some(n + Find(b, p, k).value)
    decreases |b| - k
  {
    OccursAtSuffix(s, n, b, p, k);
    if k + |p| <= |b| && !OccursAt(b, p, k) {
      FindSuffix(s, n, b, p, k + 1);
    }
  }

  /** A piece of an occurrence is an occurrence. */
  lemma Piece(s: string, u: string, n: nat, a: nat, b: nat)
    requires OccursAt(s, u, n) && a <= b <= |u|
    ensures OccursAt(s, u[a..b], n + a)
  {
    var x, y := s[n + a..n + b], u[a..b];
    forall k | 0 <= k < |y|
      ensures x[k] == y[k]
    {
      assert s[n..n + |u|][a + k] == s[n + a + k];
    }
    assert x == y;
  }

  /** An occurrence of `a + b` is an occurrence of `a` followed by one of `b`. */
  lemma OccursSplit(s: string, a: string, b: string, n: nat)
    requires OccursAt(s, a + b, n)
    ensures OccursAt(s, a, n) && OccursAt(s, b, n + |a|)
  {
    Piece(s, a + b, n, 0, |a|);
    assert (a + b)[0..|a|] == a;
    Piece(s, a + b, n, |a|, |a + b|);
    assert (a + b)[|a|..|a + b|] == b;
  }

  /** An occurrence of `p` is an occurrence of its first `k` characters. */
  lemma OccursHead(s: string, p: string, i: nat, k: nat)
    requires k <= |p|
    ensures OccursAt(s, p, i) ==> OccursAt(s, p[..k], i)
  {
    if OccursAt(s, p, i) {
      Piece(s, p, i, 0, k);
    }
  }

  /** An occurrence of `p` at `i` puts `p[t]` at `i + t`. */
  lemma OccursChar(s: string, p: string, i: nat, t: nat)
    requires t < |p|
    ensures OccursAt(s, p, i) ==> s[i + t] == p[t]
  {
    if OccursAt(s, p, i) {
      assert s[i..i + |p|][t] == s[i + t];
    }
  }

  /** Occurrences inside a prefix are occurrences of the whole. */
  lemma OccursAtPrefix(a: string, b: string, p: string, i: nat)
    requires OccursAt(a, p, i)
    ensures OccursAt(a + b, p, i)
  {
    assert (a + b)[i..i + |p|] == a[i..i + |p|];
  }

  /** White space and line terminators as JavaScript's `trim` and `\s` know them. */
  predicate IsSpace(c: char) {
    c == '\t' || c == '\n' || c == '\U{B}' || c == '\U{C}' || c == '\r' || c == ' ' ||
    c == '\U{A0}' || c == '\U{1680}' || ('\U{2000}' <= c <= '\U{200A}') ||
    c == '\U{2028}' || c == '\U{2029}' || c == '\U{202F}' || c == '\U{205F}' || c == '\U{3000}' ||
    c == '\U{FEFF}'
  }

  predicate AllSpace(s: string) {
    forall k :: 0 <= k < |s| ==> IsSpace(s[k])
  }

  /** Leading white space removed (`TrimStartLaws`). */
  function TrimStart(s: string): (r: string)
    ensures |r| <= |s|
  {
    if s != [] && IsSpace(s[0]) then TrimStart(s[1..]) else s
  }

  /** Trailing white space removed (`TrimEndLaws`). */
  function TrimEnd(s: string): (r: string)
    ensures |r| <= |s|
  {
    if s != [] && IsSpace(s[|s| - 1]) then TrimEnd(s[..|s| - 1]) else s
  }

  /** `TrimStart` drops the longest all-space prefix and nothing else. */
  lemma {:induction false} TrimStartLaws(s: string)
    ensures var r := TrimStart(s); r == s[|s| - |r|..] && AllSpace(s[..|s| - |r|])
    ensures var r := TrimStart(s); r != [] ==> !IsSpace(r[0])
    decreases |s|
  {
    if s != [] && IsSpace(s[0]) {
      TrimStartLaws(s[1..]);
      var r := TrimStart(s);
      assert s[1..][|s| - 1 - |r|..] == s[|s| - |r|..];
      assert s[..|s| - |r|] == [s[0]] + s[1..][..|s| - 1 - |r|];
    }
  }

  /** `TrimEnd` drops the longest all-space suffix and nothing else. */
  lemma {:induction false} TrimEndLaws(s: string)
    ensures var r := TrimEnd(s); r == s[..|r|] && AllSpace(s[|r|..])
    ensures var r := TrimEnd(s); r != [] ==> !IsSpace(r[|r| - 1])
    decreases |s|
  {
    if s != [] && IsSpace(s[|s| - 1]) {
      TrimEndLaws(s[..|s| - 1]);
      var r := TrimEnd(s);
      assert s[..|s| - 1][..|r|] == s[..|r|];
      assert s[|r|..] == s[..|s| - 1][|r|..] + [s[|s| - 1]];
    }
  }

  /** `String.prototype.trim`. */
  function Trim(s: string): string {
    TrimEnd(TrimStart(s))
  }

  /** `trim` removes only surrounding white space: the result is the slice of the
      input between an all-space prefix and an all-space suffix, and neither end of
      a non-empty result is white space. */
  lemma TrimIsInfix(s: string)
    ensures var r := Trim(s);
      exists i: nat, j: nat :: i <= j <= |s| && r == s[i..j] && AllSpace(s[..i]) && AllSpace(s[j..])
    ensures var r := Trim(s); r != [] ==> !IsSpace(r[0]) && !IsSpace(r[|r| - 1])
  {
    var t := TrimStart(s);
    var r := TrimEnd(t);
    TrimStartLaws(s);
    TrimEndLaws(t);
    var i := |s| - |t|;
    var j := i + |r|;
    assert r == s[i..j];
    assert s[j..] == t[|r|..];
  }

  /** Trimming twice is trimming once. */
  lemma TrimIdempotent(s: string)
    ensures Trim(Trim(s)) == Trim(s)
  {
    TrimIsInfix(s);
    TrimOfTrimmed(Trim(s));
  }

  /** A string with no white space at either end is its own trim. */
  lemma TrimOfTrimmed(s: string)
    requires s != [] ==> !IsSpace(s[0]) && !IsSpace(s[|s| - 1])
    ensures Trim(s) == s
  {
  }
}

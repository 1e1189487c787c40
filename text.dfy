/**
 * The JavaScript string operations the core relies on: `startsWith`, `split`
 * with a string separator, `split(c)[0]`, `substring` and ASCII `toUpperCase`.
 * `Split` is the one definition of `split`; its partner is `Join`, and the
 * lemmas below say that joining the parts gives the string back and that no
 * part contains the separator.
 */
module Text {

  /** `s.startsWith(prefix)`. */
  predicate StartsWith(s: string, prefix: string) {
    |prefix| <= |s| && s[..|prefix|] == prefix
  }

  /** The separator `sep` occurs in `s` starting at index `i`. */
  predicate MatchAt(s: string, sep: string, i: nat) {
    i + |sep| <= |s| && s[i..i + |sep|] == sep
  }

  /** `sep` occurs nowhere in `s`. */
  predicate Free(s: string, sep: string) {
    forall i: nat :: i <= |s| ==> !MatchAt(s, sep, i)
  }

  /**
   * `s.split(sep)` for a non-empty separator: the string is scanned from the
   * left and cut at every non-overlapping occurrence of `sep`.
   */
  function Split(s: string, sep: string): (parts: seq<string>)
    requires sep != ""
    ensures |parts| >= 1
    decreases |s|
  {
    if |s| < |sep| then [s]
    else if s[..|sep|] == sep then [""] + Split(s[|sep|..], sep)
    else
      var rest := Split(s[1..], sep);
      [[s[0]] + rest[0]] + rest[1..]
  }

  /** `parts.join(sep)`. */
  function Join(parts: seq<string>, sep: string): string
    requires |parts| >= 1
  {
    if |parts| == 1 then parts[0] else parts[0] + sep + Join(parts[1..], sep)
  }

  lemma {:induction false} JoinConsFirst(c: char, parts: seq<string>, sep: string)
    requires |parts| >= 1
    ensures Join([[c] + parts[0]] + parts[1..], sep) == [c] + Join(parts, sep)
  {
    var q := [[c] + parts[0]] + parts[1..];
    assert q[1..] == parts[1..];
  }

  /** Splitting and re-joining gives back the original string. */
  lemma {:induction false} JoinSplit(s: string, sep: string)
    requires sep != ""
    ensures Join(Split(s, sep), sep) == s
    decreases |s|
  {
    if |s| < |sep| {
    } else if s[..|sep|] == sep {
      JoinSplit(s[|sep|..], sep);
      JoinSplitAtSep(s, sep);
    } else {
      JoinSplit(s[1..], sep);
      JoinSplitCons(s, sep);
    }
  }

  /** The step of `JoinSplit` where `s` starts with the separator. */
  lemma {:induction false} JoinSplitAtSep(s: string, sep: string)
    requires sep != "" && |s| >= |sep| && s[..|sep|] == sep
    requires Join(Split(s[|sep|..], sep), sep) == s[|sep|..]
    ensures Join(Split(s, sep), sep) == s
  {
    var rest := Split(s[|sep|..], sep);
    SplitAtFront(s, sep);
    var p := [""] + rest;
    assert p[1..] == rest;
    assert s == s[..|sep|] + s[|sep|..];
  }

  /** The step of `JoinSplit` where the first character joins the first part. */
  lemma {:induction false} JoinSplitCons(s: string, sep: string)
    requires sep != "" && |s| >= |sep| && s[..|sep|] != sep
    requires Join(Split(s[1..], sep), sep) == s[1..]
    ensures Join(Split(s, sep), sep) == s
  {
    SplitCons(s, sep);
    JoinConsFirst(s[0], Split(s[1..], sep), sep);
    assert s == [s[0]] + s[1..];
  }

  lemma {:induction false} MatchAtShift(c: char, s: string, sep: string, i: nat)
    ensures MatchAt([c] + s, sep, i + 1) == MatchAt(s, sep, i)
  {
    if i + |sep| <= |s| {
      assert ([c] + s)[i + 1..i + 1 + |sep|] == s[i..i + |sep|];
    }
  }

  /** A part of a split never contains the separator. */
  lemma {:induction false} SplitPartsFree(s: string, sep: string)
    requires sep != ""
    ensures forall k :: 0 <= k < |Split(s, sep)| ==> Free(Split(s, sep)[k], sep)
    decreases |s|
  {
    var parts := Split(s, sep);
    if |s| < |sep| {
      forall i: nat | i <= |s| ensures !MatchAt(s, sep, i) { }
    } else if s[..|sep|] == sep {
      SplitPartsFree(s[|sep|..], sep);
      var rest := Split(s[|sep|..], sep);
      assert parts == [""] + rest;
      forall k | 0 <= k < |parts| ensures Free(parts[k], sep) {
        if k == 0 {
          forall i: nat | i <= |parts[k]| ensures !MatchAt(parts[k], sep, i) { }
        } else {
          assert parts[k] == rest[k - 1];
        }
      }
    } else {
      SplitPartsFree(s[1..], sep);
      var rest := Split(s[1..], sep);
      assert parts == [[s[0]] + rest[0]] + rest[1..];
      FirstPartFree(s, sep);
      forall k | 1 <= k < |parts| ensures Free(parts[k], sep) {
        assert parts[k] == rest[k];
      }
    }
  }

  /** When `s` does not start with the separator, its first character joins a free first part. */
  lemma {:induction false} FirstPartFree(s: string, sep: string)
    requires sep != "" && |s| >= |sep| && s[..|sep|] != sep
    requires Free(Split(s[1..], sep)[0], sep)
    ensures Free([s[0]] + Split(s[1..], sep)[0], sep)
  {
    var rest := Split(s[1..], sep);
    var p := [s[0]] + rest[0];
    forall i: nat | i <= |p| ensures !MatchAt(p, sep, i) {
      if i == 0 {
        // p is a prefix of s, and s does not start with sep
        JoinSplit(s[1..], sep);
        PartIsPrefix(rest, sep);
        assert s[..|p|] == p;
        if |sep| <= |p| {
          assert p[..|sep|] == s[..|sep|];
        }
      } else {
        MatchAtShift(s[0], rest[0], sep, i - 1);
      }
    }
  }

  /** The first part is a prefix of the joined string. */
  lemma {:induction false} PartIsPrefix(parts: seq<string>, sep: string)
    requires |parts| >= 1
    ensures |parts[0]| <= |Join(parts, sep)|
    ensures Join(parts, sep)[..|parts[0]|] == parts[0]
  {
  }

  /** Index of the first `c` in `s`, or `|s|` when there is none. */
  function FirstIndexOf(s: string, c: char): (i: nat)
    ensures i <= |s|
    ensures i < |s| ==> s[i] == c
    ensures forall j :: 0 <= j < i ==> s[j] != c
  {
    if s == [] then 0 else if s[0] == c then 0 else 1 + FirstIndexOf(s[1..], c)
  }

  /** A string with no `c` in it has no first index of `c`. */
  lemma {:induction false} FirstIndexOfNone(s: string, c: char)
    requires forall j :: 0 <= j < |s| ==> s[j] != c
    ensures FirstIndexOf(s, c) == |s|
    decreases |s|
  {
    if s != [] {
      FirstIndexOfNone(s[1..], c);
    }
  }

  /** Prefixes compose: a prefix of a prefix is a prefix. */
  lemma StartsWithTrans(s: string, p: string, q: string)
    requires StartsWith(s, p) && StartsWith(p, q)
    ensures StartsWith(s, q)
  {
    assert s[..|q|] == s[..|p|][..|q|];
  }

  /** `s.split(c)[0]` is the text before the first `c`, or all of `s`. */
  lemma {:induction false} SplitHead(s: string, c: char)
    ensures Split(s, [c])[0] == s[..FirstIndexOf(s, c)]
    decreases |s|
  {
    if s == [] {
    } else if s[0] == c {
      assert s[..1] == [c];
    } else {
      assert s[..1] != [c];
      SplitHead(s[1..], c);
    }
  }

  /** A string without the separator character splits into itself alone. */
  lemma {:induction false} SplitNoChar(s: string, c: char)
    requires c !in s
    ensures Split(s, [c]) == [s]
    decreases |s|
  {
    if |s| >= 1 {
      assert s[..1] != [c] by { assert s[..1][0] == s[0]; }
      SplitNoChar(s[1..], c);
      assert [s[0]] + s[1..] == s;
    }
  }

  /**
   * Cutting at no occurrence: if `sep` occurs at none of the first `k`
   * positions of `s`, those `k` characters stay at the front of the first part.
   */
  lemma {:induction false} SplitSkip(s: string, sep: string, k: nat)
    requires sep != "" && k <= |s|
    requires forall j: nat :: j < k ==> !MatchAt(s, sep, j)
    ensures Split(s, sep) == [s[..k] + Split(s[k..], sep)[0]] + Split(s[k..], sep)[1..]
    decreases k
  {
    if k == 0 {
      SplitSkipNone(s, sep);
    } else if |s| < |sep| {
      SplitSkipShort(s, sep, k);
    } else {
      SkipShift(s, sep, k);
      SplitSkip(s[1..], sep, k - 1);
      SplitSkipStep(s, sep, k);
    }
  }

  /** The step of `SplitSkip`: the first character joins the kept prefix. */
  lemma {:induction false} SplitSkipStep(s: string, sep: string, k: nat)
    requires sep != "" && 1 <= k <= |s| && |s| >= |sep| && !MatchAt(s, sep, 0)
    requires Split(s[1..], sep) == [s[1..][..k - 1] + Split(s[1..][k - 1..], sep)[0]] + Split(s[1..][k - 1..], sep)[1..]
    ensures Split(s, sep) == [s[..k] + Split(s[k..], sep)[0]] + Split(s[k..], sep)[1..]
  {
    var t := s[1..];
    SplitCons(s, sep);
    assert t[k - 1..] == s[k..];
    var q := Split(s[k..], sep);
    assert Split(t, sep)[0] == t[..k - 1] + q[0] && Split(t, sep)[1..] == q[1..];
    assert [s[0]] + (t[..k - 1] + q[0]) == s[..k] + q[0] by {
      assert [s[0]] + t[..k - 1] == s[..k];
    }
  }

  /** Skipping no position changes nothing. */
  lemma {:induction false} SplitSkipNone(s: string, sep: string)
    requires sep != ""
    ensures Split(s, sep) == [s[..0] + Split(s[0..], sep)[0]] + Split(s[0..], sep)[1..]
  {
    assert s[..0] == "" && s[0..] == s;
    var p := Split(s, sep);
    assert s[..0] + p[0] == p[0];
    assert p == [p[0]] + p[1..];
  }

  /** A string shorter than the separator is one part, however it is cut. */
  lemma {:induction false} SplitSkipShort(s: string, sep: string, k: nat)
    requires sep != "" && k <= |s| < |sep|
    ensures Split(s, sep) == [s[..k] + Split(s[k..], sep)[0]] + Split(s[k..], sep)[1..]
  {
    assert s[..k] + s[k..] == s;
  }

  /** No occurrence at the first `k` positions of `s` means none at the first `k - 1` of `s[1..]`. */
  lemma {:induction false} SkipShift(s: string, sep: string, k: nat)
    requires 1 <= k <= |s|
    requires forall j: nat :: j < k ==> !MatchAt(s, sep, j)
    ensures forall j: nat :: j < k - 1 ==> !MatchAt(s[1..], sep, j)
  {
    forall j: nat | j < k - 1 ensures !MatchAt(s[1..], sep, j) {
      MatchAtShift(s[0], s[1..], sep, j);
      assert [s[0]] + s[1..] == s;
    }
  }

  /** Without an occurrence at the front, the first character joins the first part. */
  lemma {:induction false} SplitCons(s: string, sep: string)
    requires sep != "" && |s| >= |sep| && !MatchAt(s, sep, 0)
    ensures Split(s, sep) == [[s[0]] + Split(s[1..], sep)[0]] + Split(s[1..], sep)[1..]
  {
    assert s[..|sep|] != sep;
  }

  /** Cutting at an occurrence at the very front. */
  lemma {:induction false} SplitAtFront(s: string, sep: string)
    requires sep != "" && MatchAt(s, sep, 0)
    ensures Split(s, sep) == [""] + Split(s[|sep|..], sep)
  {
  }

  /** `s.substring(0, n)` for `n >= 0`: at most the first `n` characters. */
  function Take(s: string, n: nat): (r: string)
    ensures |r| == if n <= |s| then n else |s|
    ensures r == s[..|r|]
  {
    if n <= |s| then s[..n] else s
  }

  /** `toUpperCase` on one ASCII character. */
  function UpperChar(c: char): (u: char)
    ensures 'a' <= c <= 'z' ==> u as int == c as int - 32
    ensures !('a' <= c <= 'z') ==> u == c
  {
    if 'a' <= c <= 'z' then (c as int - 32) as char else c
  }

  /** `toUpperCase` over an ASCII string, character by character. */
  function Upper(s: string): (r: string)
    ensures |r| == |s|
    ensures forall i :: 0 <= i < |s| ==> r[i] == UpperChar(s[i])
  {
    if s == [] then [] else [UpperChar(s[0])] + Upper(s[1..])
  }

  /** Decimal rendering of a natural number, as a template literal prints it. */
  function NatToString(n: nat): (r: string)
    ensures |r| >= 1
    ensures forall i :: 0 <= i < |r| ==> '0' <= r[i] <= '9'
  {
    if n < 10 then [DigitChar(n)] else NatToString(n / 10) + [DigitChar(n % 10)]
  }

  function DigitChar(d: nat): (c: char)
    requires d < 10
    ensures '0' <= c <= '9'
  {
    ('0' as int + d) as char
  }
}

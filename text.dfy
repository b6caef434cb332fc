/**
 * The Python string operations the loaders rely on: `str.strip()`, `str.strip(chars)`,
 * `str.split(sep)` for a non-empty separator, and the `join` that undoes it.
 */
module Text {

  /** The characters for which Python's `str.isspace()` holds; `str.strip()` without arguments removes them. */
  const Whitespace: set<char> :=
    {' ', '\t', '\n', '\r', '\U{000B}', '\U{000C}', '\U{001C}', '\U{001D}', '\U{001E}', '\U{001F}',
     '\U{0085}', '\U{00A0}', '\U{1680}', '\U{2000}', '\U{2001}', '\U{2002}', '\U{2003}', '\U{2004}',
     '\U{2005}', '\U{2006}', '\U{2007}', '\U{2008}', '\U{2009}', '\U{200A}', '\U{2028}', '\U{2029}',
     '\U{202F}', '\U{205F}', '\U{3000}'}

  /** Neither end of `s` is a character of `cs`. */
  predicate IsStrippedOf(s: string, cs: set<char>)
  {
    s == [] || (s[0] !in cs && s[|s| - 1] !in cs)
  }

  /** `s` is `t` with its first `i` characters and a suffix removed, all of them drawn from `cs`. */
  predicate IsTrimOf(s: string, t: string, cs: set<char>, i: nat)
  {
    i + |s| <= |t| && s == t[i..i + |s|]
    && (forall k :: 0 <= k < i ==> t[k] in cs)
    && (forall k :: i + |s| <= k < |t| ==> t[k] in cs)
  }

  /** The first position at or after `i` whose character is not in `cs` (or `|s|`). */
  function SkipFrom(s: string, cs: set<char>, i: nat): (n: nat)
    requires i <= |s|
    ensures i <= n <= |s|
    ensures n < |s| ==> s[n] !in cs
    ensures forall k :: i <= k < n ==> s[k] in cs
    decreases |s| - i
  {
    if i < |s| && s[i] in cs then SkipFrom(s, cs, i + 1) else i
  }

  /** The end of `s[lo..j]` once the characters of `cs` at its right end are removed. */
  function SkipBackFrom(s: string, cs: set<char>, lo: nat, j: nat): (n: nat)
    requires lo <= j <= |s|
    ensures lo <= n <= j
    ensures lo < n ==> s[n - 1] !in cs
    ensures forall k :: n <= k < j ==> s[k] in cs
    decreases j
  {
    if lo < j && s[j - 1] in cs then SkipBackFrom(s, cs, lo, j - 1) else j
  }

  /** How many characters `s.strip(chars)` removes from the front of `s`. */
  function StripStart(s: string, cs: set<char>): nat
  {
    SkipFrom(s, cs, 0)
  }

  /** Python's `s.strip(chars)`: the longest middle part of `s` whose ends are not in `cs`. */
  function StripChars(s: string, cs: set<char>): string
  {
    var i := SkipFrom(s, cs, 0);
    s[i..SkipBackFrom(s, cs, i, |s|)]
  }

  /** Python's `s.strip()`. */
  function Strip(s: string): string
  {
    StripChars(s, Whitespace)
  }

  /**
   * What stripping promises: neither end of the result is in `cs`, only characters of `cs` were
   * removed, from the two ends, and nothing new was added.
   */
  lemma StripCharsSpec(s: string, cs: set<char>)
    ensures IsStrippedOf(StripChars(s, cs), cs)
    ensures IsTrimOf(StripChars(s, cs), s, cs, StripStart(s, cs))
    ensures forall c :: c in StripChars(s, cs) ==> c in s
  {
  }

  /** Stripping a string whose ends are already outside `cs` changes nothing. */
  lemma StripCharsOfStripped(s: string, cs: set<char>)
    requires IsStrippedOf(s, cs)
    ensures StripChars(s, cs) == s
  {
  }

  /** `sep` occurs in `s` starting at position `j`. */
  predicate OccursAt(s: string, sep: string, j: nat)
  {
    j + |sep| <= |s| && s[j..j + |sep|] == sep
  }

  /** The leftmost occurrence of `sep` in `s` at or after `i`, or `|s|` when there is none. */
  function FindFrom(s: string, sep: string, i: nat): (j: nat)
    requires |sep| > 0 && i <= |s|
    ensures i <= j <= |s|
    ensures j < |s| ==> OccursAt(s, sep, j)
    ensures forall k :: i <= k < j ==> !OccursAt(s, sep, k)
    decreases |s| - i
  {
    if i == |s| then |s|
    else if OccursAt(s, sep, i) then i
    else FindFrom(s, sep, i + 1)
  }

  /** Python's `s.split(sep)` for a non-empty separator: cut at every leftmost, non-overlapping occurrence. */
  function SplitOn(s: string, sep: string): (parts: seq<string>)
    requires |sep| > 0
    ensures |parts| >= 1
    decreases |s|
  {
    var j := FindFrom(s, sep, 0);
    if j == |s| then [s] else [s[..j]] + SplitOn(s[j + |sep|..], sep)
  }

  /** Python's `sep.join(parts)`. */
  function Join(parts: seq<string>, sep: string): string
    requires |parts| >= 1
  {
    if |parts| == 1 then parts[0] else parts[0] + sep + Join(parts[1..], sep)
  }

  /** Joining the pieces of a split with the same separator gives back the original string. */
  lemma {:induction false} JoinSplitOn(s: string, sep: string)
    requires |sep| > 0
    ensures Join(SplitOn(s, sep), sep) == s
    decreases |s|
  {
    var j := FindFrom(s, sep, 0);
    if j < |s| {
      var e := j + |sep|;
      SplitOnFirst(s, sep, j);
      var rest := s[e..];
      JoinSplitOn(rest, sep);
      JoinCons(s[..j], SplitOn(rest, sep), sep);
      assert s == s[..j] + s[j..e] + rest;
    }
  }

  /** A split cuts at the leftmost occurrence `j` of the separator and goes on after it. */
  lemma SplitOnFirst(s: string, sep: string, j: nat)
    requires |sep| > 0 && j == FindFrom(s, sep, 0) < |s|
    ensures j + |sep| <= |s| && s[j..j + |sep|] == sep
    ensures SplitOn(s, sep) == [s[..j]] + SplitOn(s[j + |sep|..], sep)
  {
    assert OccursAt(s, sep, j);
  }

  lemma JoinCons(p: string, ps: seq<string>, sep: string)
    requires |ps| >= 1
    ensures Join([p] + ps, sep) == p + sep + Join(ps, sep)
  {
    assert ([p] + ps)[1..] == ps;
  }

  /** No piece of a split contains the separator. */
  lemma {:induction false} SplitOnPiecesFree(s: string, sep: string)
    requires |sep| > 0
    ensures forall p, k :: p in SplitOn(s, sep) && 0 <= k < |p| ==> !OccursAt(p, sep, k)
    decreases |s|
  {
    var j := FindFrom(s, sep, 0);
    var parts := SplitOn(s, sep);
    if j == |s| {
      assert parts == [s];
    } else {
      var rest := s[j + |sep|..];
      SplitOnPiecesFree(rest, sep);
      assert parts == [s[..j]] + SplitOn(rest, sep);
      forall k | 0 <= k < j ensures !OccursAt(s[..j], sep, k) {
        assert !OccursAt(s, sep, k);
        if k + |sep| <= j {
          assert s[..j][k..k + |sep|] == s[k..k + |sep|];
        }
      }
    }
  }
}

/** The string primitives the services build on, with Python's meaning:
    whitespace as `str.isspace` (which is also what `\s` matches in a `str`
    pattern), `str.strip`, substring search, `str.split` and `str.join`. */
module Text {
  import opened Wrappers

  /** Python's `str.isspace`, the same set `\s` matches in a `str` pattern. */
  predicate IsSpace(c: char) {
    || ('\t' <= c <= '\r')
    || ('\U{1C}' <= c <= '\U{1F}')
    || c == ' ' || c == '\U{85}' || c == '\U{A0}' || c == '\U{1680}'
    || ('\U{2000}' <= c <= '\U{200A}')
    || c == '\U{2028}' || c == '\U{2029}' || c == '\U{202F}' || c == '\U{205F}' || c == '\U{3000}'
  }

  predicate AllSpace(s: string) {
    forall i | 0 <= i < |s| :: IsSpace(s[i])
  }

  /** Every character of `t` at positions `i` up to (not including) `j` is whitespace. */
  predicate SpaceBetween(t: string, i: nat, j: nat) {
    j <= |t| && forall k | i <= k < j :: IsSpace(t[k])
  }

  /** No whitespace at either end: what `str.strip` leaves behind. */
  predicate Trimmed(s: string) {
    s == [] || (!IsSpace(s[0]) && !IsSpace(s[|s| - 1]))
  }

  /** `r` is a contiguous piece of `t`. */
  ghost predicate IsSlice(r: string, t: string) {
    exists i, j | 0 <= i <= j <= |t| :: r == t[i..j]
  }

  /** Concatenation is associative. */
  lemma AppendAssoc(a: string, b: string, c: string)
    ensures (a + b) + c == a + (b + c)
  {
  }

  /** A slice of a slice is a slice of the whole. */
  lemma SubSlice(t: string, p: nat, q: nat, a: nat, b: nat)
    requires p <= q <= |t| && a <= b <= q - p
    ensures t[p..q][a..b] == t[p + a..p + b]
  {
    assert forall k | 0 <= k < b - a :: t[p..q][a..b][k] == t[p + a + k];
  }

  lemma SliceOfSlice(r: string, u: string, t: string)
    requires IsSlice(r, u) && IsSlice(u, t)
    ensures IsSlice(r, t)
  {
    var a, b :| 0 <= a <= b <= |u| && r == u[a..b];
    var c, d :| 0 <= c <= d <= |t| && u == t[c..d];
    assert d - c == |u|;
    assert forall k | 0 <= k < b - a :: r[k] == u[a + k] == t[c + a + k];
    assert r == t[c + a..c + b];
  }

  // ---------------------------------------------------------------------------
  // Greedy whitespace runs (`\s*`) and str.strip

  /** End of the longest whitespace run starting at `k`: what a greedy `\s*` consumes. */
  function SkipSpace(t: string, k: nat): (e: nat)
    requires k <= |t|
    ensures k <= e <= |t| && SpaceBetween(t, k, e)
    ensures e == |t| || !IsSpace(t[e])
    decreases |t| - k
  {
    if k < |t| && IsSpace(t[k]) then SkipSpace(t, k + 1) else k
  }

  /** Start of the longest whitespace run that ends at `e` and does not reach below `lo`. */
  function SpaceBefore(t: string, lo: nat, e: nat): (b: nat)
    requires lo <= e <= |t|
    ensures lo <= b <= e && SpaceBetween(t, b, e)
    ensures b == lo || !IsSpace(t[b - 1])
    decreases e - lo
  {
    if lo < e && IsSpace(t[e - 1]) then SpaceBefore(t, lo, e - 1) else e
  }

  function StripStart(s: string): (lo: nat)
    ensures lo <= |s| && SpaceBetween(s, 0, lo)
    ensures lo == |s| || !IsSpace(s[lo])
  {
    SkipSpace(s, 0)
  }

  function StripEnd(s: string): (hi: nat)
    ensures StripStart(s) <= hi <= |s| && SpaceBetween(s, hi, |s|)
    ensures hi == StripStart(s) || !IsSpace(s[hi - 1])
  {
    SpaceBefore(s, StripStart(s), |s|)
  }

  /** Python's `str.strip()`. */
  function Strip(s: string): (r: string)
    ensures Trimmed(r)
  {
    s[StripStart(s)..StripEnd(s)]
  }

  /** `str.strip` returns a contiguous piece of its argument. */
  lemma StripIsSlice(s: string)
    ensures IsSlice(Strip(s), s)
  {
  }

  /** `str.strip` is determined by its defining property: whitespace is cut
      from both ends and nothing else. */
  lemma StripCharacterization(u: string, lo: nat, hi: nat)
    requires lo <= hi <= |u|
    requires SpaceBetween(u, 0, lo) && SpaceBetween(u, hi, |u|)
    requires lo < hi ==> !IsSpace(u[lo]) && !IsSpace(u[hi - 1])
    ensures Strip(u) == u[lo..hi]
  {
  }

  lemma StripTrimmed(s: string)
    requires Trimmed(s)
    ensures Strip(s) == s
  {
    StripCharacterization(s, 0, |s|);
    assert s[0..|s|] == s;
  }

  lemma StripIdempotent(s: string)
    ensures Strip(Strip(s)) == Strip(s)
  {
    StripTrimmed(Strip(s));
  }

  // ---------------------------------------------------------------------------
  // Searching

  /** `pat` occurs in `t` at position `k`. */
  predicate OccursAt(t: string, pat: string, k: nat) {
    k + |pat| <= |t| && t[k..k + |pat|] == pat
  }

  /** Python's `t.startswith(pat)`. */
  predicate StartsWith(t: string, pat: string) {
    OccursAt(t, pat, 0)
  }

  /** Python's `t.endswith(pat)`. */
  predicate EndsWith(t: string, pat: string) {
    |pat| <= |t| && t[|t| - |pat|..] == pat
  }

  /** The first occurrence of `pat` in `t` at or after `from`. */
  function FindFrom(t: string, pat: string, from: nat): (r: Option<nat>)
    ensures r.Some? ==> from <= r.value && OccursAt(t, pat, r.value)
    ensures forall k | from <= k && (r.None? || k < r.value) :: !OccursAt(t, pat, k)
    decreases |t| - from
  {
    if from + |pat| > |t| then None
    else if OccursAt(t, pat, from) then Some(from)
    else FindFrom(t, pat, from + 1)
  }

  /** Any occurrence that has no earlier one at or after `from` is the one found. */
  lemma FindFromFirst(t: string, pat: string, from: nat, i: nat)
    requires from <= i && OccursAt(t, pat, i)
    requires forall k | from <= k < i :: !OccursAt(t, pat, k)
    ensures FindFrom(t, pat, from) == Some(i)
  {
  }

  /** Python's `pat in t`. */
  function Contains(t: string, pat: string): (b: bool)
    ensures b <==> exists k :: OccursAt(t, pat, k)
  {
    FindFrom(t, pat, 0).Some?
  }

  /** The first position at or after `from` holding `c`. */
  function FindChar(t: string, c: char, from: nat): (r: Option<nat>)
    ensures r.Some? ==> from <= r.value < |t| && t[r.value] == c
    ensures forall k | from <= k < |t| && (r.None? || k < r.value) :: t[k] != c
    decreases |t| - from
  {
    if from >= |t| then None
    else if t[from] == c then Some(from)
    else FindChar(t, c, from + 1)
  }

  /** The last position holding `c`. */
  function LastIndexOf(t: string, c: char): (r: Option<nat>)
    ensures r.Some? ==> r.value < |t| && t[r.value] == c
    ensures forall k | 0 <= k < |t| && (r.None? || k > r.value) :: t[k] != c
  {
    if |t| == 0 then None
    else if t[|t| - 1] == c then Some(|t| - 1)
    else LastIndexOf(t[..|t| - 1], c)
  }

  /** A pattern that begins with a backtick cannot occur in a text without one. */
  lemma NoBacktickNoOccurrence(t: string, pat: string)
    requires '`' !in t && |pat| > 0 && pat[0] == '`'
    ensures forall k :: !OccursAt(t, pat, k)
  {
    forall k: nat | k + |pat| <= |t|
      ensures !OccursAt(t, pat, k)
    {
      assert t[k..k + |pat|][0] == t[k];
    }
  }

  // ---------------------------------------------------------------------------
  // str.split and str.join on one separator character

  /** Python's `s.split(c)` for a one-character separator. */
  function Split(s: string, c: char): (parts: seq<string>)
    ensures |parts| >= 1
    decreases |s|
  {
    match FindChar(s, c, 0)
    case None => [s]
    case Some(i) => [s[..i]] + Split(s[i + 1..], c)
  }

  /** Python's `c.join(parts)`. */
  function Join(parts: seq<string>, c: char): (r: string)
  {
    if |parts| == 0 then ""
    else if |parts| == 1 then parts[0]
    else parts[0] + [c] + Join(parts[1..], c)
  }

  /** Every piece `str.split` returns is a contiguous piece of its input. */
  lemma {:induction false} SplitPartIsSlice(s: string, c: char, k: nat)
    requires k < |Split(s, c)|
    ensures IsSlice(Split(s, c)[k], s)
    decreases |s|
  {
    match FindChar(s, c, 0)
    case None =>
      assert Split(s, c)[k] == s[0..|s|];
    case Some(i) =>
      if k == 0 {
        assert Split(s, c)[0] == s[0..i];
      } else {
        SplitPartIsSlice(s[i + 1..], c, k - 1);
        assert Split(s, c)[k] == Split(s[i + 1..], c)[k - 1];
        assert IsSlice(s[i + 1..], s) by { assert s[i + 1..] == s[i + 1..|s|]; }
        SliceOfSlice(Split(s, c)[k], s[i + 1..], s);
      }
  }

  /** Joining pieces that do not contain the separator and splitting again
      gives the pieces back. */
  lemma {:induction false} SplitJoin(parts: seq<string>, c: char)
    requires |parts| >= 1
    requires forall k | 0 <= k < |parts| :: c !in parts[k]
    ensures Split(Join(parts, c), c) == parts
    decreases |parts|
  {
    var j := Join(parts, c);
    if |parts| == 1 {
      assert FindChar(j, c, 0).None?;
    } else {
      var p := parts[0];
      assert j == p + [c] + Join(parts[1..], c);
      assert j[|p|] == c;
      assert forall k | 0 <= k < |p| :: j[k] == p[k];
      assert FindChar(j, c, 0) == Some(|p|);
      assert j[..|p|] == p;
      assert j[|p| + 1..] == Join(parts[1..], c);
      SplitJoin(parts[1..], c);
    }
  }

  // ---------------------------------------------------------------------------
  // Subsequences

  /** `a` is obtained from `b` by deleting characters. */
  ghost predicate IsSubsequence(a: string, b: string)
    decreases |b|
  {
    a == [] || (b != [] && ((a[0] == b[0] && IsSubsequence(a[1..], b[1..])) || IsSubsequence(a, b[1..])))
  }

  lemma {:induction false} SubsequenceLength(a: string, b: string)
    requires IsSubsequence(a, b)
    ensures |a| <= |b|
    decreases |b|
  {
    if a != [] {
      if a[0] == b[0] && IsSubsequence(a[1..], b[1..]) {
        SubsequenceLength(a[1..], b[1..]);
      } else {
        SubsequenceLength(a, b[1..]);
      }
    }
  }

  lemma {:induction false} SubsequenceReflexive(a: string)
    ensures IsSubsequence(a, a)
    decreases |a|
  {
    if a != [] {
      SubsequenceReflexive(a[1..]);
    }
  }

  lemma {:induction false} SubsequenceExtend(a: string, x: string, b: string)
    requires IsSubsequence(a, b)
    ensures IsSubsequence(a, x + b)
    decreases |x|
  {
    if x == [] {
      assert x + b == b;
    } else {
      SubsequenceExtend(a, x[1..], b);
      assert (x + b)[1..] == x[1..] + b;
    }
  }

  lemma {:induction false} SubsequenceConcat(a1: string, b1: string, a2: string, b2: string)
    requires IsSubsequence(a1, b1) && IsSubsequence(a2, b2)
    ensures IsSubsequence(a1 + a2, b1 + b2)
    decreases |b1|
  {
    if a1 == [] {
      SubsequenceExtend(a2, b1, b2);
      assert a1 + a2 == a2;
    } else {
      assert (b1 + b2)[1..] == b1[1..] + b2;
      if a1[0] == b1[0] && IsSubsequence(a1[1..], b1[1..]) {
        SubsequenceConcat(a1[1..], b1[1..], a2, b2);
        assert (a1 + a2)[1..] == a1[1..] + a2;
      } else {
        SubsequenceConcat(a1, b1[1..], a2, b2);
      }
    }
  }

  lemma {:induction false} SubsequenceTransitive(a: string, b: string, c: string)
    requires IsSubsequence(a, b) && IsSubsequence(b, c)
    ensures IsSubsequence(a, c)
    decreases |c|
  {
    if a != [] {
      if b[0] == c[0] && IsSubsequence(b[1..], c[1..]) {
        if a[0] == b[0] && IsSubsequence(a[1..], b[1..]) {
          SubsequenceTransitive(a[1..], b[1..], c[1..]);
        } else {
          SubsequenceTransitive(a, b[1..], c[1..]);
        }
      } else {
        SubsequenceTransitive(a, b, c[1..]);
      }
    }
  }

  // ---------------------------------------------------------------------------
  // Deleting one character everywhere, and decimal numerals

  /** Python's `s.replace(c, '')`. */
  function Without(s: string, c: char): (r: string)
    ensures c !in r
    ensures forall x | x != c :: multiset(r)[x] == multiset(s)[x]
    ensures forall x | x in r :: x in s
    decreases |s|
  {
    if s == [] then []
    else
      assert s == [s[0]] + s[1..];
      (if s[0] == c then [] else [s[0]]) + Without(s[1..], c)
  }

  lemma {:induction false} WithoutIsSubsequence(s: string, c: char)
    ensures IsSubsequence(Without(s, c), s)
    decreases |s|
  {
    if s != [] {
      WithoutIsSubsequence(s[1..], c);
      assert s == [s[0]] + s[1..];
      if s[0] == c {
        assert Without(s, c) == Without(s[1..], c);
        SubsequenceExtend(Without(s[1..], c), [s[0]], s[1..]);
      } else {
        SubsequenceReflexive([s[0]]);
        SubsequenceConcat([s[0]], [s[0]], Without(s[1..], c), s[1..]);
      }
    }
  }

  lemma {:induction false} WithoutAbsent(s: string, c: char)
    requires c !in s
    ensures Without(s, c) == s
    decreases |s|
  {
    if s != [] {
      WithoutAbsent(s[1..], c);
      assert s == [s[0]] + s[1..];
    }
  }

  function DigitChar(d: nat): (c: char)
    requires d < 10
    ensures '0' <= c <= '9'
  {
    ['0', '1', '2', '3', '4', '5', '6', '7', '8', '9'][d]
  }

  /** Python's `str(n)` for a natural number. */
  function NatToString(n: nat): (r: string)
    ensures |r| >= 1
    ensures forall i | 0 <= i < |r| :: '0' <= r[i] <= '9'
  {
    if n < 10 then [DigitChar(n)] else NatToString(n / 10) + [DigitChar(n % 10)]
  }

  /** Python's `str(n)` for an integer: a minus sign before the digits of a negative number. */
  function IntToString(n: int): (r: string)
    ensures '\n' !in r
    ensures n < 0 <==> (|r| > 0 && r[0] == '-')
  {
    if n < 0 then "-" + NatToString(-n) else NatToString(n)
  }
}

/** `clean_json_text` of the Hugging Face service (the Ollama service runs the
    same cascade before its line scan): pull a JSON candidate out of a model's
    free-text reply by trying, in order, a "```json" fence, any "```" fence,
    the span from the first `{` to the last `}`, and finally the whole reply,
    each result stripped of surrounding whitespace.

    The two fence searches are the regex `opener\s*([\s\S]*?)\s*```` and the
    brace search is `(\{[\s\S]*\})`; both are written out as scans, and
    FenceSearchIsFirstMatch / BraceSearchIsFirstMatch prove that the scans
    return exactly the match a backtracking `re.search` reports. */
module Extract {
  import opened Wrappers
  import opened Text

  const Fence := "```"
  const JsonFence := "```json"

  /** One match of `opener\s*([\s\S]*?)\s*```` : the opener at `open`, the
      captured group `t[start..end]`, the closing fence at `close`. */
  datatype FenceHit = FenceHit(open: nat, start: nat, end: nat, close: nat)

  /** A contiguous span `t[lo..hi]`. */
  datatype Span = Span(lo: nat, hi: nat)

  ghost predicate IsFenceMatch(t: string, opener: string, m: FenceHit) {
    && OccursAt(t, opener, m.open)
    && m.open + |opener| <= m.start <= m.end <= m.close
    && OccursAt(t, Fence, m.close)
    && SpaceBetween(t, m.open + |opener|, m.start)
    && SpaceBetween(t, m.end, m.close)
  }

  /** The order in which a backtracking matcher tries fence matches: leftmost
      opener first, then the longest leading `\s*`, then the shortest lazy
      group, then the longest trailing `\s*`. */
  predicate FenceTriedFirst(a: FenceHit, b: FenceHit) {
    || a.open < b.open
    || (a.open == b.open && a.start > b.start)
    || (a.open == b.open && a.start == b.start && a.end < b.end)
    || (a.open == b.open && a.start == b.start && a.end == b.end && a.close >= b.close)
  }

  /** `re.search(opener + r"\s*([\s\S]*?)\s*```", t)`: the opener's first
      occurrence, a greedy whitespace run, then the first closing fence, with
      the whitespace just before it left out of the lazy group. */
  function FenceSearch(t: string, opener: string): (h: Option<FenceHit>)
    ensures h.Some? ==> IsFenceMatch(t, opener, h.value)
    ensures h.Some? && h.value.start < h.value.end ==>
              !IsSpace(t[h.value.start]) && !IsSpace(t[h.value.end - 1])
  {
    match FindFrom(t, opener, 0)
    case None => None
    case Some(i) =>
      var s := SkipSpace(t, i + |opener|);
      match FindFrom(t, Fence, s)
      case None => None
      case Some(q) => Some(FenceHit(i, s, SpaceBefore(t, s, q), q))
  }

  lemma FenceStartsWithBacktick(t: string, k: nat)
    requires OccursAt(t, Fence, k)
    ensures k < |t| && t[k] == '`'
  {
    assert t[k..k + 3][0] == t[k];
  }

  /** A closing fence cannot start inside a whitespace run. */
  lemma NoFenceInSpace(t: string, p: nat, s: nat)
    requires SpaceBetween(t, p, s)
    ensures forall k | p <= k < s :: !OccursAt(t, Fence, k)
  {
    forall k | p <= k < s && OccursAt(t, Fence, k)
      ensures false
    {
      FenceStartsWithBacktick(t, k);
    }
  }

  /** Every match is tried no earlier than the one FenceSearch returns. */
  lemma FenceSearchBeatsEveryMatch(t: string, opener: string, m: FenceHit)
    requires IsFenceMatch(t, opener, m)
    ensures FenceSearch(t, opener).Some?
    ensures FenceTriedFirst(FenceSearch(t, opener).value, m)
  {
    var i := FindFrom(t, opener, 0).value;
    var p := i + |opener|;
    var s := SkipSpace(t, p);
    NoFenceInSpace(t, p, s);
    assert m.close >= s;
    var q := FindFrom(t, Fence, s).value;
    var e := SpaceBefore(t, s, q);
    FenceStartsWithBacktick(t, q);
    assert m.open == i ==> m.start <= s;
    assert m.open == i && m.start == s ==> e <= m.end;
    assert m.open == i && m.start == s && m.end == e ==> m.close <= q;
  }

  lemma FenceSearchIsFirstMatch(t: string, opener: string)
    ensures FenceSearch(t, opener).Some? <==> exists m :: IsFenceMatch(t, opener, m)
    ensures FenceSearch(t, opener).Some? ==>
              IsFenceMatch(t, opener, FenceSearch(t, opener).value)
              && forall m | IsFenceMatch(t, opener, m) :: FenceTriedFirst(FenceSearch(t, opener).value, m)
  {
    forall m | IsFenceMatch(t, opener, m)
      ensures FenceSearch(t, opener).Some? && FenceTriedFirst(FenceSearch(t, opener).value, m)
    {
      FenceSearchBeatsEveryMatch(t, opener, m);
    }
  }

  ghost predicate IsBraceMatch(t: string, m: Span) {
    m.lo + 2 <= m.hi <= |t| && t[m.lo] == '{' && t[m.hi - 1] == '}'
  }

  /** Order of attempts for `\{[\s\S]*\}`: leftmost `{`, then the longest (greedy) span. */
  predicate BraceTriedFirst(a: Span, b: Span) {
    a.lo < b.lo || (a.lo == b.lo && a.hi >= b.hi)
  }

  /** `re.search(r"(\{[\s\S]*\})", t)`: from the first `{` to the last `}`,
      provided that `}` comes after it. */
  function BraceSearch(t: string): (m: Option<Span>)
    ensures m.Some? ==> IsBraceMatch(t, m.value)
  {
    match FindChar(t, '{', 0)
    case None => None
    case Some(i) =>
      match LastIndexOf(t, '}')
      case None => None
      case Some(j) => if i < j then Some(Span(i, j + 1)) else None
  }

  lemma BraceSearchIsFirstMatch(t: string)
    ensures BraceSearch(t).Some? <==> exists m :: IsBraceMatch(t, m)
    ensures BraceSearch(t).Some? ==>
              IsBraceMatch(t, BraceSearch(t).value)
              && forall m | IsBraceMatch(t, m) :: BraceTriedFirst(BraceSearch(t).value, m)
  {
    forall m | IsBraceMatch(t, m)
      ensures BraceSearch(t).Some? && BraceTriedFirst(BraceSearch(t).value, m)
    {
      var i := FindChar(t, '{', 0).value;
      var j := LastIndexOf(t, '}').value;
      assert i <= m.lo && m.hi - 1 <= j;
    }
  }

  /** The first three steps of the cascade; None when none of them matches. */
  function FirstExtraction(text: string): (r: Option<string>)
    ensures r.Some? ==> Trimmed(r.value)
    ensures r.None? ==> BraceSearch(text).None?
  {
    if Contains(text, JsonFence) && FenceSearch(text, JsonFence).Some? then
      var h := FenceSearch(text, JsonFence).value;
      Some(Strip(text[h.start..h.end]))
    else if Contains(text, Fence) && FenceSearch(text, Fence).Some? then
      var h := FenceSearch(text, Fence).value;
      Some(Strip(text[h.start..h.end]))
    else match BraceSearch(text)
      case Some(m) => Some(Strip(text[m.lo..m.hi]))
      case None => None
  }

  /** `clean_json_text`: the first extraction that succeeds, else the stripped text. */
  function CleanJsonText(text: string): (r: string)
    ensures Trimmed(r)
  {
    match FirstExtraction(text)
    case Some(x) => x
    case None => Strip(text)
  }

  lemma StrippedSliceShape(text: string, lo: nat, hi: nat)
    requires lo <= hi <= |text|
    ensures Trimmed(Strip(text[lo..hi])) && IsSlice(Strip(text[lo..hi]), text)
  {
    assert text[lo..hi] == text[lo..hi];
    StripIsSlice(text[lo..hi]);
    SliceOfSlice(Strip(text[lo..hi]), text[lo..hi], text);
  }

  lemma FirstExtractionShape(text: string)
    ensures FirstExtraction(text).Some? ==>
              Trimmed(FirstExtraction(text).value) && IsSlice(FirstExtraction(text).value, text)
  {
    if Contains(text, JsonFence) && FenceSearch(text, JsonFence).Some? {
      var h := FenceSearch(text, JsonFence).value;
      StrippedSliceShape(text, h.start, h.end);
    } else if Contains(text, Fence) && FenceSearch(text, Fence).Some? {
      var h := FenceSearch(text, Fence).value;
      StrippedSliceShape(text, h.start, h.end);
    } else if BraceSearch(text).Some? {
      var m := BraceSearch(text).value;
      StrippedSliceShape(text, m.lo, m.hi);
    }
  }

  /** Whichever branch fires, the result is a contiguous piece of the input
      with no whitespace at either end. */
  lemma CleanJsonTextShape(text: string)
    ensures Trimmed(CleanJsonText(text)) && IsSlice(CleanJsonText(text), text)
  {
    FirstExtractionShape(text);
  }

  /** A piece with no whitespace at either end is its own strip. */
  lemma TrimmedPiece(t: string, s: nat, e: nat)
    requires s <= e <= |t|
    requires s < e ==> !IsSpace(t[s]) && !IsSpace(t[e - 1])
    ensures Strip(t[s..e]) == t[s..e]
  {
    assert s < e ==> t[s..e][0] == t[s] && t[s..e][e - s - 1] == t[e - 1];
    StripTrimmed(t[s..e]);
  }

  /** A trimmed piece between two whitespace runs is the stripped gap. */
  lemma TrimmedGap(t: string, p: nat, s: nat, e: nat, q: nat)
    requires p <= s <= e <= q <= |t|
    requires SpaceBetween(t, p, s) && SpaceBetween(t, e, q)
    requires s < e ==> !IsSpace(t[s]) && !IsSpace(t[e - 1])
    ensures t[s..e] == Strip(t[p..q])
  {
    var u := t[p..q];
    SpaceBetweenSlice(t, p, q, 0, s - p);
    SpaceBetweenSlice(t, p, q, e - p, q - p);
    assert s < e ==> u[s - p] == t[s] && u[e - p - 1] == t[e - 1];
    StripCharacterization(u, s - p, e - p);
    SubSlice(t, p, q, s - p, e - p);
  }

  /** A trimmed piece between two whitespace runs, such as the lazy group
      of a fence match, is already stripped and is the stripped gap. */
  lemma StrippedGap(t: string, p: nat, s: nat, e: nat, q: nat)
    requires p <= s <= e <= q <= |t|
    requires SpaceBetween(t, p, s) && SpaceBetween(t, e, q)
    requires s < e ==> !IsSpace(t[s]) && !IsSpace(t[e - 1])
    ensures Strip(t[s..e]) == t[s..e] == Strip(t[p..q])
  {
    TrimmedPiece(t, s, e);
    TrimmedGap(t, p, s, e, q);
  }

  lemma SpaceBetweenSlice(t: string, p: nat, q: nat, a: nat, b: nat)
    requires p <= q <= |t| && a <= b <= q - p
    requires SpaceBetween(t, p + a, p + b)
    ensures SpaceBetween(t[p..q], a, b)
  {
    forall k | a <= k < b ensures IsSpace(t[p..q][k]) {
      assert t[p..q][k] == t[p + k];
    }
  }

  /** The fence search on such a text finds that opener and that fence. */
  lemma JsonFenceHit(text: string, i: nat, q: nat)
    requires OccursAt(text, JsonFence, i) && forall k: nat | k < i :: !OccursAt(text, JsonFence, k)
    requires i + |JsonFence| <= q && OccursAt(text, Fence, q)
    requires forall k | i + |JsonFence| <= k < q :: !OccursAt(text, Fence, k)
    ensures FenceSearch(text, JsonFence).Some?
    ensures FenceSearch(text, JsonFence).value.open == i && FenceSearch(text, JsonFence).value.close == q
  {
    FindFromFirst(text, JsonFence, 0, i);
    var s := SkipSpace(text, i + |JsonFence|);
    FenceStartsWithBacktick(text, q);
    FindFromFirst(text, Fence, s, q);
  }

  /** When the first "```json" is followed by a "```", the result is the
      stripped text between that "```json" and the next "```". */
  lemma JsonFenceResult(text: string, i: nat, q: nat)
    requires OccursAt(text, JsonFence, i) && forall k: nat | k < i :: !OccursAt(text, JsonFence, k)
    requires i + |JsonFence| <= q && OccursAt(text, Fence, q)
    requires forall k | i + |JsonFence| <= k < q :: !OccursAt(text, Fence, k)
    ensures CleanJsonText(text) == Strip(text[i + |JsonFence|..q])
  {
    JsonFenceHit(text, i, q);
    var h := FenceSearch(text, JsonFence).value;
    StrippedGap(text, i + |JsonFence|, h.start, h.end, q);
  }

  /** With no backtick in the text and a `}` after the first `{`, the result
      is exactly the text from the first `{` to the last `}`. */
  lemma BraceResult(text: string, i: nat, j: nat)
    requires '`' !in text
    requires i < j < |text| && text[i] == '{' && text[j] == '}'
    requires forall k | 0 <= k < i :: text[k] != '{'
    requires forall k | j < k < |text| :: text[k] != '}'
    ensures CleanJsonText(text) == text[i..j + 1]
    ensures CleanJsonText(text)[0] == '{' && CleanJsonText(text)[|CleanJsonText(text)| - 1] == '}'
  {
    NoBacktickNoOccurrence(text, JsonFence);
    NoBacktickNoOccurrence(text, Fence);
    assert BraceSearch(text) == Some(Span(i, j + 1));
    StripTrimmed(text[i..j + 1]);
  }

  /** With no backtick and no `{` followed later by a `}`, the result is the stripped text. */
  lemma FallbackResult(text: string)
    requires '`' !in text
    requires forall i, j | 0 <= i < j < |text| :: !(text[i] == '{' && text[j] == '}')
    ensures CleanJsonText(text) == Strip(text)
  {
    NoBacktickNoOccurrence(text, JsonFence);
    NoBacktickNoOccurrence(text, Fence);
    BraceSearchIsFirstMatch(text);
    forall m ensures !IsBraceMatch(text, m) {
      if m.lo + 2 <= m.hi <= |text| {
        assert !(text[m.lo] == '{' && text[m.hi - 1] == '}');
      }
    }
  }
}

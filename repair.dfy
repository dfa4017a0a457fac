/** `fix_json` of the Hugging Face service (the Ollama service runs the same
    five rewrites and then deletes line breaks): regex substitutions that push
    near-JSON towards the syntax of RFC 8259, section 7 of which requires
    strings in double quotes.

    Each `re.sub` is one Rule: MatchAt says whether the rule's pattern matches
    at the very start of a text and what replaces the match, and Substitute is
    the non-overlapping left-to-right scan `re.sub` performs. */
module Repair {
  import opened Wrappers
  import opened Text

  datatype Rule =
    | QuotedKey           // '([^']*)':\s*   becomes  "\1":
    | QuotedValue         // :\s*'([^']*)'   becomes  : "\1"
    | CommaBeforeBrace    // ,\s*}           becomes  }
    | CommaBeforeBracket  // ,\s*\]          becomes  ]
    | LineComment         // //.*?\n         becomes  a line break

  /** A match: the text that replaces it and how many characters it covers. */
  datatype Hit = Hit(replacement: string, length: nat)

  /** `,\s*` followed by `close`, anchored at the start of `t`. */
  function CommaBefore(t: string, close: char): (h: Option<Hit>)
    ensures h.Some? ==> 0 < h.value.length <= |t| && h.value.replacement == [close]
    ensures h.Some? ==> t[0] == ',' && t[h.value.length - 1] == close
  {
    if |t| > 0 && t[0] == ',' then
      var k := SkipSpace(t, 1);
      if k < |t| && t[k] == close then Some(Hit([close], k + 1)) else None
    else None
  }

  /** `'([^']*)':\s*` anchored at the start of `t`. `[^']*` cannot pass a
      quote, so the group ends at the next quote. */
  function QuotedKeyAt(t: string): (h: Option<Hit>)
    ensures h.Some? ==> 0 < h.value.length <= |t|
  {
    if |t| > 0 && t[0] == '\'' then
      match FindChar(t, '\'', 1)
      case Some(j) =>
        if j + 1 < |t| && t[j + 1] == ':' then Some(Hit("\"" + t[1..j] + "\": ", SkipSpace(t, j + 2)))
        else None
      case None => None
    else None
  }

  /** `:\s*'([^']*)'` anchored at the start of `t`. `\s*` cannot pass a quote,
      so the greedy run never gives characters back. */
  function QuotedValueAt(t: string): (h: Option<Hit>)
    ensures h.Some? ==> 0 < h.value.length <= |t|
  {
    if |t| > 0 && t[0] == ':' then
      var k := SkipSpace(t, 1);
      if k < |t| && t[k] == '\'' then
        match FindChar(t, '\'', k + 1)
        case Some(j) => Some(Hit(": \"" + t[k + 1..j] + "\"", j + 1))
        case None => None
      else None
    else None
  }

  /** `//.*?\n` anchored at the start of `t`: without DOTALL the lazy `.*?`
      stops at the first line break. */
  function CommentAt(t: string): (h: Option<Hit>)
    ensures h.Some? ==> 2 < h.value.length <= |t| && h.value.replacement == "\n"
    ensures h.Some? ==> t[h.value.length - 1] == '\n'
    ensures h.Some? ==> forall k | 0 <= k < h.value.length - 1 :: t[k] != '\n'
  {
    if |t| >= 2 && t[0] == '/' && t[1] == '/' then
      match FindChar(t, '\n', 2)
      case Some(j) => Some(Hit("\n", j + 1))
      case None => None
    else None
  }

  /** The match of `rule`'s pattern that starts at `t[0]`, if there is one. */
  function MatchAt(rule: Rule, t: string): (h: Option<Hit>)
    ensures h.Some? ==> 0 < h.value.length <= |t|
  {
    match rule
    case QuotedKey => QuotedKeyAt(t)
    case QuotedValue => QuotedValueAt(t)
    case CommaBeforeBrace => CommaBefore(t, '}')
    case CommaBeforeBracket => CommaBefore(t, ']')
    case LineComment => CommentAt(t)
  }

  /** `re.sub(pattern, replacement, t)`: replace every match, scanning left
      to right and resuming after each match. */
  function Substitute(rule: Rule, t: string): (r: string)
    ensures Deleting(rule) ==> |r| <= |t|
    decreases |t|
  {
    if t == [] then []
    else match MatchAt(rule, t)
      case Some(h) => h.replacement + Substitute(rule, t[h.length..])
      case None => [t[0]] + Substitute(rule, t[1..])
  }

  /** `fix_json`: the five rewrites, in the source's order. Text with no
      single quote, no comma and no `//` passes through unchanged. */
  function FixJson(t: string): (r: string)
    ensures '\'' !in t && ',' !in t && (forall k | 0 <= k < |t| - 1 :: !(t[k] == '/' && t[k + 1] == '/'))
        ==> r == t
  {
    var t1 := Substitute(QuotedKey, t);
    var t2 := Substitute(QuotedValue, t1);
    var t3 := Substitute(CommaBeforeBrace, t2);
    var t4 := Substitute(CommaBeforeBracket, t3);
    var t5 := Substitute(LineComment, t4);
    assert Inert(QuotedKey, t) && Inert(CommaBeforeBrace, t) && Inert(LineComment, t) ==> t5 == t by {
      if Inert(QuotedKey, t) && Inert(CommaBeforeBrace, t) && Inert(LineComment, t) {
        InertUnchanged(QuotedKey, t);
        InertUnchanged(QuotedValue, t);
        InertUnchanged(CommaBeforeBrace, t);
        InertUnchanged(CommaBeforeBracket, t);
        InertUnchanged(LineComment, t);
      }
    }
    t5
  }


  // ---------------------------------------------------------------------------
  // The trailing-comma and comment rules only delete characters

  predicate Deleting(rule: Rule) {
    rule == CommaBeforeBrace || rule == CommaBeforeBracket || rule == LineComment
  }

  /** A one-character text is a subsequence of any text that ends with it. */
  lemma LastCharSubsequence(x: string, c: char)
    requires |x| > 0 && x[|x| - 1] == c
    ensures IsSubsequence([c], x)
  {
    SubsequenceReflexive([c]);
    SubsequenceExtend([c], x[..|x| - 1], [c]);
    assert x[..|x| - 1] + [c] == x;
  }

  lemma DeletingHit(rule: Rule, t: string)
    requires Deleting(rule) && MatchAt(rule, t).Some?
    ensures IsSubsequence(MatchAt(rule, t).value.replacement, t[..MatchAt(rule, t).value.length])
  {
    var h := MatchAt(rule, t).value;
    var c := if rule == CommaBeforeBrace then '}' else if rule == CommaBeforeBracket then ']' else '\n';
    assert h.replacement == [c] && t[h.length - 1] == c;
    LastCharSubsequence(t[..h.length], c);
  }

  /** The trailing-comma and comment rewrites only delete characters. */
  lemma {:induction false} DeletingRuleIsSubsequence(rule: Rule, t: string)
    requires Deleting(rule)
    ensures IsSubsequence(Substitute(rule, t), t)
    ensures |Substitute(rule, t)| <= |t|
    decreases |t|
  {
    if t != [] {
      match MatchAt(rule, t)
      case Some(h) =>
        DeletingHit(rule, t);
        DeletingRuleIsSubsequence(rule, t[h.length..]);
        SubsequenceConcat(h.replacement, t[..h.length], Substitute(rule, t[h.length..]), t[h.length..]);
        assert t[..h.length] + t[h.length..] == t;
      case None =>
        DeletingRuleIsSubsequence(rule, t[1..]);
        SubsequenceReflexive([t[0]]);
        SubsequenceConcat([t[0]], [t[0]], Substitute(rule, t[1..]), t[1..]);
        assert [t[0]] + t[1..] == t;
    }
    SubsequenceLength(Substitute(rule, t), t);
  }

  // ---------------------------------------------------------------------------
  // When a rule cannot fire

  /** A character-level reason why `rule` finds no match anywhere in `t`. */
  predicate Inert(rule: Rule, t: string) {
    match rule
    case QuotedKey => '\'' !in t
    case QuotedValue => '\'' !in t
    case CommaBeforeBrace => ',' !in t
    case CommaBeforeBracket => ',' !in t
    case LineComment => forall k | 0 <= k < |t| - 1 :: !(t[k] == '/' && t[k + 1] == '/')
  }

  lemma {:induction false} InertUnchanged(rule: Rule, t: string)
    requires Inert(rule, t)
    ensures Substitute(rule, t) == t
    decreases |t|
  {
    if t != [] {
      assert t[0] in t;
      assert MatchAt(rule, t).None? by {
        if rule == QuotedValue && |t| > 0 && t[0] == ':' {
          var k := SkipSpace(t, 1);
          assert k < |t| ==> t[k] in t;
        }
      }
      assert Inert(rule, t[1..]) by {
        if rule == LineComment {
          forall k | 0 <= k < |t[1..]| - 1 ensures !(t[1..][k] == '/' && t[1..][k + 1] == '/') {
            assert t[1..][k] == t[k + 1] && t[1..][k + 1] == t[k + 2];
          }
        } else {
          assert forall c | c in t[1..] :: c in t;
        }
      }
      InertUnchanged(rule, t[1..]);
      assert [t[0]] + t[1..] == t;
    }
  }

  /** Without a single quote the whole of `fix_json` only deletes characters,
      so it never makes the text longer. */
  lemma FixJsonDeletesWithoutQuotes(t: string)
    requires '\'' !in t
    ensures IsSubsequence(FixJson(t), t)
    ensures |FixJson(t)| <= |t|
  {
    InertUnchanged(QuotedKey, t);
    InertUnchanged(QuotedValue, t);
    var t3 := Substitute(CommaBeforeBrace, t);
    var t4 := Substitute(CommaBeforeBracket, t3);
    DeletingRuleIsSubsequence(CommaBeforeBrace, t);
    DeletingRuleIsSubsequence(CommaBeforeBracket, t3);
    DeletingRuleIsSubsequence(LineComment, t4);
    SubsequenceTransitive(t4, t3, t);
    SubsequenceTransitive(FixJson(t), t4, t);
    SubsequenceLength(FixJson(t), t);
  }

  // ---------------------------------------------------------------------------
  // Comment removal and line breaks

  /** The count of a character in a concatenation is the sum of the counts. */
  lemma CountAppend(a: string, b: string, c: char)
    ensures multiset(a + b)[c] == multiset(a)[c] + multiset(b)[c]
  {
  }

  /** A comment match holds exactly one line break, its last character. */
  lemma CommentHitHasOneLineBreak(t: string)
    requires CommentAt(t).Some?
    ensures multiset(t[..CommentAt(t).value.length])['\n'] == 1
  {
    var n := CommentAt(t).value.length;
    var j := n - 1;
    assert forall k | 0 <= k < j :: t[..j][k] == t[k];
    assert '\n' !in t[..j];
    assert t[..n] == t[..j] + [t[j]];
  }

  /** One step of the comment scan: a match is replaced by a line break,
      otherwise the first character is kept. */
  lemma CommentStep(t: string)
    requires t != []
    ensures CommentAt(t).Some? ==>
      Substitute(LineComment, t) == "\n" + Substitute(LineComment, t[CommentAt(t).value.length..])
    ensures CommentAt(t).None? ==>
      Substitute(LineComment, t) == [t[0]] + Substitute(LineComment, t[1..])
  {
  }

  /** A comment match leaves one line break for the one it covers. */
  lemma CommentHitKeepsLineBreaks(t: string, n: nat)
    requires CommentAt(t).Some? && n == CommentAt(t).value.length
    requires multiset(Substitute(LineComment, t[n..]))['\n'] == multiset(t[n..])['\n']
    ensures multiset(Substitute(LineComment, t))['\n'] == multiset(t)['\n']
  {
    var rest := Substitute(LineComment, t[n..]);
    CommentStep(t);
    assert multiset("\n")['\n'] == 1;
    CountAppend("\n", rest, '\n');
    CommentHitHasOneLineBreak(t);
    assert t[..n] + t[n..] == t;
    CountAppend(t[..n], t[n..], '\n');
  }

  /** A character that starts no comment is copied. */
  lemma CommentMissKeepsLineBreaks(t: string)
    requires t != [] && CommentAt(t).None?
    requires multiset(Substitute(LineComment, t[1..]))['\n'] == multiset(t[1..])['\n']
    ensures multiset(Substitute(LineComment, t))['\n'] == multiset(t)['\n']
  {
    CommentStep(t);
    CountAppend([t[0]], Substitute(LineComment, t[1..]), '\n');
    assert [t[0]] + t[1..] == t;
    CountAppend([t[0]], t[1..], '\n');
  }

  /** Each comment match ends in exactly one line break and is replaced by
      one, so the number of line breaks does not change. */
  lemma {:induction false} LineCommentKeepsLineBreaks(t: string)
    ensures multiset(Substitute(LineComment, t))['\n'] == multiset(t)['\n']
    decreases |t|
  {
    if t != [] {
      match CommentAt(t)
      case Some(h) =>
        LineCommentKeepsLineBreaks(t[h.length..]);
        CommentHitKeepsLineBreaks(t, h.length);
      case None =>
        LineCommentKeepsLineBreaks(t[1..]);
        CommentMissKeepsLineBreaks(t);
    }
  }

  /** A text with no line break has no comment match: a `//` on a last line
      that has no line break after it stays. */
  lemma {:induction false} NoLineBreakUnchanged(t: string)
    requires '\n' !in t
    ensures Substitute(LineComment, t) == t
    decreases |t|
  {
    if t != [] {
      assert MatchAt(LineComment, t).None?;
      assert forall c | c in t[1..] :: c in t;
      NoLineBreakUnchanged(t[1..]);
      assert [t[0]] + t[1..] == t;
    }
  }

  /** Text appended after a final line break does not change the match at the start. */
  lemma CommentMatchIgnoresLastLine(t: string, y: string)
    requires t != [] && t[|t| - 1] == '\n'
    ensures CommentAt(t + y) == CommentAt(t)
  {
    var u := t + y;
    if |t| >= 2 && t[0] == '/' && t[1] == '/' {
      var j := FindChar(t, '\n', 2).value;
      assert forall k | 2 <= k <= j :: u[k] == t[k];
      assert FindChar(u, '\n', 2) == Some(j);
    }
  }

  /** A comment match at the start of a text followed by a last line is
      replaced just as without the last line. */
  lemma LastLineHit(t: string, y: string, n: nat)
    requires t != [] && t[|t| - 1] == '\n'
    requires CommentAt(t).Some? && n == CommentAt(t).value.length
    requires Substitute(LineComment, t[n..] + y) == Substitute(LineComment, t[n..]) + y
    ensures Substitute(LineComment, t + y) == Substitute(LineComment, t) + y
  {
    CommentMatchIgnoresLastLine(t, y);
    var u := t + y;
    assert u[n..] == t[n..] + y;
    assert Substitute(LineComment, u) == "\n" + (Substitute(LineComment, t[n..]) + y);
    assert Substitute(LineComment, t) == "\n" + Substitute(LineComment, t[n..]);
    AppendAssoc("\n", Substitute(LineComment, t[n..]), y);
  }

  /** A first character that starts no comment is kept, with or without
      the last line. */
  lemma LastLineMiss(t: string, y: string)
    requires t != [] && t[|t| - 1] == '\n'
    requires CommentAt(t).None?
    requires Substitute(LineComment, t[1..] + y) == Substitute(LineComment, t[1..]) + y
    ensures Substitute(LineComment, t + y) == Substitute(LineComment, t) + y
  {
    CommentMatchIgnoresLastLine(t, y);
    var u := t + y;
    assert u[1..] == t[1..] + y && u[0] == t[0];
    assert Substitute(LineComment, u) == [t[0]] + (Substitute(LineComment, t[1..]) + y);
    assert Substitute(LineComment, t) == [t[0]] + Substitute(LineComment, t[1..]);
    AppendAssoc([t[0]], Substitute(LineComment, t[1..]), y);
  }

  /** The text after the last line break is copied through unchanged: comment
      removal works line by line and never reaches past the last break. */
  lemma {:induction false} LastLineUntouched(t: string, y: string)
    requires t == [] || t[|t| - 1] == '\n'
    requires '\n' !in y
    ensures Substitute(LineComment, t + y) == Substitute(LineComment, t) + y
    decreases |t|
  {
    if t == [] {
      NoLineBreakUnchanged(y);
      assert t + y == y;
    } else {
      match CommentAt(t)
      case Some(h) =>
        LastLineUntouched(t[h.length..], y);
        LastLineHit(t, y, h.length);
      case None =>
        LastLineUntouched(t[1..], y);
        LastLineMiss(t, y);
    }
  }

  // ---------------------------------------------------------------------------
  // Single-quoted keys and values become double-quoted strings

  /** The next quote after a quote-free run `s` is the one that ends it. */
  lemma ClosingQuote(t: string, k: nat, s: string)
    requires k + |s| < |t| && t[k..k + |s|] == s && '\'' !in s && t[k + |s|] == '\''
    ensures FindChar(t, '\'', k) == Some(k + |s|)
  {
    forall i | k <= i < k + |s| ensures t[i] != '\'' {
      assert t[i] == s[i - k] && s[i - k] in s;
    }
  }

  /** Skipping whitespace from the start of a blank run stops at its end. */
  lemma SkipSpaceOver(t: string, k: nat, ws: string)
    requires k + |ws| <= |t| && t[k..k + |ws|] == ws && AllSpace(ws)
    requires k + |ws| == |t| || !IsSpace(t[k + |ws|])
    ensures SkipSpace(t, k) == k + |ws|
  {
    forall i | k <= i < k + |ws| ensures IsSpace(t[i]) {
      assert t[i] == t[k..k + |ws|][i - k];
    }
  }

  /** The match of the key rule at the start of `'key':` and whitespace. */
  lemma QuotedKeyMatch(key: string, ws: string, rest: string)
    requires '\'' !in key && AllSpace(ws)
    requires rest == [] || !IsSpace(rest[0])
    ensures MatchAt(QuotedKey, "'" + key + "':" + ws + rest)
         == Some(Hit("\"" + key + "\": ", |key| + 3 + |ws|))
  {
    var t := "'" + key + "':" + ws + rest;
    var j := |key| + 1;
    assert t[1..j] == key;
    assert t[j] == '\'' && t[j + 1] == ':';
    ClosingQuote(t, 1, key);
    assert t[j + 2..j + 2 + |ws|] == ws;
    assert j + 2 + |ws| < |t| ==> t[j + 2 + |ws|] == rest[0];
    SkipSpaceOver(t, j + 2, ws);
  }

  /** `'key':` followed by whitespace becomes `"key": ` and the scan goes on
      after the whitespace. */
  lemma QuotedKeyRewritten(key: string, ws: string, rest: string)
    requires '\'' !in key && AllSpace(ws)
    requires rest == [] || !IsSpace(rest[0])
    ensures Substitute(QuotedKey, "'" + key + "':" + ws + rest)
         == "\"" + key + "\": " + Substitute(QuotedKey, rest)
  {
    var t := "'" + key + "':" + ws + rest;
    QuotedKeyMatch(key, ws, rest);
    assert t[|key| + 3 + |ws|..] == rest;
  }

  /** The match of the value rule at the start of `:`, whitespace and `'value'`. */
  lemma QuotedValueMatch(ws: string, value: string, rest: string)
    requires AllSpace(ws) && '\'' !in value
    ensures MatchAt(QuotedValue, ":" + ws + "'" + value + "'" + rest)
         == Some(Hit(": \"" + value + "\"", |ws| + |value| + 3))
  {
    var t := ":" + ws + "'" + value + "'" + rest;
    var k := 1 + |ws|;
    assert t[1..k] == ws;
    assert t[k] == '\'';
    SkipSpaceOver(t, 1, ws);
    assert t[k + 1..k + 1 + |value|] == value;
    assert t[k + 1 + |value|] == '\'';
    ClosingQuote(t, k + 1, value);
  }

  /** `:` and whitespace before `'value'` becomes `: "value"`. */
  lemma QuotedValueRewritten(ws: string, value: string, rest: string)
    requires AllSpace(ws) && '\'' !in value
    ensures Substitute(QuotedValue, ":" + ws + "'" + value + "'" + rest)
         == ": \"" + value + "\"" + Substitute(QuotedValue, rest)
  {
    var t := ":" + ws + "'" + value + "'" + rest;
    QuotedValueMatch(ws, value, rest);
    assert t[|ws| + |value| + 3..] == rest;
  }
}

/** `OllamaService`: the same salvage as the Hugging Face service with three
    differences. `clean_json_text` ends with a backwards scan over the lines
    (proved here never to change the answer); `fix_json` also deletes line
    breaks and carriage returns; and a second decode error gets one more
    try on the first-`{`-to-last-`}` span. There is no Thai check. */
module Ollama {
  import opened Wrappers
  import opened Text
  import opened Results
  import opened Players
  import Extract
  import Repair

  const Model: string := "gemma3"

  // ---------------------------------------------------------------------------
  // clean_json_text with its line scan

  /** A stripped line that starts with `{` and ends with `}`. */
  predicate BraceLine(p: string) {
    StartsWith(p, "{") && EndsWith(p, "}")
  }

  /** The stripped form of the last line that is a brace line, if any. */
  function LastBraceLine(parts: seq<string>): (r: Option<string>)
    ensures r.Some? ==> Trimmed(r.value) && BraceLine(r.value)
  {
    if parts == [] then None
    else if BraceLine(Strip(parts[|parts| - 1])) then Some(Strip(parts[|parts| - 1]))
    else LastBraceLine(parts[..|parts| - 1])
  }

  /** No line, once stripped, is a brace line. */
  ghost predicate NoBraceLine(parts: seq<string>) {
    forall k | 0 <= k < |parts| :: !BraceLine(Strip(parts[k]))
  }

  /** A list has no brace line exactly when its last line is not one and
      the lines before it have none. */
  lemma NoBraceLineInit(parts: seq<string>)
    requires parts != []
    ensures NoBraceLine(parts)
      <==> NoBraceLine(parts[..|parts| - 1]) && !BraceLine(Strip(parts[|parts| - 1]))
  {
    var init := parts[..|parts| - 1];
    assert forall k | 0 <= k < |init| :: init[k] == parts[k];
  }

  /** The scan finds nothing exactly when no line is a brace line. */
  lemma {:induction false} LastBraceLineNone(parts: seq<string>)
    ensures LastBraceLine(parts).None? <==> NoBraceLine(parts)
  {
    if parts != [] {
      NoBraceLineInit(parts);
      LastBraceLineNone(parts[..|parts| - 1]);
    }
  }

  /** The stripped brace line the scan reports for `parts[k]`. */
  ghost predicate FoundAt(parts: seq<string>, k: int, line: string) {
    && 0 <= k < |parts|
    && line == Strip(parts[k])
    && BraceLine(line)
    && forall l | k < l < |parts| :: !BraceLine(Strip(parts[l]))
  }

  /** Dropping the last line keeps a report on an earlier line, provided the
      last line is not a brace line. */
  lemma FoundAtExtends(parts: seq<string>, k: int, line: string)
    requires |parts| > 0 && !BraceLine(Strip(parts[|parts| - 1]))
    requires FoundAt(parts[..|parts| - 1], k, line)
    ensures FoundAt(parts, k, line)
  {
    var init := parts[..|parts| - 1];
    assert init[k] == parts[k];
    forall l | k < l < |parts| ensures !BraceLine(Strip(parts[l])) {
      if l < |init| {
        assert init[l] == parts[l];
      }
    }
  }

  /** What the scan finds is the stripped form of a brace line with no
      brace line after it. */
  lemma {:induction false} LastBraceLineSome(parts: seq<string>)
    requires LastBraceLine(parts).Some?
    ensures exists k :: FoundAt(parts, k, LastBraceLine(parts).value)
  {
    var n := |parts| - 1;
    if BraceLine(Strip(parts[n])) {
      assert FoundAt(parts, n, LastBraceLine(parts).value);
    } else {
      var init := parts[..n];
      assert LastBraceLine(parts) == LastBraceLine(init);
      LastBraceLineSome(init);
      var k :| FoundAt(init, k, LastBraceLine(init).value);
      FoundAtExtends(parts, k, LastBraceLine(init).value);
    }
  }

  /** `clean_json_text` as the service writes it: the cascade of the Hugging
      Face service, then the line scan, then the stripped text. */
  function CleanWithLineScan(text: string): (r: string)
    ensures Trimmed(r)
  {
    match Extract.FirstExtraction(text)
    case Some(x) => x
    case None =>
      match LastBraceLine(Split(text, '\n'))
      case Some(line) => line
      case None => Strip(text)
  }

  /** The reversed loop over the lines: the first brace line met when
      walking back from the last line. */
  method ScanLines(parts: seq<string>) returns (r: Option<string>)
    ensures r == LastBraceLine(parts)
  {
    var k := |parts|;
    assert parts[..k] == parts;
    while k > 0
      invariant 0 <= k <= |parts|
      invariant LastBraceLine(parts[..k]) == LastBraceLine(parts)
    {
      k := k - 1;
      var part := Strip(parts[k]);
      assert parts[..k + 1][..k] == parts[..k];
      assert parts[..k + 1][k] == parts[k];
      if BraceLine(part) {
        return Some(part);
      }
    }
    assert parts[..0] == [];
    return None;
  }

  /** The service's `clean_json_text`. */
  method CleanJsonText(text: string) returns (r: string)
    ensures r == CleanWithLineScan(text)
  {
    var first := Extract.FirstExtraction(text);
    if first.Some? {
      return first.value;
    }
    var line := ScanLines(Split(text, '\n'));
    if line.Some? {
      return line.value;
    }
    r := Strip(text);
  }

  /** What a brace line looks like, character by character. */
  lemma BraceLineEnds(p: string)
    requires BraceLine(p)
    ensures |p| >= 2 && p[0] == '{' && p[|p| - 1] == '}'
  {
    assert p[0..1][0] == p[0];
    assert p[|p| - 1..][0] == p[|p| - 1];
  }

  /** A brace line cut from a text is a `{`...`}` span of that text. */
  lemma BraceSliceIsMatch(line: string, text: string)
    requires BraceLine(line) && IsSlice(line, text)
    ensures exists m :: Extract.IsBraceMatch(text, m)
  {
    BraceLineEnds(line);
    var i, j :| 0 <= i <= j <= |text| && line == text[i..j];
    assert text[i] == line[0] && text[j - 1] == line[|line| - 1];
    assert Extract.IsBraceMatch(text, Extract.Span(i, j));
  }

  /** A brace line is a `{`...`}` span of the text it came from. */
  lemma BraceLineIsBraceMatch(text: string, k: nat)
    requires k < |Split(text, '\n')| && BraceLine(Strip(Split(text, '\n')[k]))
    ensures exists m :: Extract.IsBraceMatch(text, m)
  {
    var part := Split(text, '\n')[k];
    SplitPartIsSlice(text, '\n', k);
    StripIsSlice(part);
    SliceOfSlice(Strip(part), part, text);
    BraceSliceIsMatch(Strip(part), text);
  }

  /** The line scan is unreachable: a brace line holds a `{` before a `}`,
      so the brace-span search has already matched, and the service's
      `clean_json_text` agrees with the Hugging Face one on every text. */
  lemma LineScanUnreachable(text: string)
    ensures CleanWithLineScan(text) == Extract.CleanJsonText(text)
  {
    var parts := Split(text, '\n');
    if Extract.FirstExtraction(text).None? && LastBraceLine(parts).Some? {
      LastBraceLineNone(parts);
      var k :| 0 <= k < |parts| && BraceLine(Strip(parts[k]));
      BraceLineIsBraceMatch(text, k);
      Extract.BraceSearchIsFirstMatch(text);
      assert false;
    }
  }

  // ---------------------------------------------------------------------------
  // fix_json

  /** The Hugging Face rewrites followed by `.replace('\n', '').replace('\r', '')`. */
  function FixJson(t: string): (r: string)
    ensures '\n' !in r && '\r' !in r
  {
    Without(Without(Repair.FixJson(t), '\n'), '\r')
  }

  /** On text with no single quote, no comma and no `//`, `fix_json` only
      deletes line breaks and carriage returns, keeping everything else in
      order. */
  lemma FixJsonPlainText(t: string)
    requires '\'' !in t && ',' !in t
    requires forall k | 0 <= k < |t| - 1 :: !(t[k] == '/' && t[k + 1] == '/')
    ensures FixJson(t) == Without(Without(t, '\n'), '\r')
    ensures IsSubsequence(FixJson(t), t)
  {
    WithoutIsSubsequence(t, '\n');
    WithoutIsSubsequence(Without(t, '\n'), '\r');
    SubsequenceTransitive(FixJson(t), Without(t, '\n'), t);
  }

  // ---------------------------------------------------------------------------
  // The retry chain

  /** `re.findall(r'\{.*\}', fixed_json, re.DOTALL)[0]`: the span from the
      first `{` to the last `}`, when a `}` follows the first `{`. */
  function AltJson(t: string): (r: Option<string>)
    ensures r.None? <==> forall i, j | 0 <= i < j < |t| :: !(t[i] == '{' && t[j] == '}')
    ensures r.Some? ==> exists i, j | 0 <= i < j < |t| ::
      && r.value == t[i..j + 1]
      && t[i] == '{' && t[j] == '}'
      && (forall k | 0 <= k < i :: t[k] != '{')
      && (forall k | j < k < |t| :: t[k] != '}')
  {
    match Extract.BraceSearch(t)
    case Some(m) => Some(t[m.lo..m.hi])
    case None => None
  }

  /** The nested tries: the extracted text, then its repaired form, then
      the brace span of the repaired form; with no brace span the second
      decode error is raised again. */
  function Decode(jsonText: string, loads: string -> Result<Json, string>): (r: Result<Json, string>)
    ensures loads(jsonText).Success? ==> r == loads(jsonText)
    ensures r.Failure? ==> loads(jsonText).Failure? && loads(FixJson(jsonText)).Failure?
    ensures loads(jsonText).Failure? && AltJson(FixJson(jsonText)).None? ==> r == loads(FixJson(jsonText))
    ensures loads(jsonText).Failure? && loads(FixJson(jsonText)).Success? ==> r == loads(FixJson(jsonText))
    ensures loads(jsonText).Failure? && loads(FixJson(jsonText)).Failure? && AltJson(FixJson(jsonText)).Some?
        ==> r == loads(AltJson(FixJson(jsonText)).value)
  {
    if loads(jsonText).Success? then loads(jsonText)
    else
      var fixed := FixJson(jsonText);
      if loads(fixed).Success? then loads(fixed)
      else match AltJson(fixed)
        case Some(alt) => loads(alt)
        case None => loads(fixed)
  }

  /** `debug_info` once the parse has been attempted. */
  function Debug(text: string, loads: string -> Result<Json, string>): (d: map<string, string>)
    ensures "fixed_json" in d <==> loads(Extract.CleanJsonText(text)).Failure?
  {
    var jsonText := Extract.CleanJsonText(text);
    DebugTexts(text, jsonText, if loads(jsonText).Success? then None else Some(FixJson(jsonText)))
  }

  /** What the service returns once the generated text is in hand: the
      record names the model, a success holds at least two teams, and an
      error record keeps at most 1000 characters of the text. */
  function Outcome(text: string, loads: string -> Result<Json, string>): (rec: Record)
    ensures rec.modelUsed == Model
    ensures rec.Matchmaking? ==> Len(rec.teams).Some? && Len(rec.teams).value >= 2
    ensures rec.ParseError? ==> rec.rawResponse == Some(Excerpt(text))
    ensures !rec.Matchmaking? ==> rec.debugInfo == Some(Debug(text, loads))
    ensures var d := Decode(Extract.CleanJsonText(text), loads);
      (rec.ParseError? <==> d.Failure?) && (d.Failure? ==> rec.error == JsonErrorPrefix + d.error)
    ensures var d := Decode(Extract.CleanJsonText(text), loads);
      d.Success? ==>
        && (rec.Matchmaking? <==> Conclude(d.value, Model, true).Success?)
        && (rec.Matchmaking? ==> rec == Conclude(d.value, Model, true).value)
        && (rec.Failed? ==> rec.fault == Conclude(d.value, Model, true).error)
  {
    LineScanUnreachable(text);
    match Decode(Extract.CleanJsonText(text), loads)
    case Failure(e) => ParseError(JsonErrorPrefix + e, Some(Excerpt(text)), Some(Debug(text, loads)), Model)
    case Success(data) =>
      TeamCheckedSuccess(data, Model);
      match Conclude(data, Model, true)
      case Success(result) => result
      case Failure(f) => Failed(f, Some(Debug(text, loads)), Model)
  }

  /** When the repaired text holds no `{`...`}` span, the error reported is
      the repaired text's own decode error. */
  lemma NoAltReraises(text: string, loads: string -> Result<Json, string>)
    requires var j := Extract.CleanJsonText(text);
      loads(j).Failure? && loads(FixJson(j)).Failure? && AltJson(FixJson(j)).None?
    ensures Outcome(text, loads)
      == ParseError(JsonErrorPrefix + loads(FixJson(Extract.CleanJsonText(text))).error,
                    Some(Excerpt(text)), Some(Debug(text, loads)), Model)
  {
  }

  /** The nested tries on the extracted text, reporting the repaired text
      when the repair was tried. */
  method Retry(jsonText: string, loads: string -> Result<Json, string>)
    returns (parsed: Result<Json, string>, fixed: Option<string>)
    ensures parsed == Decode(jsonText, loads)
    ensures fixed.Some? <==> loads(jsonText).Failure?
    ensures fixed.Some? ==> fixed.value == FixJson(jsonText)
  {
    fixed := None;
    parsed := loads(jsonText);
    if parsed.Failure? {
      fixed := Some(FixJson(jsonText));
      parsed := loads(fixed.value);
      if parsed.Failure? {
        var alt := AltJson(fixed.value);
        if alt.Some? {
          parsed := loads(alt.value);
        }
      }
    }
  }

  /** The parse attempts after the generated text arrives, with
      `debug_info` filled stage by stage. */
  method Attempt(text: string, loads: string -> Result<Json, string>)
    returns (parsed: Result<Json, string>, debug: map<string, string>)
    ensures parsed == Decode(Extract.CleanJsonText(text), loads)
    ensures debug == Debug(text, loads)
  {
    debug := map[];
    debug := debug["raw_response" := Truncate(text)];
    var jsonText := CleanJsonText(text);
    LineScanUnreachable(text);
    debug := debug["cleaned_json" := Truncate(jsonText)];
    var fixed;
    parsed, fixed := Retry(jsonText, loads);
    if fixed.Some? {
      debug := debug["fixed_json" := Truncate(fixed.value)];
    }
  }

  /** The part of `generate_matchmaking` after the generated text arrives. */
  method Salvage(text: string, loads: string -> Result<Json, string>) returns (rec: Record)
    ensures rec == Outcome(text, loads)
  {
    var parsed, debug := Attempt(text, loads);
    if parsed.Failure? {
      return ParseError(JsonErrorPrefix + parsed.error, Some(Excerpt(text)), Some(debug), Model);
    }
    var data := parsed.value;
    if !data.JObj? {
      return Failed(WrongType, Some(debug), Model);
    }
    var result := Shape(data.fields, Model);
    var missing := TeamCheck(result.teams);
    if missing.Some? {
      return Failed(missing.value, Some(debug), Model);
    }
    return result;
  }

  /** `generate_matchmaking(room_data)`; the reply's text is the body's
      `response` entry (`""` when absent). */
  method GenerateMatchmaking(players: Option<seq<RawPlayer>>, ask: string -> Reply, loads: string -> Result<Json, string>)
    returns (rec: Record)
    ensures rec.modelUsed == Model
    ensures rec.Matchmaking? ==> Len(rec.teams).Some? && Len(rec.teams).value >= 2
    ensures players.None? ==> rec == Failed(KeyMissing("players"), Some(map[]), Model)
    ensures players.Some? && NormalizeAll(players.value).Failure? ==>
      rec == Failed(NormalizeAll(players.value).error, Some(map[]), Model)
    ensures players.Some? && NormalizeAll(players.value).Success? ==>
      match ask(PlayerInfo(NormalizeAll(players.value).value))
      case Unreachable(m) => rec == Failed(Raised(m), Some(map[]), Model)
      case Delivered(status, body, read) =>
        if status != 200 then rec == Failed(HttpStatus(status, body), Some(map[]), Model)
        else match read
          case Failure(BodyNotJson(detail)) => rec == ParseError(JsonErrorPrefix + detail, Some(NoResponse), Some(map[]), Model)
          case Failure(BadShape(f)) => rec == Failed(f, Some(map[]), Model)
          case Success(text) => rec == Outcome(text, loads)
  {
    if players.None? {
      return Failed(KeyMissing("players"), Some(map[]), Model);
    }
    var list := NormalizePlayers(players.value);
    if list.Failure? {
      return Failed(list.error, Some(map[]), Model);
    }
    var reply := ask(PlayerInfo(list.value));
    if reply.Unreachable? {
      return Failed(Raised(reply.message), Some(map[]), Model);
    }
    if reply.status != 200 {
      return Failed(HttpStatus(reply.status, reply.body), Some(map[]), Model);
    }
    match reply.text
    case Failure(BodyNotJson(detail)) =>
      rec := ParseError(JsonErrorPrefix + detail, Some(Excerpt("")), Some(map[]), Model);
    case Failure(BadShape(f)) =>
      rec := Failed(f, Some(map[]), Model);
    case Success(text) =>
      rec := Salvage(text, loads);
  }
}

/** What the three services do with a parsed reply: the `json.loads` value,
    Python truthiness and `len` on it, the Thai-script check on `analysis`,
    the result and error records, the debug-text truncation and the
    "at least two teams" check. */
module Results {
  import opened Wrappers
  import opened Text

  /** A value `json.loads` can return. Numbers are kept as reals: only their
      truthiness matters here, and `0` and `0.0` are both false. */
  datatype Json =
    | JNull
    | JBool(b: bool)
    | JNum(n: real)
    | JStr(s: string)
    | JArr(items: seq<Json>)
    | JObj(fields: map<string, Json>)

  /** Python's `bool(v)`. */
  predicate Truthy(v: Json) {
    match v
    case JNull => false
    case JBool(b) => b
    case JNum(n) => n != 0.0
    case JStr(s) => |s| > 0
    case JArr(items) => |items| > 0
    case JObj(fields) => |fields| > 0
  }

  /** Python's `len(v)`; `None` where `len` raises a TypeError. */
  function Len(v: Json): (n: Option<nat>)
    ensures n.Some? ==> (Truthy(v) <==> n.value > 0)
    ensures n.None? <==> v.JNull? || v.JBool? || v.JNum?
  {
    match v
    case JStr(s) => Some(|s|)
    case JArr(items) => Some(|items|)
    case JObj(fields) => Some(|fields|)
    case _ => None
  }

  /** `d.get(key, default)`. */
  function Get<V>(d: map<string, V>, key: string, default: V): (v: V)
    ensures key in d ==> v == d[key]
    ensures key !in d ==> v == default
  {
    if key in d then d[key] else default
  }

  // ---------------------------------------------------------------------------
  // What can go wrong, and the records the services return

  /** The exception that ends a call, as the generic `except Exception` branch sees it. */
  datatype Fault =
    | NoTeams                         // the services' own "no team data in the result"
    | HttpStatus(status: int, body: string)
    | KeyMissing(key: string)         // KeyError
    | WrongType                       // TypeError or AttributeError from a value of the wrong type
    | Raised(message: string)         // raised inside the HTTP client or the SDK

  const NoTeamsMessage: string := "ไม่พบข้อมูลทีมในผลลัพธ์"

  /** `str(e)` for the fault; `None` for Python's own TypeError and
      AttributeError texts, which are not part of this model. */
  function Message(f: Fault): (m: Option<string>)
    ensures m.None? <==> f.WrongType?
    ensures f.HttpStatus? ==> StartsWith(m.value, "API request failed with status ")
  {
    match f
    case NoTeams => Some(NoTeamsMessage)
    case HttpStatus(status, body) =>
      Some("API request failed with status " + IntToString(status) + ": " + body)
    case KeyMissing(key) => Some("'" + key + "'")
    case WrongType => None
    case Raised(message) => Some(message)
  }

  /** The dictionaries `generate_matchmaking` returns: the success record with
      exactly the keys teams, match, analysis and model_used; the JSON error
      record; and the record of any other exception. `debug_info` is absent
      from the Claude service's records. */
  datatype Record =
    | Matchmaking(teams: Json, matchSummary: Json, analysis: Json, modelUsed: string)
    | ParseError(error: string, rawResponse: Option<string>, debugInfo: Option<map<string, string>>, modelUsed: string)
    | Failed(fault: Fault, debugInfo: Option<map<string, string>>, modelUsed: string)

  const JsonErrorPrefix: string := "Could not parse AI response as JSON: "

  /** What the HTTP services learn from `requests.post`: either it raised, or
      a reply arrived with a status, a body and (when the status is 200) the
      generated text read out of the body's JSON. */
  datatype Reply =
    | Unreachable(message: string)
    | Delivered(status: int, body: string, text: Result<string, ReadFailure>)

  /** Why the generated text could not be read: the body is not JSON (the
      requests library raises a subclass of `json.JSONDecodeError`), or the
      JSON lacks the expected shape. */
  datatype ReadFailure =
    | BodyNotJson(detail: string)
    | BadShape(fault: Fault)

  // ---------------------------------------------------------------------------
  // Debug text and the raw-response excerpt

  const DebugLimit: nat := 200

  /** `s[:200] + "..." if len(s) > 200 else s`. */
  function Truncate(s: string): (r: string)
    ensures |r| <= DebugLimit + 3
    ensures |s| <= DebugLimit ==> r == s
    ensures |s| > DebugLimit ==> |r| == DebugLimit + 3 && r[..DebugLimit] == s[..DebugLimit] && EndsWith(r, "...")
  {
    if |s| > DebugLimit then s[..DebugLimit] + "..." else s
  }

  /** Truncating twice is truncating once. */
  lemma TruncateIdempotent(s: string)
    ensures Truncate(Truncate(s)) == Truncate(s)
  {
    if |s| > DebugLimit {
      var r := Truncate(s);
      assert r[..DebugLimit] == s[..DebugLimit];
      assert Truncate(r) == r[..DebugLimit] + "...";
    }
  }

  /** A dictionary of debug texts, each at most 203 characters long. */
  predicate DebugBounded(d: map<string, string>) {
    forall k | k in d :: |d[k]| <= DebugLimit + 3
  }

  /** The `debug_info` entries written so far: the raw text and the
      extracted JSON text, and the repaired text when the repair was tried,
      each truncated. */
  function DebugTexts(raw: string, cleaned: string, fixed: Option<string>): (d: map<string, string>)
    ensures DebugBounded(d)
    ensures "raw_response" in d && d["raw_response"] == Truncate(raw)
    ensures "cleaned_json" in d && d["cleaned_json"] == Truncate(cleaned)
    ensures "fixed_json" in d <==> fixed.Some?
    ensures fixed.Some? ==> d["fixed_json"] == Truncate(fixed.value)
    ensures d.Keys <= {"raw_response", "cleaned_json", "fixed_json"}
  {
    var d := map["raw_response" := Truncate(raw), "cleaned_json" := Truncate(cleaned)];
    if fixed.Some? then d["fixed_json" := Truncate(fixed.value)] else d
  }

  const NoResponse: string := "No response"

  /** `text[:1000] if text else "No response"`. */
  function Excerpt(text: string): (r: string)
    ensures 0 < |r| <= 1000
    ensures text == [] ==> r == NoResponse
    ensures text != [] ==> |r| == if |text| < 1000 then |text| else 1000
    ensures text != [] ==> r == text[..|r|]
  {
    if text == [] then NoResponse
    else if |text| > 1000 then text[..1000] else text
  }

  // ---------------------------------------------------------------------------
  // The Thai-script check on `analysis`

  /** A character of the Unicode Thai block, U+0E00 to U+0E7F. */
  predicate IsThai(c: char) {
    '\U{0E00}' <= c <= '\U{0E7F}'
  }

  /** Python's chained comparison of a string `c`, of any length, with the
      one-character strings U+0E00 and U+0E7F: strings compare
      lexicographically by code point. */
  predicate InThaiRange(c: string) {
    |c| > 0 && '\U{0E00}' <= c[0] && (c[0] < '\U{0E7F}' || c == "\U{0E7F}")
  }

  /** On one-character strings the lexicographic test is the block test. */
  lemma InThaiRangeOneChar(c: char)
    ensures InThaiRange([c]) <==> IsThai(c)
  {
  }

  predicate HasThai(s: string) {
    exists i | 0 <= i < |s| :: IsThai(s[i])
  }

  /** Whether the list of Thai items of `v` built by the check is non-empty:
      a string is iterated by characters, a list by its elements (each must
      be a string) and a dictionary by its keys. `None` where the iteration
      or a comparison raises a TypeError. */
  function ThaiItems(v: Json): (r: Option<bool>)
    ensures v.JStr? ==> r == Some(HasThai(v.s))
    ensures r.None? <==> v.JNull? || v.JBool? || v.JNum? || (v.JArr? && exists i | 0 <= i < |v.items| :: !v.items[i].JStr?)
  {
    match v
    case JStr(s) => Some(HasThai(s))
    case JArr(items) =>
      if forall i | 0 <= i < |items| :: items[i].JStr? then
        Some(exists i | 0 <= i < |items| :: InThaiRange(items[i].s))
      else None
    case JObj(fields) => Some(exists k | k in fields :: InThaiRange(k))
    case _ => None
  }

  /** The notice that replaces an analysis without Thai script (written in
      two pieces so that the verifier can see its first character). */
  const ThaiNotice: string := "ระบบ" + "ไม่สามารถวิเคราะห์เป็นภาษาไทยได้ กรุณาตรวจสอบ prompt อีกครั้ง"

  lemma ThaiNoticeIsThai()
    ensures ThaiItems(JStr(ThaiNotice)) == Some(true)
  {
    assert IsThai(ThaiNotice[0]);
  }

  /** An analysis that passes the check: absent, falsy, or with a Thai item. */
  predicate ThaiAnalysis(v: Json) {
    Truthy(v) ==> ThaiItems(v) == Some(true)
  }

  /** The check on `matchmaking_data["analysis"]`: a truthy analysis with no
      Thai item is overwritten with the notice; one whose items cannot be
      compared raises a TypeError. */
  function CheckAnalysis(data: map<string, Json>): (r: Result<map<string, Json>, Fault>)
    ensures r.Failure? <==> "analysis" in data && Truthy(data["analysis"]) && ThaiItems(data["analysis"]).None?
    ensures r.Failure? ==> r.error == WrongType
    ensures r.Success? ==> r.value.Keys == data.Keys
    ensures r.Success? ==> forall k | k in data && k != "analysis" :: r.value[k] == data[k]
    ensures "analysis" !in data || ThaiAnalysis(data["analysis"]) ==> r == Success(data)
    ensures "analysis" in data && Truthy(data["analysis"]) && ThaiItems(data["analysis"]) == Some(false)
        ==> r == Success(data["analysis" := JStr(ThaiNotice)])
  {
    if "analysis" in data && Truthy(data["analysis"]) then
      match ThaiItems(data["analysis"])
      case None => Failure(WrongType)
      case Some(found) => if found then Success(data) else Success(data["analysis" := JStr(ThaiNotice)])
    else Success(data)
  }

  /** After the check a present analysis is falsy or holds Thai script; in
      particular a non-empty string analysis holds a Thai character. */
  lemma CheckAnalysisGuaranteesThai(data: map<string, Json>)
    requires CheckAnalysis(data).Success?
    ensures "analysis" in CheckAnalysis(data).value
        ==> ThaiAnalysis(CheckAnalysis(data).value["analysis"])
    ensures "analysis" in data && data["analysis"].JStr? && data["analysis"].s != []
        ==> HasThai(CheckAnalysis(data).value["analysis"].s)
  {
    ThaiNoticeIsThai();
  }

  /** The check changes nothing the second time. */
  lemma CheckAnalysisIdempotent(data: map<string, Json>)
    requires CheckAnalysis(data).Success?
    ensures CheckAnalysis(CheckAnalysis(data).value) == CheckAnalysis(data)
  {
    CheckAnalysisGuaranteesThai(data);
  }

  // ---------------------------------------------------------------------------
  // Shaping the result and the two-team check

  /** The success record, with the `.get` defaults `[]`, `{}` and `""`. */
  function Shape(data: map<string, Json>, model: string): (r: Record)
    ensures r.Matchmaking? && r.modelUsed == model
    ensures r.teams == Get(data, "teams", JArr([]))
    ensures r.matchSummary == Get(data, "match", JObj(map[]))
    ensures r.analysis == Get(data, "analysis", JStr(""))
  {
    Matchmaking(Get(data, "teams", JArr([])), Get(data, "match", JObj(map[])), Get(data, "analysis", JStr("")), model)
  }

  /** `if not teams or len(teams) < 2: raise Exception(...)`: the fault that
      ends the call, if any. */
  function TeamCheck(teams: Json): (f: Option<Fault>)
    ensures f.None? <==> Len(teams).Some? && Len(teams).value >= 2
    ensures f.Some? ==> f.value == NoTeams || f.value == WrongType
    ensures f == Some(WrongType) <==> Truthy(teams) && Len(teams).None?
  {
    if !Truthy(teams) then Some(NoTeams)
    else match Len(teams)
      case None => Some(WrongType)
      case Some(n) => if n < 2 then Some(NoTeams) else None
  }

  /** From the parsed value to the outcome: `.get` on a value that is not a
      dictionary raises an AttributeError; otherwise the record is shaped
      and, when `checkTeams`, must hold at least two teams. */
  function Conclude(data: Json, model: string, checkTeams: bool): (r: Result<Record, Fault>)
    ensures r.Success? <==> data.JObj? && (checkTeams ==> TeamCheck(Get(data.fields, "teams", JArr([]))).None?)
    ensures r.Success? ==> r.value == Shape(data.fields, model)
    ensures r.Failure? && !data.JObj? ==> r.error == WrongType
    ensures r.Failure? && data.JObj? ==> Some(r.error) == TeamCheck(Get(data.fields, "teams", JArr([])))
  {
    match data
    case JObj(fields) =>
      var record := Shape(fields, model);
      if checkTeams && TeamCheck(record.teams).Some? then Failure(TeamCheck(record.teams).value)
      else Success(record)
    case _ => Failure(WrongType)
  }

  /** Under the team check a success record holds at least two teams, and a
      reply without a `teams` key (which defaults to `[]`) never succeeds. */
  lemma TeamCheckedSuccess(data: Json, model: string)
    ensures Conclude(data, model, true).Success? ==> Len(Conclude(data, model, true).value.teams).value >= 2
    ensures data.JObj? && "teams" !in data.fields ==> Conclude(data, model, true) == Failure(NoTeams)
  {
  }
}

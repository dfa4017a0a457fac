/** `HuggingFaceService.generate_matchmaking`: normalise the players, ask the
    hosted Mistral model, salvage JSON from the generated text (extraction,
    then one repair attempt), insist on Thai script in the analysis and on at
    least two teams, and report every failure as a record. The HTTP round
    trip is the parameter `ask`, applied to the `player_info` text that is the
    variable part of the prompt; `json.loads` is the parameter `loads`. */
module HuggingFace {
  import opened Wrappers
  import opened Results
  import opened Players
  import Extract
  import Repair

  const Model: string := "mistralai/Mistral-7B-Instruct-v0.2"

  /** The nested try: parse the extracted text and, on a decode error, parse
      its repaired form; a second decode error propagates. */
  function Decode(jsonText: string, loads: string -> Result<Json, string>): (r: Result<Json, string>)
    ensures loads(jsonText).Success? ==> r == loads(jsonText)
    ensures r.Failure? <==> loads(jsonText).Failure? && loads(Repair.FixJson(jsonText)).Failure?
    ensures loads(jsonText).Failure? ==> r == loads(Repair.FixJson(jsonText))
  {
    if loads(jsonText).Success? then loads(jsonText) else loads(Repair.FixJson(jsonText))
  }

  /** `debug_info` once the parse has been attempted: each stage's text,
      truncated, with `fixed_json` present exactly when the repair was tried. */
  function Debug(text: string, loads: string -> Result<Json, string>): (d: map<string, string>)
    ensures "fixed_json" in d <==> loads(Extract.CleanJsonText(text)).Failure?
  {
    var jsonText := Extract.CleanJsonText(text);
    DebugTexts(text, jsonText, if loads(jsonText).Success? then None else Some(Repair.FixJson(jsonText)))
  }

  /** From the parsed value to the outcome: the Thai check on `analysis`,
      the success record, and the two-team check. A success holds at least
      two teams and an analysis that is falsy or carries Thai script. */
  function Finish(data: Json): (r: Result<Record, Fault>)
    ensures r.Success? ==> r.value.Matchmaking? && r.value.modelUsed == Model
    ensures r.Success? ==> Len(r.value.teams).Some? && Len(r.value.teams).value >= 2
    ensures r.Success? ==> ThaiAnalysis(r.value.analysis)
    ensures !data.JObj? ==> r == Failure(WrongType)
    ensures data.JObj? && ("analysis" !in data.fields || ThaiAnalysis(data.fields["analysis"]))
        ==> r == Conclude(data, Model, true)
    ensures data.JObj? && CheckAnalysis(data.fields).Failure? ==> r == Failure(WrongType)
    ensures data.JObj? && CheckAnalysis(data.fields).Success?
        ==> r == Conclude(JObj(CheckAnalysis(data.fields).value), Model, true)
  {
    match data
    case JObj(fields) =>
      (match CheckAnalysis(fields)
       case Failure(f) => Failure(f)
       case Success(checked) =>
         CheckAnalysisGuaranteesThai(fields);
         Conclude(JObj(checked), Model, true))
    case _ => Failure(WrongType)
  }

  /** What the service returns once the generated text is in hand. The
      record names the model; a success holds at least two teams and a Thai
      (or falsy) analysis; an error record keeps at most 1000 characters of
      the text, and the debug texts of every stage reached. */
  function Outcome(text: string, loads: string -> Result<Json, string>): (rec: Record)
    ensures rec.modelUsed == Model
    ensures rec.Matchmaking? ==> Len(rec.teams).Some? && Len(rec.teams).value >= 2 && ThaiAnalysis(rec.analysis)
    ensures rec.ParseError? ==> rec.rawResponse == Some(Excerpt(text))
    ensures !rec.Matchmaking? ==> rec.debugInfo == Some(Debug(text, loads))
    ensures var d := Decode(Extract.CleanJsonText(text), loads);
      (rec.ParseError? <==> d.Failure?) && (d.Failure? ==> rec.error == JsonErrorPrefix + d.error)
    ensures var d := Decode(Extract.CleanJsonText(text), loads);
      d.Success? ==>
        && (rec.Matchmaking? <==> Finish(d.value).Success?)
        && (rec.Matchmaking? ==> rec == Finish(d.value).value)
        && (rec.Failed? ==> rec.fault == Finish(d.value).error)
  {
    match Decode(Extract.CleanJsonText(text), loads)
    case Failure(e) => ParseError(JsonErrorPrefix + e, Some(Excerpt(text)), Some(Debug(text, loads)), Model)
    case Success(data) =>
      match Finish(data)
      case Success(result) => result
      case Failure(f) => Failed(f, Some(Debug(text, loads)), Model)
  }

  /** A parsed object whose `teams` key is missing never yields a success:
      it ends as the no-teams error record unless the Thai check raised first. */
  lemma MissingTeamsFails(text: string, loads: string -> Result<Json, string>)
    requires Decode(Extract.CleanJsonText(text), loads).Success?
    requires var data := Decode(Extract.CleanJsonText(text), loads).value;
      data.JObj? && "teams" !in data.fields
    ensures !Outcome(text, loads).Matchmaking?
    ensures CheckAnalysis(Decode(Extract.CleanJsonText(text), loads).value.fields).Success? ==>
      Outcome(text, loads) == Failed(NoTeams, Some(Debug(text, loads)), Model)
  {
    var data := Decode(Extract.CleanJsonText(text), loads).value;
    var checked := CheckAnalysis(data.fields);
    if checked.Success? {
      TeamCheckedSuccess(JObj(checked.value), Model);
    }
  }

  /** The parse attempts after the generated text arrives, with
      `debug_info` filled stage by stage. */
  method Attempt(text: string, loads: string -> Result<Json, string>)
    returns (parsed: Result<Json, string>, debug: map<string, string>)
    ensures parsed == Decode(Extract.CleanJsonText(text), loads)
    ensures debug == Debug(text, loads)
  {
    debug := map[];
    debug := debug["raw_response" := Truncate(text)];
    var jsonText := Extract.CleanJsonText(text);
    debug := debug["cleaned_json" := Truncate(jsonText)];
    parsed := loads(jsonText);
    if parsed.Failure? {
      var fixed := Repair.FixJson(jsonText);
      debug := debug["fixed_json" := Truncate(fixed)];
      parsed := loads(fixed);
    }
  }

  /** The Thai check on `matchmaking_data`: a truthy analysis without Thai
      script is overwritten in place with the notice. */
  method OverwriteAnalysis(data: map<string, Json>) returns (r: Result<map<string, Json>, Fault>)
    ensures r == CheckAnalysis(data)
  {
    var fields := data;
    if "analysis" in fields && Truthy(fields["analysis"]) {
      var found := ThaiItems(fields["analysis"]);
      if found.None? {
        return Failure(WrongType);
      }
      if !found.value {
        fields := fields["analysis" := JStr(ThaiNotice)];
      }
    }
    return Success(fields);
  }

  /** From the parsed value to the result: the Thai check, the result
      dictionary and the team check. */
  method Settle(data: Json) returns (r: Result<Record, Fault>)
    ensures r == Finish(data)
  {
    if !data.JObj? {
      return Failure(WrongType);
    }
    var checked := OverwriteAnalysis(data.fields);
    if checked.Failure? {
      return Failure(checked.error);
    }
    var result := Shape(checked.value, Model);
    var missing := TeamCheck(result.teams);
    if missing.Some? {
      return Failure(missing.value);
    }
    return Success(result);
  }

  /** The part of `generate_matchmaking` after the generated text arrives:
      the parse and repair attempts, the overwrite of a non-Thai analysis,
      the result and the team check. */
  method Salvage(text: string, loads: string -> Result<Json, string>) returns (rec: Record)
    ensures rec == Outcome(text, loads)
  {
    var parsed, debug := Attempt(text, loads);
    if parsed.Failure? {
      return ParseError(JsonErrorPrefix + parsed.error, Some(Excerpt(text)), Some(debug), Model);
    }
    var finished := Settle(parsed.value);
    if finished.Failure? {
      return Failed(finished.error, Some(debug), Model);
    }
    return finished.value;
  }

  /** `generate_matchmaking(room_data)`, where `players` is
      `room_data['players']` (`None` when the key is missing). Every failure
      before the text arrives leaves `debug_info` empty. */
  method GenerateMatchmaking(players: Option<seq<RawPlayer>>, ask: string -> Reply, loads: string -> Result<Json, string>)
    returns (rec: Record)
    ensures rec.modelUsed == Model
    ensures rec.Matchmaking? ==> Len(rec.teams).Some? && Len(rec.teams).value >= 2 && ThaiAnalysis(rec.analysis)
    ensures players.None? ==> rec == Failed(KeyMissing("players"), Some(map[]), Model)
    ensures players.Some? && NormalizeAll(players.value).Failure? ==>
      rec == Failed(NormalizeAll(players.value).error, Some(map[]), Model)
    ensures players.Some? && NormalizeAll(players.value).Success? ==>
      match ask(PlayerInfo(NormalizeAll(players.value).value))
      case Unreachable(m) => rec == Failed(Raised(m), Some(map[]), Model)
      case Delivered(status, body, read) =>
        if status != 200 then rec == Failed(HttpStatus(status, body), Some(map[]), Model)
        else match read
          case Failure(BodyNotJson(detail)) => rec == ParseError(JsonErrorPrefix + detail, Some(NoResponse), Some(map[]), Model)
          case Failure(BadShape(f)) => rec == Failed(f, Some(map[]), Model)
          case Success(text) => rec == Outcome(text, loads)
  {
    if players.None? {
      return Failed(KeyMissing("players"), Some(map[]), Model);
    }
    var list := NormalizePlayers(players.value);
    if list.Failure? {
      return Failed(list.error, Some(map[]), Model);
    }
    var reply := ask(PlayerInfo(list.value));
    if reply.Unreachable? {
      return Failed(Raised(reply.message), Some(map[]), Model);
    }
    if reply.status != 200 {
      return Failed(HttpStatus(reply.status, reply.body), Some(map[]), Model);
    }
    match reply.text
    case Failure(BodyNotJson(detail)) =>
      rec := ParseError(JsonErrorPrefix + detail, Some(Excerpt("")), Some(map[]), Model);
    case Failure(BadShape(f)) =>
      rec := Failed(f, Some(map[]), Model);
    case Success(text) =>
      rec := Salvage(text, loads);
  }
}

/** `ClaudeService.generate_matchmaking`: the player list is built before
    the `try` (so a missing key escapes to the caller), the SDK's reply text
    loses a surrounding code fence, and the parsed object is shaped with no
    team-count check. Its error records carry no `debug_info`. */
module Claude {
  import opened Wrappers
  import opened Text
  import opened Results
  import opened Players
  import opened Extract

  const Model: string := "claude-3-5-sonnet-20240620"

  const ParseFailure: string := "Could not parse AI response as JSON"

  /** What `client.messages.create` gives: the text of the reply's first
      content block, or an exception, told apart by whether it is a JSON
      decode error. */
  datatype SdkReply =
    | Answered(text: string)
    | RaisedDecode(detail: string)
    | RaisedOther(message: string)

  // ---------------------------------------------------------------------------
  // Fence stripping

  /** `s.replace(pat, '', 1)`: the first occurrence of `pat` removed. */
  function ReplaceFirst(s: string, pat: string): (r: string)
    ensures FindFrom(s, pat, 0).None? ==> r == s
    ensures FindFrom(s, pat, 0).Some? ==> |r| == |s| - |pat|
  {
    match FindFrom(s, pat, 0)
    case None => s
    case Some(i) => s[..i] + s[i + |pat|..]
  }

  /** On a text that starts with `pat`, the first occurrence is the prefix. */
  lemma ReplaceFirstPrefix(s: string, pat: string)
    requires StartsWith(s, pat)
    ensures ReplaceFirst(s, pat) == s[|pat|..]
  {
    FindFromFirst(s, pat, 0, 0);
    assert s[..0] + s[|pat|..] == s[|pat|..];
  }

  /** `s[:-3] if s.endswith('```') else s`. */
  function DropClosingFence(s: string): (r: string)
    ensures EndsWith(s, Fence) ==> r == s[..|s| - 3]
    ensures !EndsWith(s, Fence) ==> r == s
  {
    if EndsWith(s, Fence) then s[..|s| - 3] else s
  }

  /** Removing an opening fence and then a closing one leaves a slice. */
  lemma OpenerRemovedIsSlice(s: string, pat: string)
    requires StartsWith(s, pat)
    ensures IsSlice(DropClosingFence(ReplaceFirst(s, pat)), s)
  {
    ReplaceFirstPrefix(s, pat);
    var u := s[|pat|..];
    if EndsWith(u, Fence) {
      assert u[..|u| - 3] == s[|pat|..|s| - 3];
    } else {
      assert u == s[|pat|..|s|];
    }
  }

  /** "```json" begins with "```". */
  lemma JsonFenceIsFenced(s: string)
    ensures StartsWith(s, JsonFence) ==> StartsWith(s, Fence)
  {
    if StartsWith(s, JsonFence) {
      assert s[..3] == s[..7][..3];
    }
  }

  /** The conditional rebinding of `result_text`: drop an opening "```json"
      or "```" (the first occurrence, which is the prefix) and then a
      closing "```". Only the ends are cut, and a text that does not open
      with a fence is left alone. */
  function Unfence(s: string): (r: string)
    ensures IsSlice(r, s)
    ensures !StartsWith(s, Fence) ==> r == s
  {
    JsonFenceIsFenced(s);
    if StartsWith(s, JsonFence) then
      OpenerRemovedIsSlice(s, JsonFence);
      DropClosingFence(ReplaceFirst(s, JsonFence))
    else if StartsWith(s, Fence) then
      OpenerRemovedIsSlice(s, Fence);
      DropClosingFence(ReplaceFirst(s, Fence))
    else
      assert s == s[0..|s|];
      s
  }

  /** `result_text` from the reply text: strip, unfence, strip again. Whatever
      the reply, the parsed text is a contiguous piece of it with no
      whitespace at either end. */
  function StripFences(raw: string): (r: string)
    ensures Trimmed(r) && IsSlice(r, raw)
  {
    var s := Strip(raw);
    StripIsSlice(raw);
    StripIsSlice(Unfence(s));
    SliceOfSlice(Strip(Unfence(s)), Unfence(s), s);
    SliceOfSlice(Strip(Unfence(s)), s, raw);
    Strip(Unfence(s))
  }

  /** An opener, a body and a closing fence leave the body. */
  lemma FencedBody(s: string, pat: string, b: string)
    requires s == pat + b + Fence
    ensures DropClosingFence(ReplaceFirst(s, pat)) == b
  {
    assert s[..|pat|] == pat;
    ReplaceFirstPrefix(s, pat);
    var u := s[|pat|..];
    assert u == b + Fence;
    assert u[|b|..] == Fence;
    assert u[..|b|] == b;
  }

  /** A reply that is "```json" + b + "```" after stripping yields `strip(b)`. */
  lemma JsonFencedReply(raw: string, b: string)
    requires Strip(raw) == JsonFence + b + Fence
    ensures StripFences(raw) == Strip(b)
  {
    var s := Strip(raw);
    assert s[..7] == JsonFence;
    FencedBody(s, JsonFence, b);
  }

  /** A reply that is "```" + b + "```" after stripping, not opened by
      "```json", yields `strip(b)`: both three-character fences go. */
  lemma PlainFencedReply(raw: string, b: string)
    requires Strip(raw) == Fence + b + Fence
    requires !StartsWith(Strip(raw), JsonFence)
    ensures StripFences(raw) == Strip(b)
  {
    var s := Strip(raw);
    assert s[..3] == Fence;
    FencedBody(s, Fence, b);
  }

  /** A reply that does not start with a fence is only stripped. */
  lemma UnfencedReply(raw: string)
    requires !StartsWith(Strip(raw), Fence)
    ensures StripFences(raw) == Strip(raw)
  {
    StripIdempotent(raw);
  }

  /** An opening fence with no closing fence loses only the opener. */
  lemma UnclosedFenceReply(raw: string)
    requires StartsWith(Strip(raw), Fence) && !StartsWith(Strip(raw), JsonFence)
    requires !EndsWith(Strip(raw)[3..], Fence)
    ensures StripFences(raw) == Strip(Strip(raw)[3..])
  {
    ReplaceFirstPrefix(Strip(raw), Fence);
  }

  // ---------------------------------------------------------------------------
  // The reply and the record

  /** What the service returns for a reply: a JSON decode error, raised by
      the SDK call or by parsing the reply, gives the fixed message, with the
      raw reply text exactly when a reply arrived; any other exception gives
      its message; a parsed object gives a success record, however few teams
      it holds, and any other parsed value a type error; nothing carries debug
      information. */
  function Outcome(reply: SdkReply, loads: string -> Result<Json, string>): (rec: Record)
    ensures rec.modelUsed == Model
    ensures !rec.Matchmaking? ==> rec.debugInfo.None?
    ensures rec.ParseError? <==> reply.RaisedDecode? || (reply.Answered? && loads(StripFences(reply.text)).Failure?)
    ensures rec.ParseError? ==> rec.error == ParseFailure
    ensures rec.ParseError? ==> (rec.rawResponse.Some? <==> reply.Answered?)
    ensures rec.ParseError? && reply.Answered? ==> rec.rawResponse == Some(reply.text)
    ensures reply.RaisedOther? ==> rec == Failed(Raised(reply.message), None, Model)
    ensures reply.Answered? && loads(StripFences(reply.text)).Success? && loads(StripFences(reply.text)).value.JObj?
        ==> rec == Shape(loads(StripFences(reply.text)).value.fields, Model)
    ensures reply.Answered? && loads(StripFences(reply.text)).Success? && !loads(StripFences(reply.text)).value.JObj?
        ==> rec == Failed(WrongType, None, Model)
  {
    match reply
    case RaisedDecode(_) => ParseError(ParseFailure, None, None, Model)
    case RaisedOther(m) => Failed(Raised(m), None, Model)
    case Answered(text) =>
      match loads(StripFences(text))
      case Failure(_) => ParseError(ParseFailure, Some(text), None, Model)
      case Success(data) =>
        match Conclude(data, Model, false)
        case Success(result) => result
        case Failure(f) => Failed(f, None, Model)
  }

  /** `generate_matchmaking(room_data)`. A missing `players` key or a player
      without `id`, `name` or `skill` raises out of the method (`Failure`);
      otherwise a record comes back. */
  method GenerateMatchmaking(players: Option<seq<RawPlayer>>, ask: string -> SdkReply, loads: string -> Result<Json, string>)
    returns (outcome: Result<Record, Fault>)
    ensures players.None? ==> outcome == Failure(KeyMissing("players"))
    ensures players.Some? ==> match NormalizeAll(players.value)
      case Failure(f) => outcome == Failure(f)
      case Success(list) => outcome == Success(Outcome(ask(PlayerInfo(list)), loads))
  {
    if players.None? {
      return Failure(KeyMissing("players"));
    }
    var list := NormalizePlayers(players.value);
    if list.Failure? {
      return Failure(list.error);
    }
    var reply := ask(PlayerInfo(list.value));
    var response: Option<string> := None;
    match reply
    case RaisedOther(m) =>
      return Success(Failed(Raised(m), None, Model));
    case RaisedDecode(_) =>
      return Success(ParseError(ParseFailure, response, None, Model));
    case Answered(text) =>
      response := Some(text);
      var resultText := StripFences(text);
      var parsed := loads(resultText);
      if parsed.Failure? {
        return Success(ParseError(ParseFailure, response, None, Model));
      }
      var data := parsed.value;
      if !data.JObj? {
        return Success(Failed(WrongType, None, Model));
      }
      return Success(Shape(data.fields, Model));
  }
}

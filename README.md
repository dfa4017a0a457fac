# Text salvage in the badminton matchmaking services

The backend asks a language model to pair four players into two balanced
doubles teams and expects a JSON object back. Three near-identical service
classes do this: `HuggingFaceService` (Mistral 7B over the Hugging Face
inference API), `OllamaService` (gemma3 on a local Ollama server) and
`ClaudeService` (the Anthropic SDK). Each one does the following:

- builds a normalised player list and one prompt line per player;
- sends the prompt;
- salvages a JSON object from the model's free-text reply;
- shapes it into a result record, or returns an error record.

This project models that salvage layer in Dafny and proves what it does.

- `Text`: Python's whitespace class, which the model uses both for `\s` and
  for `str.strip`. It also holds `strip`, substring search, `split`/`join`
  on one character, character deletion (`str.replace(c, '')`) and
  subsequences.
- `Extract`: `clean_json_text` as a cascade over explicit scans.
  - The scans are the "```json" fence, any "```" fence, the first-`{`-to-last-`}`
    span, and finally the stripped input.
  - Each scan is proved to return the match that Python's backtracking
    `re.search` reports: leftmost first, with greedy and lazy runs
    honoured.
- `Repair`: `fix_json`'s five `re.sub` rewrites, each as one rule and one
  recursive left-to-right substitution scan. They turn single-quoted keys
  and values into double-quoted strings (RFC 8259, section 7), drop
  trailing commas before `}` and `]`, and remove `//` comments.
- `Results`:
  - the parsed JSON value, with Python truthiness and `len`;
  - the exceptions that can end a call;
  - the success record and the two error records;
  - debug truncation and the `raw_response` excerpt;
  - the Thai-script check on `analysis`;
  - the result shaping with its `.get` defaults;
  - the "at least two teams" check.
- `Players`: the normalisation loop over `room_data['players']` and the
  `player_info` prompt lines.
- `HuggingFace`, `Ollama`, `Claude`: each service's `generate_matchmaking`.
  It is an imperative method proved equal to a function of its inputs, and
  the properties the service promises are proved about that function.
  - Ollama's `clean_json_text` adds a backwards scan over the lines. The
    scan is proved never to change the answer.
  - Ollama's `fix_json` also deletes line breaks.
  - Ollama has one more decode retry.
  - Claude strips code fences from the reply itself and has no team-count
    check.

The network round trip is a parameter. For the two HTTP services it is a
function from the `player_info` text to a `Reply`: either the request
raised, or a status, a body and the generated text read out of the body.
For the Claude service it is a function to an `SdkReply`. `json.loads` is
an opaque parameter `loads: string -> Result<Json, string>` whose failure
carries `str(e)`.

## Model

| member | source | states |
|---|---|---|
| Extract.FenceSearch | myapp/services/huggingface_service.py:28-34 | What the fence scan returns is a match of `opener\s*([\s\S]*?)\s*````, and a non-empty group neither starts nor ends with whitespace. |
| Extract.FenceSearchIsFirstMatch | myapp/services/huggingface_service.py:28-34 | The fence scan finds a match exactly when `opener\s*([\s\S]*?)\s*```` matches somewhere. What it returns is a match, and it comes before every other match in backtracking order: leftmost opener, longest leading blanks, shortest lazy group. |
| Extract.BraceSearch | myapp/services/huggingface_service.py:38-39 | What the brace scan returns is a span that starts with `{` and ends with `}`. |
| Extract.BraceSearchIsFirstMatch | myapp/services/huggingface_service.py:39 | The brace scan finds a span exactly when some `{`…`}` span exists. Among all spans it returns the leftmost `{` with the longest reach, as the greedy `(\{[\s\S]*\})` does. |
| Extract.FirstExtraction | myapp/services/huggingface_service.py:26-41 | A piece found by the fences or the brace span has no whitespace at either end. Nothing is found only when the brace scan found nothing. |
| Extract.CleanJsonText | myapp/services/huggingface_service.py:20-44 | The cleaned text never has whitespace at either end. Its other properties are the lemmas below. |
| Extract.CleanJsonTextShape | myapp/services/huggingface_service.py:20-44 | Whichever branch fires, the result is a contiguous piece of the input with no whitespace at either end. |
| Extract.JsonFenceResult | myapp/services/huggingface_service.py:27-30 | When the first "```json" is followed by a "```", the result is the stripped text between that opener and the next fence. |
| Extract.BraceResult | myapp/services/huggingface_service.py:38-41 | With no backtick and a `}` after the first `{`, the result is exactly the slice from the first `{` to the last `}`, so it starts with `{` and ends with `}`. |
| Extract.StrippedGap | myapp/services/huggingface_service.py:28-30 | A piece with no whitespace at either end, lying between two whitespace runs, is already stripped and is the stripped text of the whole gap. This is why the lazy group of a fence match equals the stripped text between opener and fence. |
| Extract.FallbackResult | myapp/services/huggingface_service.py:43-44 | With no backtick and no `{` followed by a `}`, the result is the stripped input. |
| Repair.Substitute | myapp/services/huggingface_service.py:51-59 | `re.sub` with the trailing-comma or comment rule never makes the text longer. The lemmas below state what each rule rewrites. |
| Repair.DeletingRuleIsSubsequence | myapp/services/huggingface_service.py:55-59 | The trailing-comma and comment rewrites only delete characters. Each output is a subsequence of its input and no longer. |
| Repair.FixJsonDeletesWithoutQuotes | myapp/services/huggingface_service.py:46-61 | On input with no single quote, `fix_json`'s output is a subsequence of its input and never longer. |
| Repair.FixJson | myapp/services/huggingface_service.py:46-61 | Text with no single quote, no comma and no `//` passes through `fix_json` unchanged. |
| Repair.InertUnchanged | myapp/services/huggingface_service.py:51-59 | A rule whose trigger character (a quote, a comma or `//`) is absent leaves the text unchanged. |
| Repair.LineCommentKeepsLineBreaks | myapp/services/huggingface_service.py:59 | Comment removal keeps the number of line breaks. |
| Repair.NoLineBreakUnchanged | myapp/services/huggingface_service.py:59 | Comment removal leaves a text with no line break unchanged, so a `//` on a last line without a break stays. |
| Repair.LastLineUntouched | myapp/services/huggingface_service.py:59 | The text after the last line break comes out of comment removal unchanged, whatever precedes it. |
| Repair.QuotedKeyRewritten | myapp/services/huggingface_service.py:51 | `'key':` and blanks becomes `"key": `. The scan resumes after the blanks. |
| Repair.QuotedValueRewritten | myapp/services/huggingface_service.py:52 | `:`, blanks and `'value'` becomes `: "value"`. The scan resumes after the closing quote. |
| Results.Len | myapp/services/huggingface_service.py:230 | `len` is defined exactly on strings, lists and dictionaries. Where it is defined, the value is truthy exactly when its length is positive. |
| Results.Truncate | myapp/services/huggingface_service.py:200 | A debug text of at most 200 characters is kept as is. A longer one becomes its first 200 characters followed by "...", so it is at most 203 long. |
| Results.TruncateIdempotent | myapp/services/huggingface_service.py:200 | Truncating a debug text twice is the same as truncating it once. |
| Results.DebugTexts | myapp/services/huggingface_service.py:200-211 | `debug_info` holds the truncated raw and cleaned texts. It holds `fixed_json` exactly when the repair was tried, has no other keys, and every value is at most 203 long. |
| Results.Excerpt | myapp/services/ollama_service.py:199 | `raw_response` is the first 1000 characters of a non-empty text and "No response" for an empty one. |
| Results.Message | myapp/services/huggingface_service.py:197 | A non-200 status becomes an error text that starts "API request failed with status ". Every fault except a Python type error has a message. |
| Results.InThaiRangeOneChar | myapp/services/huggingface_service.py:217 | On one-character strings, the chained string comparison is exactly the U+0E00 to U+0E7F block test. |
| Results.ThaiItems | myapp/services/huggingface_service.py:217 | A string analysis has Thai items exactly when it holds a Thai character. The comprehension raises exactly on a null, boolean or number, or on a list holding a non-string. |
| Results.ThaiNoticeIsThai | myapp/services/huggingface_service.py:220 | The replacement notice itself passes the Thai check. |
| Results.CheckAnalysis | myapp/services/huggingface_service.py:214-220 | The check raises exactly on a truthy analysis whose items cannot be compared. A truthy analysis without Thai items is replaced by the Thai notice. It changes no key other than `analysis`. An absent analysis, or one that already passes, is left unchanged. |
| Results.CheckAnalysisGuaranteesThai | myapp/services/huggingface_service.py:214-220 | After the check, a present analysis is falsy or has a Thai item. A non-empty string analysis holds a Thai character. |
| Results.CheckAnalysisIdempotent | myapp/services/huggingface_service.py:214-220 | Running the check twice is the same as running it once. |
| Results.Shape | myapp/services/claude_service.py:128-133 | The success record holds `teams`, `match` and `analysis` from the parsed object, with the defaults `[]`, `{}` and `""`, plus the model name. |
| Results.TeamCheck | myapp/services/huggingface_service.py:229-231 | The check passes exactly when `len(teams) >= 2`. It raises the no-teams error on a falsy value or a short one, and a type error on a truthy value without `len`. |
| Results.Conclude | myapp/services/ollama_service.py:182-191 | A parsed value gives a success exactly when it is an object and, where the service checks teams, holds at least two. A non-object raises a type error. A failed team check reports the check's fault. |
| Results.TeamCheckedSuccess | myapp/services/ollama_service.py:182-191 | Under the team check, a success holds at least two teams, and an object without `teams` (which defaults to `[]`) gives the no-teams error. |
| Players.NormalizePlayer | myapp/services/huggingface_service.py:73-80 | `id`, `name` and `skill` are required, and the first missing one is the KeyError. `join_time` defaults to `''` and the two counts to 0. Present values are copied. |
| Players.NormalizeAll | myapp/services/ollama_service.py:80-89 | On success the list has the input's length and order, entry by entry. On failure the error is that of the first player missing a required key. |
| Players.NormalizeAllSucceeds | myapp/services/ollama_service.py:80-89 | The list is built exactly when every player has the required keys. |
| Players.NormalizePlayers | myapp/services/claude_service.py:15-24 | The appending loop produces the specified list, or the first KeyError. |
| Players.PlayerLine | myapp/services/huggingface_service.py:83 | Each prompt line starts with "Player " and ends with ")". |
| Players.PlayerInfo | myapp/services/huggingface_service.py:82-85 | `player_info` is empty exactly when there are no players, and otherwise starts with the first player's line. |
| Players.PlayerLineSingle | myapp/services/ollama_service.py:92 | A player line holds no line break when none of its printed fields does. |
| Players.PlayerInfoLines | myapp/services/ollama_service.py:91-94 | Splitting `player_info` at line breaks gives back one line per player, in order, when no printed field holds a line break. With no players it is empty. |
| HuggingFace.Decode | myapp/services/huggingface_service.py:206-211 | A first successful parse is kept. Otherwise the result is exactly the parse of the repaired text, whether it succeeds or raises the second decode error. The result fails exactly when both parses fail. |
| HuggingFace.Debug | myapp/services/huggingface_service.py:200-211 | `fixed_json` is recorded exactly when the first parse failed. |
| HuggingFace.Finish | myapp/services/huggingface_service.py:214-231 | A success holds at least two teams and a Thai (or falsy) analysis. A non-object raises a type error, and so does an analysis the Thai check cannot read. Otherwise the result is the checked object, with a truthy non-Thai analysis replaced by the notice, shaped and team-checked. |
| HuggingFace.Outcome | myapp/services/huggingface_service.py:199-247 | The record names the model. It is the JSON-error record exactly when the decode fails, with the JSON-error prefix followed by the decode error as its message. After a successful decode, a success record comes back exactly when Finish succeeds, and it is Finish's record; otherwise the error record carries Finish's fault. A success holds at least two teams and a Thai or falsy analysis. A JSON error keeps the `raw_response` excerpt, and every error record carries the debug texts of the stages reached. |
| HuggingFace.MissingTeamsFails | myapp/services/huggingface_service.py:222-231 | A parsed object without `teams` never gives a success. It gives the no-teams error unless the Thai check raised first. |
| HuggingFace.Attempt | myapp/services/huggingface_service.py:199-211 | The stage-by-stage `debug_info` writes and the one retry give the specified decode result and exactly the specified debug map. |
| HuggingFace.OverwriteAnalysis | myapp/services/huggingface_service.py:214-220 | The in-place overwrite of a non-Thai analysis gives the specified check. |
| HuggingFace.Settle | myapp/services/huggingface_service.py:213-231 | The Thai check, the result dictionary and the team check give the specified finish. |
| HuggingFace.Salvage | myapp/services/huggingface_service.py:199-247 | The parse attempts, the in-place overwrite of `analysis`, the result and the team check compute the specified outcome. |
| HuggingFace.GenerateMatchmaking | myapp/services/huggingface_service.py:63-247 | For every reply it gives the record the service returns. A missing key, an unreachable server, a non-200 status or an unreadable body gives an error record with empty debug info, and a success holds at least two teams and a Thai or falsy analysis. |
| Ollama.LastBraceLine | myapp/services/ollama_service.py:43-47 | What the scan reports is a stripped line that starts with `{` and ends with `}`. |
| Ollama.NoBraceLineInit | myapp/services/ollama_service.py:43-47 | A list of lines has no brace line exactly when its last line is not one and the earlier lines have none, the step of the backwards scan. |
| Ollama.LastBraceLineNone | myapp/services/ollama_service.py:43-47 | The backwards line scan finds nothing exactly when no stripped line starts with `{` and ends with `}`. |
| Ollama.LastBraceLineSome | myapp/services/ollama_service.py:43-47 | When the scan finds a line, it is the stripped form of the last brace line. |
| Ollama.ScanLines | myapp/services/ollama_service.py:43-47 | The reversed loop returns the specified last brace line. |
| Ollama.CleanWithLineScan | myapp/services/ollama_service.py:21-50 | The cascade followed by the line scan never leaves whitespace at either end. |
| Ollama.CleanJsonText | myapp/services/ollama_service.py:21-50 | The service's `clean_json_text` computes the cascade followed by the line scan. |
| Ollama.LineScanUnreachable | myapp/services/ollama_service.py:38-47 | Any brace line is a `{`…`}` span of the text, so the brace search has already matched. Ollama's `clean_json_text` therefore agrees with the Hugging Face one on every input. |
| Ollama.FixJson | myapp/services/ollama_service.py:68 | The output holds no line break and no carriage return. |
| Ollama.FixJsonPlainText | myapp/services/ollama_service.py:52-70 | On input with no `'`, `,` or `//`, `fix_json` only deletes line breaks and carriage returns and keeps the remaining characters in order. |
| Ollama.AltJson | myapp/services/ollama_service.py:176-180 | The retry text is missing exactly when no `}` follows a `{`. Otherwise it is the slice from the first `{` to the last `}`. |
| Ollama.NoAltReraises | myapp/services/ollama_service.py:172-180 | Without a brace span in the repaired text, the error reported is the repaired text's own decode error. |
| Ollama.Decode | myapp/services/ollama_service.py:164-180 | A first successful parse is kept. Otherwise a successful parse of the repaired text is returned. If that also fails and the repaired text has a brace span, the result is the parse of that span. Without a brace span, the repaired text's decode error is raised again. The result fails only when the extracted text and its repaired form both fail. |
| Ollama.Debug | myapp/services/ollama_service.py:158-170 | `fixed_json` is recorded exactly when the first parse failed. |
| Ollama.Outcome | myapp/services/ollama_service.py:157-209 | The record names the model. It is the JSON-error record exactly when the decode fails, with the JSON-error prefix followed by the decode error as its message. After a successful decode, a success record comes back exactly when the shaping and team check succeed, and it is their record; otherwise the error record carries their fault. A success holds at least two teams. A JSON error keeps the `raw_response` excerpt, and every error record carries the debug texts. |
| Ollama.Retry | myapp/services/ollama_service.py:164-178 | The three nested tries give the specified decode result, and the repaired text is produced exactly when the first parse failed. |
| Ollama.Attempt | myapp/services/ollama_service.py:157-178 | The stage-by-stage `debug_info` writes around the retry chain give the specified decode result and exactly the specified debug map. |
| Ollama.Salvage | myapp/services/ollama_service.py:157-209 | The parse attempts, the result and the team check compute the specified outcome. |
| Ollama.GenerateMatchmaking | myapp/services/ollama_service.py:72-209 | For every reply it gives the record the service returns. Early failures carry empty debug info, and a success holds at least two teams. |
| Claude.ReplaceFirst | myapp/services/claude_service.py:114 | `replace(pat, '', 1)` leaves a text without the pattern unchanged and otherwise removes exactly the pattern's length. |
| Claude.ReplaceFirstPrefix | myapp/services/claude_service.py:114 | On a text that starts with the pattern, `replace(pat, '', 1)` removes exactly that prefix. |
| Claude.DropClosingFence | myapp/services/claude_service.py:115-116 | A closing "```" loses its three characters, and any other text is kept. |
| Claude.Unfence | myapp/services/claude_service.py:113-120 | Removing the fences only cuts the ends of the text, and a text that does not open with "```" is left alone. |
| Claude.StripFences | myapp/services/claude_service.py:110-122 | The parsed text is always a contiguous piece of the raw reply with no whitespace at either end. |
| Claude.JsonFencedReply | myapp/services/claude_service.py:110-122 | A stripped reply "```json" + b + "```" is parsed as `strip(b)`. |
| Claude.PlainFencedReply | myapp/services/claude_service.py:117-122 | A stripped reply "```" + b + "```" that is not opened by "```json" loses both fences, and the rest is stripped. |
| Claude.UnfencedReply | myapp/services/claude_service.py:110-122 | A reply whose stripped form does not start with "```" is only stripped. |
| Claude.UnclosedFenceReply | myapp/services/claude_service.py:117-122 | An opening "```" with no closing fence loses only the opener. |
| Claude.Outcome | myapp/services/claude_service.py:110-152 | The JSON-error record comes back exactly when the SDK raised a decode error or the stripped reply does not parse. It carries the fixed message, with `raw_response` exactly when a reply arrived. Any other exception gives its message. A parsed object gives the shaped success record, with no team check, and any other parsed value a type error. No record carries debug information. |
| Claude.GenerateMatchmaking | myapp/services/claude_service.py:10-152 | A missing `players` key or a missing required player key escapes the method, because normalisation runs outside the `try`. Otherwise the SDK reply's outcome is returned. |

## Left out

- The HTTP requests (`requests.post`), the Anthropic client, and the reading of the status code and response body are parameters of the model. The payloads, the headers and the prompt templates are literal constants and are not modelled. This is network I/O through foreign libraries.
- `json.loads` is an opaque parameter. No JSON parser is modelled, and the text of its error messages comes from that parameter.
- Environment and key loading, and every logger call, are configuration and I/O.
- `skill_summary` is computed and never used.
- The matchmaking decision itself is made by the external model.
- `myapp/urls.py` and `myapp/views.py` are Django routing and not part of the salvage layer.
- The messages of Python's own TypeError and AttributeError are not modelled. All of them are `Fault.WrongType`, and `Results.Message` gives no text for it. The same goes for the `repr` quoting of a KeyError whose key holds a quote.
- JSON numbers are kept as reals, and only their truthiness is used. NaN and infinities are not modelled.
- Player values are integers, strings, booleans or `None`. Other JSON values in a player dictionary are not modelled, and neither is `str` of a float.
- Reading the generated text out of the response body is an input. Its failures are either "the body is not JSON", which the requests library raises as a subclass of `json.JSONDecodeError`, or a shape fault. A non-string `generated_text` or `response` value is folded into the shape fault.
- An exception raised while reading `response.content[0].text` in the Claude service becomes `SdkReply.RaisedOther`.
- Results.Message: states only how a status message starts, and that a Python type error has no message. The full texts of the other faults appear only in its body.
- Claude.GenerateMatchmaking: returns the escaping KeyError as `Failure` rather than raising it, since exceptions are values in this model.

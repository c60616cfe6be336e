# Z.ai-to-OpenAI proxy core, modelled in Dafny

The proxy (`app.py`) exposes an OpenAI-compatible chat endpoint in front of
the Z.ai chat service. This project models the parts of it that decide
things, leaving out the parts that only move bytes:

- **Token pool** (`TokenPool.dfy`). The credential rotator is a class
  `TokenPool.Pool` with the token list, the rotation index, the failure
  counts and the disable times as fields. `Get`, `MarkSuccess`,
  `MarkFailure`, `Update` and `AvailableTokens` are methods proved against
  state-transition functions (`GetStep`, `SuccessStep`, `FailureStep`,
  `UpdateStep`, `Available`). The invariant `Inv` holds across every step:
  - the list has no duplicates and no empty tokens;
  - every disabled token has a failure count, and every counted token is listed;
  - a disabled token has reached the threshold;
  - the index is 0 or inside the list.

  The clock is an integer number of seconds passed in as `now`. The file
  also holds `_parse_token_pool` (split on newline and comma, strip, drop
  empties) and the append of the static `TOKEN`.
- **Variant table** (`Variants.dfy`). `_build_model_variant_config` expands
  each base model definition into a base, a `-Thinking` and a `-Search`
  entry. The table is an insertion-ordered association list, because the
  route iterates it in order.
- **Model display names** (`ModelNames.dfy`). This covers
  `format_model_name` and the choice of display name in the model listing.
- **Response normalizer** (`Markup.dfy`, `Normalizer.dfy`).
  `utils.response.format` rewrites upstream `<details>`/`<summary>` markup
  into a canonical `<reasoning>`…`</reasoning>` pair. It then splices the
  boundary between reasoning and answer on the previous phase (the global
  `phaseBak`) and renders the markers in one of the `THINK_TAGS_MODE`s.
  - Every regular expression is written out as an exact scanner (`Markup.MatchAt`, `Markup.Sub`).
  - `Normalizer.FormatSpec` states what `format` returns and what it leaves in `phaseBak`.
  - The class `Normalizer.Normalizer` holds `phaseBak` as a field, and its method `Format` is proved against `FormatSpec`.
- **Request shaping** (`ChatRequest.dfy`). These are the pure rules inside the chat route:
  - the case-insensitive variant lookup;
  - the layered feature map with its boolean and list coercions;
  - the order-preserving MCP-server merge;
  - the `data: ` line filter of `utils.response.parse`;
  - the aggregation of a non-streaming reply from the normalized events.

`Text.dfy` holds the string operations these need: `strip`, `lstrip`,
`split`, `join`, `replace`, substring search, and ASCII `upper`/`lower`/`capitalize`.
`Json.dfy` holds the JSON values and Python truthiness. `Wrappers.dfy` holds `Option` and `Result`.

## Model

| member | source | states |
|---|---|---|
| TokenPool.ParseTokenPool | app.py:48-56 | the result is the stripped non-empty pieces of the input split at newlines and commas; empty input gives `[]`; no element is empty or holds a separator |
| TokenPool.ParsedTokensShape | app.py:52-55 | every parsed token is non-empty, has no surrounding whitespace and contains neither `,` nor a newline |
| TokenPool.KeptIndicesSound | app.py:52-55 | each parsed token is the stripped form of an input piece, and tokens appear in input order |
| TokenPool.KeptIndicesComplete | app.py:52-55 | every piece that is not blank after stripping yields a token |
| TokenPool.WithStaticToken | app.py:127-129 | a non-empty static token ends up in the list; the existing list is kept as a prefix; at most one element is added; no duplicates are introduced |
| TokenPool.DedupTokens | app.py:109-114 | the de-duplication loop keeps exactly the non-empty tokens, each once |
| TokenPool.DedupContents | app.py:109-114 | the de-duplicated list has no duplicates and no empty token, and holds exactly the non-empty input tokens |
| TokenPool.DedupOrder | app.py:109-114 | kept tokens appear in the order of their first occurrence in the input |
| TokenPool.DedupIdempotent | app.py:108-114 | de-duplicating an already de-duplicated list changes nothing |
| TokenPool.DedupOfNoDup | app.py:108-114 | a list without duplicates or empty tokens is kept as it is |
| TokenPool.InitEstablishes | app.py:60-68 | the constructor establishes the pool invariant, with the threshold clamped to at least 1 and the list de-duplicated |
| TokenPool.AvailableMembers | app.py:70-78 | `_available_tokens` holds exactly the listed tokens not disabled within the cooldown, and no more of them than the list has |
| TokenPool.AvailableWhenNoneDisabled | app.py:70-78 | with nothing disabled, every token is available |
| TokenPool.GetSpec | app.py:80-90 | `get` returns nothing only for an empty list; when every token is cooling down it clears the disable times (fail-open) but not the failure counts; otherwise it returns `available[index % n]` and moves the index to `(index + 1) % n` |
| TokenPool.GetSkipsCoolingDown | app.py:80-90 | when some token is available, `get` never hands out a token that is cooling down |
| TokenPool.RoundRobin | app.py:80-90 | `k` full rounds from index 0 over a duplicate-free available list hand out each token exactly `k` times, in list order |
| TokenPool.RotationAt | app.py:88-89 | the `j`-th token of a rotation starting at `index` is `avail[(index + j) % n]` |
| TokenPool.GetNRotation | app.py:80-90 | while no token is cooling down, successive `get` calls (at any times) return the rotation of the token list from the current index, and the list stays the same with nothing disabled |
| TokenPool.GetRoundRobin | app.py:80-90 | from index 0 with no token cooling down, `k * n` successive `get` calls return the list `k` times over, in order, so each token exactly `k` times |
| TokenPool.SuccessSpec | app.py:92-97 | `mark_success` of a listed token removes its failure count and disable time, which makes it available; it is a no-op for a missing, empty or unlisted token; the invariant is kept |
| TokenPool.FailureSpec | app.py:99-106 | `mark_failure` of a listed token adds one to its count and records `now` as its disable time once the count reaches the threshold; it is a no-op for a missing, empty or unlisted token; the invariant is kept |
| TokenPool.ConsecutiveFailures | app.py:99-106 | enough consecutive failures disable a token at the time of the last one, and the token stays unavailable until the cooldown has run out |
| TokenPool.FailCounts | app.py:99-106 | a sequence of failures adds its length to the count and leaves the list, threshold and cooldown alone |
| TokenPool.UpdatePreserves | app.py:108-121 | `update` installs the de-duplicated list and resets the index to 0; it keeps the failure counts and disable times of tokens that stay and drops those of tokens that leave |
| TokenPool.UpdateSameTokensKeepsHealth | app.py:108-121 | re-installing the same set of tokens keeps all health entries |
| TokenPool.Pool.constructor | app.py:60-68 | the new pool is valid and equals the specified initial state |
| TokenPool.Pool.AvailableTokens | app.py:70-78 | the filtering loop computes `Available` |
| TokenPool.Pool.Get | app.py:80-90 | the method performs `GetStep` on the fields and keeps the invariant |
| TokenPool.Pool.MarkSuccess | app.py:92-97 | the method performs `SuccessStep` on the fields and keeps the invariant |
| TokenPool.Pool.MarkFailure | app.py:99-106 | the method performs `FailureStep` on the fields and keeps the invariant |
| TokenPool.Pool.Update | app.py:108-121 | the method, with its pruning loop over the failure keys, performs `UpdateStep` and keeps the invariant |
| TokenPool.Pool.Contains | app.py:123-124 | under the invariant, `contains` is membership of a present token |
| Variants.Put | app.py:238 | dict assignment makes the key map to the value and leaves every other key alone |
| Variants.PutKeys | app.py:238 | dict assignment adds the key if it is new and keeps the keys distinct |
| Variants.BuildModelVariantConfig | app.py:216-269 | the build loop computes `BuildConfig`, and the resulting table has distinct keys |
| Variants.AddVariants | app.py:223-267 | one definition with an upstream id writes its standard, `-Thinking` and `-Search` entries, in that order, over the table so far, and the keys stay distinct |
| Variants.BuildLookup | app.py:216-269 | a table entry is the last assignment made to that key during the build |
| Variants.SkippedDefinition | app.py:219-221 | a definition without `upstream_id` contributes no entry |
| Variants.ExpandedDefinition | app.py:230-267 | every definition with an `upstream_id` yields its base, `-Thinking` and `-Search` entries |
| Variants.VariantFeatures | app.py:223-224 | all three entries share the `upstream_id`; base features are the defaults overridden by `default_features`; `-Thinking` sets `enable_thinking`; `-Search` sets `web_search` and `auto_web_search`; all other features are copied |
| Variants.VariantServers | app.py:226-260 | the base servers become `["deep-web-search"]` exactly when `web_search` is on and no servers were given (or when those were the servers given); the `-Thinking` and `-Search` servers fall back as the code says |
| Variants.VariantDescriptions | app.py:232 | each description is the definition's own when it is non-empty, otherwise the alias with the fixed suffix |
| ModelNames.FormatModelName | app.py:496-513 | the segment loop computes `FormattedName` |
| ModelNames.FormatSegments | app.py:503-512 | the first segment is upper-cased and every later one rewritten by `FormatSegment` (empty kept, all digits kept, with a letter capitalised, otherwise kept) |
| ModelNames.FormattedShape | app.py:496-513 | the formatted name differs from the input only in the case of ASCII letters, and has `-` exactly where the input has one |
| ModelNames.FormattedSegments | app.py:499-513 | the segments of the formatted name are the rewritten segments of the input |
| ModelNames.SingleSegment | app.py:499-501 | a name without `-` is upper-cased |
| ModelNames.FormatIdempotent | app.py:496-513 | formatting a formatted name changes nothing |
| ModelNames.DisplayName | app.py:541-549 | the listed name is the formatted id or starts with an English letter; an alias starting with a letter is used as it is |
| Markup.MatchAt | app.py:406-447 | a pattern match found at a position is non-empty and ends inside the text |
| Markup.SplitAtClose | app.py:417-419 | the search succeeds exactly when the text contains `</reasoning>`; `before` ends at the first one, and `before + after` is the text |
| Markup.SummarySpan | app.py:452 | there is no result exactly when no `<summary>` is followed by a `</summary>`; otherwise the result is the slice of the text from the first `<summary>` to the first `</summary>` after it |
| Markup.DurationFrom | app.py:453 | there is no result exactly when no position holds `duration="`, digits and a quote; a result is a non-empty string of digits |
| Markup.DurationLeftmost | app.py:453 | the result is the digits of the leftmost match |
| Markup.SubPlain | app.py:406-447 | text without `<` passes through every tag substitution unchanged, and text without a newline passes through the quote-prefix one |
| Normalizer.FormatSpec | app.py:397-478 | nothing is emitted exactly when `data` or both contents are missing or empty; `phaseBak` moves to the event's phase exactly when something is emitted; the only failure is the unbound `before` in `details` mode; `reasoning_content` is emitted only for thinking events in `reasoning` mode; untriggered events pass through unchanged |
| Normalizer.Normalizer.constructor | app.py:284 | `phaseBak` starts as `thinking` |
| Normalizer.Normalizer.Format | app.py:397-478 | `format` returns what `FormatSpec` says and leaves `phaseBak` as it says |
| Normalizer.Canonicalize | app.py:406-414 | the rewrite into canonical markers computes `Canonical` |
| Normalizer.RenderMarkup | app.py:432-464 | the mode branch computes `Render`, including the unbound-`before` error |
| Normalizer.ThinkModeMarkers | app.py:437-441 | in `think` mode no `<reasoning>` or `</reasoning>` survives in the emitted text |
| Normalizer.PlainThinking | app.py:405-478 | a thinking event without markup or line breaks is emitted unchanged in every mode, and `phaseBak` becomes `thinking` |
| Normalizer.DuplicateClosure | app.py:420-427 | an answer event that closes the reasoning block again, with text after the close, right after another answer event is emitted as empty content in every mode |
| Normalizer.RenderClosed | app.py:432-464 | a text that is a blank line, a close marker and markup-free rest is rendered in each mode as the close marker in that mode's spelling (`</think>`, `</div>` with the summary and `</details>`, nothing, or the marker and a blank line) followed by the rest |
| Normalizer.BoundarySplice | app.py:415-424 | after a thinking event, an answer event whose text after the first close marker is not blank (and holds no markup) is emitted as a blank line, the close marker in the mode's spelling, a blank line and that text without its leading line breaks; `phaseBak` becomes `answer` |
| Normalizer.BlankAfterClose | app.py:415-430 | an answer event whose text after the first close marker is blank is emitted as the bare close marker in the mode's spelling, whatever the previous phase |
| Normalizer.NoSpliceAfterOther | app.py:420-427 | after an event that was neither thinking nor answer, the canonical answer text is rendered without any splice |
| ChatRequest.RequestedModel | app.py:599 | a non-blank requested name is used stripped; otherwise `MODEL` is used |
| ChatRequest.FirstCaseMatch | app.py:600-603 | the index found is the first variant name equal to the request up to ASCII case |
| ChatRequest.ResolveModel | app.py:599-608 | the lookup loop with its `break` computes `Resolve` |
| ChatRequest.ResolveSpec | app.py:599-608 | a variant is selected exactly when some variant name matches up to case; the model is then the first matching name and the upstream id is the variant's; otherwise both are the requested name |
| ChatRequest.UpperCaseResolves | app.py:599-608 | when variant names are distinct up to case, a request in upper case selects the variant under its own name |
| ChatRequest.Overlay | app.py:621-626 | copying a layer's items over the feature map yields the map overridden by the layer |
| ChatRequest.CoerceFeatures | app.py:632-637 | the two coercion loops turn the switches into booleans and any non-list flag list into `[]` |
| ChatRequest.BuildFeatures | app.py:611-637 | the feature code computes `MergedFeatures`: defaults, then request features, then variant features, then the `reasoning` flag, then coercion |
| ChatRequest.FeatureTypes | app.py:611-637 | every switch is present and boolean, and both flag lists are present and lists |
| ChatRequest.FeatureKeys | app.py:611-637 | the keys sent are those of the defaults and of both layers |
| ChatRequest.ThinkingFlag | app.py:611-633 | `enable_thinking` is a boolean `reasoning` flag if given, else the variant's setting, else the request's, else `True`, each by truth value |
| ChatRequest.OtherFeatures | app.py:621-626 | any other feature comes unchanged from the variant, or else from the request |
| ChatRequest.Strings | app.py:643-645 | the string items of the request list are exactly its `Str` values |
| ChatRequest.Distinct | app.py:642-650 | the merged list has no repetitions and holds exactly the strings offered |
| ChatRequest.CollectRequested | app.py:643-646 | the first loop keeps each requested string server once, at its first occurrence |
| ChatRequest.AppendNew | app.py:647-650 | the second loop appends each variant server not yet listed |
| ChatRequest.MergeMcpServers | app.py:642-650 | the two loops compute the first-occurrence merge of the requested and the variant servers |
| ChatRequest.DistinctPrefix | app.py:642-650 | servers already merged keep their places when more are appended |
| ChatRequest.McpServersSpec | app.py:642-650 | every requested and variant server appears exactly once; requested servers come first in their order, and a request without repetitions is kept exactly |
| ChatRequest.Parse | app.py:390-395 | only lines starting with `data: ` whose rest decodes yield events, at most one per line |
| ChatRequest.ParseOne | app.py:391-395 | one line yields its decoded record exactly when it starts with `data: ` and its rest decodes, and nothing otherwise |
| ChatRequest.ParseAppend | app.py:391-395 | the events of consecutive lines come out in the order of the lines |
| ChatRequest.ParseKeeps | app.py:391-395 | every data line that decodes contributes its record, between the records of the lines before and after it |
| ChatRequest.Aggregate | app.py:757-779 | the collection loop stops at the first `done` event; it sends every earlier event through `format`, gathers `content` and `reasoning_content` pieces, and builds a final message with each field present exactly when a piece was gathered; an error in `format` ends the reply |
| ChatRequest.NoReasoningOutsideReasoningMode | app.py:757-772 | outside `reasoning` mode no `reasoning_content` piece is gathered |
| ChatRequest.PlainReply | app.py:766-779 | outside `reasoning` mode the final message has no `reasoning_content` |
| ChatRequest.FailsOnlyInDetails | app.py:757-768 | aggregation can only fail in `details` mode |
| ChatRequest.StopsAtDone | app.py:763-765 | nothing after the first `done` event affects the reply |
| ChatRequest.ReasoningReply | app.py:757-779 | in `reasoning` mode, a plain thinking event and a plain answer event give a final message with both fields, and events after `done` are ignored |

## Left out

- Flask routes, `Response`, CORS headers and the SSE framing of the streaming reply are framework glue. So are the outbound request body (a dict literal over the values modelled here) and the `model_item` default.
- HTTP calls to the upstream service (`chat`, `image`, `token`, `/v1/models`) and anonymous-token fetching are network clients. The model-listing merge around `DisplayName` is left out for the same reason.
- `json.loads` and UTF-8 decoding in `utils.response.parse` are foreign calls; `Parse` takes them as a `decode` function parameter. Decoded JSON that is not an object is not modelled.
- Token counting with tiktoken is a foreign library. The prompt and completion token counts in the reply are therefore not modelled.
- Image upload (base64 and multipart encoding) is a foreign library and I/O.
- `threading.Lock` is not modelled: the pool is modelled sequentially, and the unlocked membership checks in `mark_success`/`mark_failure` raise no race in a sequential model.
- `datetime.now()` and the float `total_seconds()` arithmetic are replaced by an integer `now` in seconds. Time-stamped ids are not modelled.
- Environment variables are parameters: `MODEL` is `defaultModel`, `THINK_TAGS_MODE` is `Mode`, and `TOKEN_POOL_RESET_FAILURES` is the cooldown. Logging and debug output are not modelled.
- Markup.DurationFrom: `\d` is restricted to the ASCII digits; Python's `\d` also matches the other Unicode decimal digits.
- ModelNames.FormatModelName: `upper`, `capitalize`, `isdigit` and `isalpha` are restricted to ASCII; Python applies them to all of Unicode.
- ChatRequest.FirstCaseMatch: `lower` is restricted to ASCII, so names that differ only in non-ASCII case do not match; Python lower-cases all of Unicode.
- ChatRequest.Aggregate: the reply is modelled as if no other request called `format` between its events. In the proxy `phaseBak` is one global shared by every concurrent request without a lock, so interleaved requests can change each other's splice; that interleaving is not modelled.
- Normalizer.BoundarySplice: stated for answer text after the close marker without `<`; text that holds markup of its own goes through the same substitutions, which the lemma does not spell out.
- Normalizer.RenderMarkup: in `details` mode the summary text is inserted literally. Python reads it as an `re.sub` replacement template, so a backslash in a summary would be interpreted there.
- Normalizer.FormatSpec: event fields are strings or missing. Other JSON types in `phase`, `delta_content` or `edit_content` are not modelled.
- `after.lstrip('\n')` in the splice removes all leading newlines, not one. The model follows the code.
- In `details` mode, an answer event with `summary>` but no close marker reads `before` while it is unbound. Python raises `UnboundLocalError` there. The model returns the explicit error `UnboundBefore`, leaves `phaseBak` unchanged and ends the aggregation with that error.
- The code has no tool-call handling, metrics recorder, credential identity hashing or pool snapshot. None of these is modelled.
- The streaming generator repeats the `format` calls of the non-streaming path with SSE output. Only the non-streaming aggregation is modelled.

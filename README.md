# yt-chat: input validation, escaping and request decisions

This project models the small layer of yt-chat that decides things. yt-chat is a YouTube transcript chat app with an Express backend and a React frontend. The layer covered here is:

- **Backend handlers** (`backend/index.js`). Each route handler is a function from the request's fields to a `(status, body)` response.
  - The `/api/transcript` videoId check and transcript join.
  - The check order of `/api/chat` and `/api/search`.
  - The backend SQL-token blocklist.
  - The admin-key gate of `/api/admin/stats`.
  - `authenticateToken` and the ownership gate of `/api/resource/:id`. Its refusal has one body whether the resource is missing or belongs to someone else.
  - The process-wide `usageStats` counters, as the class `BackendApi.UsageStats`. Its `Chat` and `Search` methods run the two handlers and update the counters.
- **`escapeHtml`** (`frontend/src/utils/escapeHtml.js`). Entity escaping of five characters, with its algebra:
  - it distributes over concatenation;
  - the output length is exact;
  - it can be decoded, so it is injective;
  - it is not idempotent.
- **The transcript reducer** (`frontend/src/store/transcriptStore.js`) and its two action creators.
- **The Chat and Search components** (`frontend/src/components/Chat.js`, `Search.js`):
  - their validators and their regular expression;
  - the state changes of `handleSend` and `handleSubmit`, as the classes `ChatComponent.ChatBox` and `SearchComponent.SearchBox`.
- **Cross-file lemmas** (`CrossChecks`). The frontend and backend blocklists disagree in both directions. The Chat component posts a body the backend does not read.

JavaScript's outside world is modelled as follows:

- **Strings** are `seq<char>`.
- **Whitespace.** `trim()` and `\s` use the ECMAScript WhiteSpace and LineTerminator set (`JsText.IsJsWhitespace`). `Trim` is defined by two index scans.
- **Case.** The `/i` flag is ASCII case folding. Without the `u` flag, no non-ASCII character folds onto the ASCII letters of the tokens.
- **`parseInt(s, 10)`** skips leading whitespace, takes one optional sign and reads the longest digit run. NaN is `None`.
- **`res.ok`** means a status from 200 to 299 (`Fetch.IsOk`).
- **Providers are function parameters.** These are `getTranscript`, the completion call and the video search call. The completion and search calls end in `ApiTypes.Upstream`: a delivered value, or a throw carrying `err.code` and possibly `err.response`. `getTranscript` ends in `BackendApi.TranscriptFetch`: an array of segments, a value that is not an array, or a throw.
- **`sanitize-html`** with no allowed tags is an uninterpreted parameter `sanitize`. Nothing is claimed about what it strips.
- **`process.env` values** are parameters. `Math.random() < 0.5` is the boolean parameter `coin`, so both statuses are possible outside test mode.
- **A component's `fetch`** is the parameter `Fetch.Outcome`: a response with a status and a `res.json()` that yields a value or rejects, or a rejected `fetch`.

Two more facts the model shows:

- **The chat request does not fit the chat route.** The Chat component posts `{ user, text }`, but `/api/chat` reads `videoId` and `question` from the body. Both fields are therefore missing, so the backend answers 400 and the component shows "Invalid message." (`CrossChecks.ChatRequestLacksBackendFields`). The CSRF middleware that guards `/api/chat` is not modelled; with it, the request would be refused even earlier.
- **The Search component's `or\s+1=1` alternative** (the backend's pattern has ` or ` instead) is stated in its literal, backtracking reading, `SearchComponent.OrSpacedAt`: `or`, then one or more whitespace characters, then `1=1`.

## Model

| member | source | states |
|---|---|---|
| JsText.Trim | backend/index.js:66 | `trim()` returns a contiguous slice of its input; what it cuts off on either side is whitespace, and a non-empty result starts and ends with non-whitespace |
| JsText.BlankIffAllWhitespace | frontend/src/components/Chat.js:26 | `!s.trim()` holds exactly when every character of `s` is whitespace, the empty string included |
| JsText.TrimIdempotent | frontend/src/components/Search.js:16-36 | helper lemma: trimming a trimmed string changes nothing, which is why the `query.trim()` that is sent after `validateQuery(query)` would pass the same validation (`TrimmedQueryStaysValid`) |
| JsText.TrimKeepsContent | frontend/src/components/Chat.js:25-44 | helper lemma: trimming never lengthens a string and keeps it blank or non-blank, so the `input.trim()` posted after `validateMessage(input)` is still non-blank and within the limit (`AcceptedInputIsSendable`) |
| JsText.LowerString | frontend/src/components/Search.js:14 | the `/i` comparison string has the same length and ASCII-folds every character |
| JsText.ContainsIff | frontend/src/components/Search.js:19 | the substring test holds exactly when the token occurs at some index |
| JsText.ContainsInSlice | frontend/src/components/Search.js:14 | a token found in a slice is found in the whole string |
| EscapeHtml.Entity | frontend/src/utils/escapeHtml.js:8-21 | the replacement is longer than one character exactly for the five special characters, is an `&…;` entity for them, and is the character itself otherwise |
| EscapeHtml.Escape | frontend/src/utils/escapeHtml.js:7-18 | the escaped string holds none of `<`, `>`, `"`, `'` |
| EscapeHtml.EscapeValue | frontend/src/utils/escapeHtml.js:5-7 | a non-string is returned unchanged; a string comes back as a string, unchanged exactly when it holds no special character |
| EscapeHtml.EscapeAppend | frontend/src/utils/escapeHtml.js:7-22 | escaping distributes over concatenation |
| EscapeHtml.EscapeLength | frontend/src/utils/escapeHtml.js:9-18 | the output length is the input length plus 4 per `&`, 3 per `<`, 3 per `>`, 5 per `"` and 4 per `'` |
| EscapeHtml.GrowthZeroIff | frontend/src/utils/escapeHtml.js:9-18 | the output is no longer than the input exactly when there is no special character |
| EscapeHtml.EscapeFixedPointIff | frontend/src/utils/escapeHtml.js:7 | a string is its own escape exactly when it holds none of `& < > " '` |
| EscapeHtml.EscapeNoSpecialIsIdentity | frontend/src/utils/escapeHtml.js:7 | a string with no special character is returned as it is |
| EscapeHtml.UnescapeEscape | frontend/src/utils/escapeHtml.js:10-18 | decoding the five entities recovers the input |
| EscapeHtml.UnescapeEntity | frontend/src/utils/escapeHtml.js:8-21 | each character's replacement decodes back to that character, whatever follows it |
| EscapeHtml.EscapeInjective | frontend/src/utils/escapeHtml.js:10-18 | two strings with the same escape are equal |
| EscapeHtml.EscapeMarksSpecial | frontend/src/utils/escapeHtml.js:9-18 | a special character anywhere in the input leaves an `&` in the output |
| EscapeHtml.EscapeIdempotentIff | frontend/src/utils/escapeHtml.js:7-18 | escaping twice equals escaping once exactly for strings with nothing to escape |
| EscapeHtml.DoubleEscapeOfLessThan | frontend/src/utils/escapeHtml.js:10-14 | `<` escapes to `&lt;`, and escaping that again gives `&amp;lt;`, which differs |
| TranscriptStore.InitialState | frontend/src/store/transcriptStore.js:6 | the initial state is empty |
| TranscriptStore.AddTranscript | frontend/src/store/transcriptStore.js:20-23 | the action has type `ADD_TRANSCRIPT` and the entry as payload |
| TranscriptStore.ClearTranscripts | frontend/src/store/transcriptStore.js:25-27 | the action has type `CLEAR_TRANSCRIPTS` and no payload |
| TranscriptStore.Reducer | frontend/src/store/transcriptStore.js:8-17 | an add grows the state by one, keeping the old state as a prefix and putting the payload last; a clear gives `[]`; any other type returns the state; an omitted state defaults to the initial one |
| TranscriptStore.Current | frontend/src/store/transcriptStore.js:8 | the default `state = initialState` for an omitted state |
| TranscriptStore.ReducerOnCreators | frontend/src/store/transcriptStore.js:8-27 | `reducer(s, addTranscript(e)) == s + [e]`, `reducer(s, clearTranscripts()) == []`, and an add on the default state gives `[e]` |
| TranscriptStore.ReplayFirst | frontend/src/store/transcriptStore.js:10-15 | one step of a replay without clears appends what the first action adds, and the rest still holds no clear |
| TranscriptStore.ReplayWithoutClear | frontend/src/store/transcriptStore.js:10-11 | dispatching actions with no clear gives the start state followed by every added payload, in order |
| TranscriptStore.ReplayForgetsBeforeClear | frontend/src/store/transcriptStore.js:12-13 | after a clear, the final state depends only on the actions that follow it |
| BackendApi.VideoIdAcceptedIff | backend/index.js:64-71 | the videoId guard accepts exactly strings of 1 to 32 characters from `[A-Za-z0-9_-]` |
| BackendApi.SegmentTexts | backend/index.js:88 | the segment texts are collected, one per segment in order, exactly when no segment is null |
| BackendApi.JoinWithSpace | backend/index.js:88 | `parts.join(' ')`; its meaning is given by the three lemmas below |
| BackendApi.JoinWithSpaceLength | backend/index.js:88 | the joined length is the total length of the parts plus one per separator |
| BackendApi.JoinWithSpaceSingle | backend/index.js:88 | a single segment joins to its own text, so one segment `Sample transcript` is returned as it is |
| BackendApi.JoinWithSpaceAppend | backend/index.js:88 | joining two non-empty lists is joining each and putting one space between them |
| BackendApi.VideoIdAccepted | backend/index.js:64-69 | the negation of the videoId guard: a string, not blank, at most 32 characters, no character outside `[a-zA-Z0-9_-]`; characterised by `VideoIdAcceptedIff` |
| BackendApi.TranscriptResponse | backend/index.js:59-96 | statuses are 200, 404, 422 or 500; 422 exactly for a rejected videoId; a 200 body echoes the requested id |
| BackendApi.TranscriptInvalidIdNeverFetches | backend/index.js:64-76 | an invalid videoId gets 422 whatever the transcript provider does |
| BackendApi.TranscriptOutcomes | backend/index.js:75-92 | for a valid id, a throw, a non-array or an empty array is 404 "Transcript not found."; success comes exactly from a non-empty array of segments, and its body is the sanitized space-join with the id echoed |
| BackendApi.ChatFailure | backend/index.js:163-172 | the chat `catch` answers 403 "Invalid CSRF token." exactly for a CSRF error code, 502 exactly for another error that carries response data, with that data as `details`, and otherwise 500 "Internal server error." |
| BackendApi.ChatResponse | backend/index.js:100-173 | statuses are 200, 400, 403, 404, 422, 500 or 502; 400 exactly when a field is missing or blank; 422 exactly when both are present and the question is over 5000 characters; a 200 body is an answer |
| BackendApi.ChatUnknownVideoIs404 | backend/index.js:121-125 | past the field and length checks, a videoId with no stored transcript gets 404 "Transcript not found." whatever the key and provider |
| BackendApi.ChatMissingKeyIs500 | backend/index.js:129-133 | past the transcript lookup, a missing or empty key gets 500 "OpenAI API key not configured." whatever the provider |
| BackendApi.Prompt | backend/index.js:136 | the prompt template `Transcript:\n…\n\nUser question: …\n\nAnswer:` around the stored transcript and the question; it has no contract of its own |
| BackendApi.ChatBlankBeforeLength | backend/index.js:106-118 | a blank question, of any length, gets 400 and never 422 |
| BackendApi.ChatLongQuestionIs422 | backend/index.js:115-118 | past the field check, a question over 5000 characters gets 422 whatever the store, key and provider |
| BackendApi.ChatSuccessIff | backend/index.js:106-162 | chat succeeds exactly when every check passes and the completion is delivered; the answer is the sanitized content, or the sanitized empty string |
| BackendApi.ChatProviderOnlyAfterChecks | backend/index.js:106-139 | while a check fails, the completion provider cannot affect the response |
| BackendApi.ChatThrowIsFailure | backend/index.js:137-172 | once every check passes, a throwing completion call gets exactly the `catch` block's answer (`ChatFailure` of its code and response) |
| BackendApi.SqlBlocked | backend/index.js:188-189 | the backend pattern: one of its fourteen tokens occurs in the query, ignoring ASCII case; characterised by `SqlBlockedNeedsPunctuation` and the cross-file lemmas |
| BackendApi.SqlBlockedNeedsPunctuation | backend/index.js:188 | the backend blocklist only fires on a query holding a quote, dash, semicolon, slash, star, space or `=` |
| BackendApi.MapVideos | backend/index.js:212-217 | one video per item, in order, each field sanitized and a missing thumbnail URL mapped to the sanitized empty string |
| BackendApi.SearchFailure | backend/index.js:220-229 | the search `catch` answers 502 exactly when the error carries response data, with that data as `details`, and otherwise 500 "Internal server error."; the quota message is given exactly for an upstream 403 with data |
| BackendApi.SearchResponse | backend/index.js:174-230 | statuses are 200, 400, 422, 500 or 502; 422 exactly for a present, non-blank query over 200 characters; a 400 body is "Search query is required." or "Invalid search query."; a 200 body is a video list |
| BackendApi.SearchBlankIs400 | backend/index.js:179-182 | a missing or whitespace-only query gets 400 "Search query is required." whatever the key and provider |
| BackendApi.SearchLongQueryIs422 | backend/index.js:183-186 | a non-blank query over 200 characters gets 422 "Query too long." whatever the key and provider, even one the blocklist would refuse |
| BackendApi.SearchMissingKeyIs500 | backend/index.js:194-198 | past the query checks, a missing or empty key gets 500 "YouTube API key not configured." whatever the provider |
| BackendApi.SearchBlockedIs400 | backend/index.js:187-192 | a non-blank query of at most 200 characters that hits the blocklist gets 400 "Invalid search query." whatever the key and provider |
| BackendApi.SearchPastPrechecks | backend/index.js:179-192 | a non-blank query within the limit is never 422 or "required", and gets 400 exactly when the blocklist fires |
| BackendApi.SearchSuccessIff | backend/index.js:179-219 | search succeeds exactly when every check passes and the provider delivers; the body is the mapped items |
| BackendApi.SearchProviderOnlyAfterChecks | backend/index.js:179-201 | while a check fails, the search provider cannot affect the response |
| BackendApi.SearchThrowIsFailure | backend/index.js:200-229 | once every check passes, a throwing search call gets exactly the `catch` block's answer (`SearchFailure` of its response) |
| BackendApi.UsageStats.constructor | backend/index.js:46-50 | the counters start at zero |
| BackendApi.UsageStats.Chat | backend/index.js:100-173 | the chat handler's response; `chats` grows by exactly one, `searches` is unchanged, and `errors` grows by one exactly when the response is not 200 |
| BackendApi.UsageStats.Search | backend/index.js:174-230 | the search handler's response; `searches` grows by exactly one, `chats` is unchanged, and `errors` grows by one exactly when the response is not 200 |
| BackendApi.UsageStats.Stats | backend/index.js:237-254 | 200 with the three current counters exactly when a non-empty admin key is configured and the header equals it, otherwise 401 "Unauthorized"; reading changes nothing; the reported errors never exceed the reported requests (the class invariant) |
| ResourceAccess.FindUser | backend/index.js:276 | the first user with the token, or none exactly when no user has it |
| ResourceAccess.FindResource | backend/index.js:295 | the first resource with the id, or none exactly when no resource has it |
| ResourceAccess.Authenticate | backend/index.js:270-282 | 401 exactly for a missing header or one not starting with `Bearer `; 403 exactly when no user has the token after index 7; otherwise the first user, in list order, whose token it is, as `users.find` returns |
| ResourceAccess.ParseInt | backend/index.js:291 | the result is a number exactly when, after the leading whitespace and one optional sign, a digit follows; otherwise NaN |
| ResourceAccess.ParseIntOfDecimal | backend/index.js:291 | `parseInt` reads back a decimal spelling followed by any non-digit text (`"2abc"` gives 2) |
| ResourceAccess.ParseIntOfNegatedDecimal | backend/index.js:291 | a leading `-` negates the number read |
| ResourceAccess.ParseIntNoDigits | backend/index.js:291-294 | a string whose first character is not whitespace, a sign or a digit parses to NaN |
| ResourceAccess.ParsesTwo | backend/index.js:291 | `"2"` parses to 2 |
| ResourceAccess.ParsesNineNineNine | backend/index.js:291 | `"999"` parses to 999 |
| ResourceAccess.DenialStatus | backend/index.js:310-315 | the refusal status is 403 in test mode and 403 or 404 otherwise |
| ResourceAccess.DenialStatusChoices | backend/index.js:310-315 | 404 is possible exactly outside test mode, and 403 is always possible |
| ResourceAccess.AccessDecision | backend/index.js:295-318 | the status is 200, 403 or 404, and every refusal has the generic body |
| ResourceAccess.AccessDecisionSpec | backend/index.js:295-318 | 200 exactly for the owner, with the id and data of the first resource that has the id, as `resources.find` returns; anyone else gets the generic body, with 403 or 404, and always 403 in test mode |
| ResourceAccess.MissingAndForeignLookAlike | backend/index.js:295-317 | a missing resource and a foreign one get identical responses under the same mode and coin |
| ResourceAccess.ResourceResponse | backend/index.js:290-319 | the status is 200, 400, 401, 403 or 404, and 400 exactly when the caller is authenticated and the id parses to NaN |
| ResourceAccess.ResourceBadIdIs400 | backend/index.js:291-294 | an authenticated request for an id such as `abc` gets 400 "Invalid resource ID." |
| ResourceAccess.ResponseAfterAuthentication | backend/index.js:290-295 | once authenticated and parsed, the ownership gate alone decides the response |
| ResourceAccess.AuthenticationBeforeId | backend/index.js:270-292 | a rejected credential gets the same 401 or 403 whatever the id, even one that does not parse |
| ResourceAccess.SeedRejections | backend/index.js:264-279 | with the seeded users, no header gives 401 and `Bearer invalidtoken` gives 403 |
| ResourceAccess.ForeignLooksMissing | backend/index.js:290-317 | for an authenticated caller, a request for a foreign resource and one for a missing resource get the same response, with the generic body |
| ResourceAccess.SeedTokensAuthenticate | backend/index.js:264-281 | the seeded tokens `tokenA` and `tokenB` authenticate users 1 and 2 |
| ResourceAccess.SeedUserOneReadsOnlyOwn | backend/index.js:260-318 | with the seeded data, user 1 gets resource 1 and the generic refusal for every other id |
| ResourceAccess.SeedOwnerReads | backend/index.js:260-318 | with the seeded data, user 2 gets 200 with resource 2 |
| ChatComponent.EscapeHtmlAsWritten | frontend/src/components/Chat.js:14-23 | the component's `escapeHTML` as written: each of `& < > " '` is replaced by its map entry; its meaning is `EscapeHtmlAsWrittenIsIdentity` |
| ChatComponent.AsWrittenEntity | frontend/src/components/Chat.js:15-21 | each entry of the component's escape map sends its character to itself |
| ChatComponent.EscapeHtmlAsWrittenIsIdentity | frontend/src/components/Chat.js:14-23 | the component's `escapeHTML`, as written, returns its input unchanged |
| ChatComponent.AsWrittenKeepsScriptTag | frontend/src/components/Chat.js:74 | a message `<script>` reaches `dangerouslySetInnerHTML` with its `<` intact |
| ChatComponent.MessageMarkup | frontend/src/components/Chat.js:74 | the markup for a message holds no `<`, `>`, `"` or `'`, and decodes back to the message |
| ChatComponent.ValidateMessage | frontend/src/components/Chat.js:25-29 | "Message cannot be empty." exactly for whitespace-only input; otherwise the too-long message exactly above 5000 characters untrimmed; otherwise "" |
| ChatComponent.AcceptedInputIsSendable | frontend/src/components/Chat.js:34-44 | an accepted input, trimmed, is non-empty, has no whitespace at either end and is within the limit |
| ChatComponent.SendFailure | frontend/src/components/Chat.js:46-53 | a non-ok 422 shows "Message too long.", 400 "Invalid message.", any other status "Failed to send message." |
| ChatComponent.ChatBox.constructor | frontend/src/components/Chat.js:7-11 | the component starts with the given messages, empty input, no error and not loading |
| ChatComponent.ChatBox.SetInput | frontend/src/components/Chat.js:83 | the input takes the typed value; nothing else changes |
| ChatComponent.ChatBox.HandleSend | frontend/src/components/Chat.js:31-38 | the error is cleared and validation runs first; on failure only the error changes, and nothing is posted |
| ChatComponent.ChatBox.Post | frontend/src/components/Chat.js:39-64 | `{user, input.trim()}` is posted; a non-ok status sets its message and keeps messages and input; an ok response whose body parses appends exactly that message and clears the input; a rejected fetch or body sets the network error and keeps messages and input; loading ends false; the messages keep the initial ones first, and every later one was posted by this user |
| SearchComponent.PatternMatches | frontend/src/components/Search.js:14 | the component's pattern: a literal alternative, or `or`, whitespace and `1=1`, in the ASCII-folded query; characterised by the lemmas below |
| SearchComponent.ValidateQuery | frontend/src/components/Search.js:16-21 | the result is one of the four messages; which one is stated by `ValidateQueryCases` |
| SearchComponent.ValidateQueryCases | frontend/src/components/Search.js:16-21 | "Query cannot be empty." exactly for whitespace-only input; otherwise "Query too long." exactly above 200 characters untrimmed; otherwise the invalid-characters message exactly when the pattern matches; otherwise "" |
| SearchComponent.PatternInSlice | frontend/src/components/Search.js:14 | the pattern has no anchors: a match in a slice is a match in the whole query |
| SearchComponent.TrimmedPatternFree | frontend/src/components/Search.js:14 | trimming cannot create a match |
| SearchComponent.TrimmedQueryStaysValid | frontend/src/components/Search.js:16-21 | the trimmed query that is sent would itself pass `validateQuery` |
| SearchComponent.NoMarkerNoToken | frontend/src/components/Search.js:14 | a lower-cased query with none of `' - ; / * d s i u` holds no literal alternative |
| SearchComponent.NoWhitespaceNoOr | frontend/src/components/Search.js:14 | without whitespace, `or\s+1=1` cannot match |
| SearchComponent.NoMarkerNoMatch | frontend/src/components/Search.js:14 | a query with no whitespace and none of those characters, in any case, never matches |
| SearchComponent.KeywordInsideWordMatches | frontend/src/components/Search.js:14 | with no word boundaries, "Dropbox" and "selection" match |
| SearchComponent.OrSpaceOneEqualsOneMatches | frontend/src/components/Search.js:14 | "or 1=1" matches |
| SearchComponent.OrOneEqualsOneNeedsWhitespace | frontend/src/components/Search.js:14 | "or1=1" does not match |
| SearchComponent.AcceptedQuerySent | frontend/src/components/Search.js:28-36 | the trimmed query sent for an accepted query is non-blank and within 200 characters |
| SearchComponent.SubmitFailure | frontend/src/components/Search.js:37-44 | a non-ok 400 shows "Invalid search query.", any other status "Search failed. Please try again." |
| SearchComponent.SearchBox.constructor | frontend/src/components/Search.js:7-11 | the component starts with an empty query, no error, no results and not loading |
| SearchComponent.SearchBox.SetQuery | frontend/src/components/Search.js:61 | the query takes the typed value; nothing else changes |
| SearchComponent.SearchBox.HandleSubmit | frontend/src/components/Search.js:23-32 | the error and results are cleared first; on a validation failure the error is the validation message, results stay empty, and nothing is sent or notified |
| SearchComponent.SearchBox.Fetch | frontend/src/components/Search.js:34-53 | `query.trim()` is sent; a non-ok status sets its message with no results; an ok response whose body parses sets the results to it and calls `onResults` once with it, if given; a rejected fetch or body sets the network error; loading ends false |
| CrossChecks.AcceptedQueryReachesBlocklist | backend/index.js:179-192 | a query the component accepts is never refused by the backend as missing or too long; a 400 means the backend blocklist fired |
| CrossChecks.EqualsSignPassesFrontend | frontend/src/components/Search.js:14-21 | the component accepts "a=b" |
| CrossChecks.EqualsSignBlockedByBackend | backend/index.js:188 | the backend blocklist fires on "a=b" |
| CrossChecks.FrontendPassesBackendBlocks | backend/index.js:187-192 | "a=b" passes the component, gets 400 from the backend, and the component then shows "Invalid search query." |
| CrossChecks.DropboxMatchesPattern | frontend/src/components/Search.js:14 | the component's pattern matches "dropbox" |
| CrossChecks.DropboxRefusedByFrontend | frontend/src/components/Search.js:16-21 | the component refuses "dropbox" with the invalid-characters message |
| CrossChecks.DropboxPassesBackend | backend/index.js:188 | the backend blocklist does not fire on "dropbox" |
| CrossChecks.BackendPassesFrontendBlocks | backend/index.js:188 | "dropbox" is refused by the component but not by the backend |
| CrossChecks.AcceptedMessagePassesBackendChecks | backend/index.js:106-118 | a message the component accepts, if posted as `question`, passes the backend's field and length checks |
| CrossChecks.ChatRequestLacksBackendFields | frontend/src/components/Chat.js:41-50 | the posted `{user, text}` body lacks `videoId` and `question`, so the backend answers 400 and the component shows "Invalid message." |

## Left out

- Express wiring is not modelled: helmet, cors, static serving, `/health`, `express.json` and the server start in backend/server.js. It is framework plumbing.
- The CSRF middleware on `/api/chat` is not modelled. Requests reach the chat handler directly. `ChatFailure` still covers its error code in the handler's `catch`.
- Route dispatch is not modelled. Each handler is modelled on its own. The catch-all `app.get('*')` at backend/index.js:33-40 is registered before the GET API routes, so real dispatch would answer them 404 before they run.
- The provider request payloads are not modelled: the completion model, messages, token limit and temperature, and the search `part`, `type` and `maxResults`. They are I/O shape; the prompt text is kept as `BackendApi.Prompt`.
- `getTranscript`'s `lang` option is not modelled. The provider parameter is called with the videoId only.
- Non-string segment texts and other dynamically typed values are not modelled. A segment is either a string or null (`NullSegment`, whose `.text` throws and gives 500).
- JavaScript prototype keys are not modelled. The transcript lookup `transcripts[videoId]` is a `map`, so keys such as `constructor` are absent instead of inherited.
- Strings are sequences of Unicode scalar values. JavaScript measures length in UTF-16 code units, so for text outside the Basic Multilingual Plane the 32, 200 and 5000 limits count differently, and lone surrogates are not representable.
- `parseInt` is modelled over unbounded integers. Floating-point rounding of very long digit runs is not modelled.
- React is not modelled: rendering, the `disabled` attributes, the input's `maxLength`, state batching and stale closures. Each handler runs as one atomic event over the current state.
- `encodeURIComponent` and `JSON.stringify` of the request are not modelled. The sent query and the posted message are recorded as values.
- `onResults` throwing is not modelled. A callback that throws would land in the `catch` and set the network error.
- Browse.js and Summary.js are not modelled. They are presentation only.
- SearchComponent.ValidateQuery: its own contract only names the four possible results; `SearchComponent.ValidateQueryCases` states which one is given when.

## Findings

| source | as written | input that shows it | evidently intended | confidence | as-written member | corrected member |
|---|---|---|---|---|---|---|
| frontend/src/components/Chat.js:14-22 | every entry of the `escapeHTML` map sends its character to itself, so the function is the identity and message text is injected into `dangerouslySetInnerHTML` raw | a message text `<script>` is rendered with its `<` intact | map `&`, `<`, `>`, `"`, `'` to their entities, as `escapeHtml` in frontend/src/utils/escapeHtml.js does, so the markup holds no delimiter and decodes back to the text | not executed | ChatComponent.EscapeHtmlAsWrittenIsIdentity | ChatComponent.MessageMarkup |

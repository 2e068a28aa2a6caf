/** The request handlers of backend/index.js for `/api/transcript`,
    `/api/chat`, `/api/search` and `/api/admin/stats`. Each decision is a
    function of the request's fields, the environment values it reads and
    the provider it calls (a function parameter); `sanitize` stands for
    `sanitizeHtml(…, { allowedTags: [], allowedAttributes: {} })` and is
    never interpreted. The shared `usageStats` object is the class
    UsageStats, whose methods run the chat and search handlers. */
module BackendApi {
  import opened JsText
  import opened ApiTypes

  const MaxVideoIdLength := 32
  const MaxQuestionLength := 5000
  const MaxQueryLength := 200

  const InternalError := "Internal server error."
  const TranscriptNotFound := "Transcript not found."

  // ---------------------------------------------------------------- videoId

  /** A character of the class `[a-zA-Z0-9_\-]`. */
  predicate IsIdChar(c: char) {
    ('a' <= c <= 'z') || ('A' <= c <= 'Z') || ('0' <= c <= '9') || c == '_' || c == '-'
  }

  /** `/[^a-zA-Z0-9_\-]/.test(s)`. */
  predicate HasNonIdChar(s: string) {
    exists i :: 0 <= i < |s| && !IsIdChar(s[i])
  }

  /** The negation of the `/api/transcript` guard: a string, not blank, at
      most 32 characters, and no character outside the id class. */
  predicate VideoIdAccepted(videoId: Option<string>) {
    videoId.Some? && !IsBlank(videoId.value) && |videoId.value| <= MaxVideoIdLength
    && !HasNonIdChar(videoId.value)
  }

  /** The guard accepts exactly the strings of 1 to 32 id characters: the
      blank test is subsumed by the character class. */
  lemma VideoIdAcceptedIff(videoId: Option<string>)
    ensures VideoIdAccepted(videoId) <==>
              videoId.Some? && 1 <= |videoId.value| <= MaxVideoIdLength
              && forall i :: 0 <= i < |videoId.value| ==> IsIdChar(videoId.value[i])
  {
    if videoId.Some? {
      var s := videoId.value;
      BlankIffAllWhitespace(s);
      if s != [] && !HasNonIdChar(s) {
        assert IsIdChar(s[0]);
        assert !IsJsWhitespace(s[0]);
      }
    }
  }

  // ------------------------------------------------------ /api/transcript

  /** One element of the provider's array; reading `.text` of a null
      element throws. */
  datatype Segment = Segment(text: string) | NullSegment

  /** What `await getTranscript(videoId, …)` yields. */
  datatype TranscriptFetch = Segments(items: seq<Segment>) | NotAnArray | FetchThrew

  /** `items.map(t => t.text)`, or `None` when some element is null. */
  function SegmentTexts(items: seq<Segment>): (r: Option<seq<string>>)
    ensures r.Some? <==> forall i :: 0 <= i < |items| ==> items[i].Segment?
    ensures r.Some? ==> (|r.value| == |items|
                         && forall i :: 0 <= i < |items| ==> r.value[i] == items[i].text)
  {
    if items == [] then Some([])
    else match items[0]
      case NullSegment => None
      case Segment(t) =>
        var rest := SegmentTexts(items[1..]);
        if rest.None? then None else Some([t] + rest.value)
  }

  /** `parts.join(' ')`. */
  function JoinWithSpace(parts: seq<string>): string {
    if |parts| == 0 then ""
    else if |parts| == 1 then parts[0]
    else parts[0] + " " + JoinWithSpace(parts[1..])
  }

  function TotalLength(parts: seq<string>): nat {
    if parts == [] then 0 else |parts[0]| + TotalLength(parts[1..])
  }

  /** The joined length is the parts' total length plus one per separator. */
  lemma {:induction false} JoinWithSpaceLength(parts: seq<string>)
    requires parts != []
    ensures |JoinWithSpace(parts)| == TotalLength(parts) + |parts| - 1
  {
    if |parts| > 1 {
      JoinWithSpaceLength(parts[1..]);
    }
  }

  /** A transcript of one segment is that segment's text. */
  lemma JoinWithSpaceSingle(p: string)
    ensures JoinWithSpace([p]) == p
  {
  }

  /** Joining two non-empty lists puts one separator between them. */
  lemma {:induction false} JoinWithSpaceAppend(a: seq<string>, b: seq<string>)
    requires a != [] && b != []
    ensures JoinWithSpace(a + b) == JoinWithSpace(a) + " " + JoinWithSpace(b)
    decreases |a|
  {
    var ab := a + b;
    assert ab[0] == a[0];
    if |a| == 1 {
      assert ab[1..] == b;
    } else {
      assert ab[1..] == a[1..] + b;
      JoinWithSpaceAppend(a[1..], b);
      assert JoinWithSpace(ab) == a[0] + " " + (JoinWithSpace(a[1..]) + " " + JoinWithSpace(b));
    }
  }

  /** `GET /api/transcript`: `getTranscript` is the provider. */
  function TranscriptResponse(videoId: Option<string>, getTranscript: string -> TranscriptFetch,
                              sanitize: string -> string): (r: Response)
    ensures r.status in {200, 404, 422, 500}
    ensures r.status == 422 <==> !VideoIdAccepted(videoId)
    ensures r.status == 200 ==> r.body.TranscriptText? && r.body.videoId == videoId.value
  {
    if !VideoIdAccepted(videoId) then Response(422, Error("Invalid or missing videoId."))
    else match getTranscript(videoId.value)
      case FetchThrew => Response(404, Error(TranscriptNotFound))
      case NotAnArray => Response(404, Error(TranscriptNotFound))
      case Segments(items) =>
        if |items| == 0 then Response(404, Error(TranscriptNotFound))
        else match SegmentTexts(items)
          case None => Response(500, Error(InternalError))
          case Some(texts) => Response(200, TranscriptText(videoId.value, sanitize(JoinWithSpace(texts))))
  }

  /** An invalid id is answered 422 before the provider is consulted: no
      provider can change that answer. */
  lemma TranscriptInvalidIdNeverFetches(videoId: Option<string>, p1: string -> TranscriptFetch,
                                        p2: string -> TranscriptFetch, sanitize: string -> string)
    requires !VideoIdAccepted(videoId)
    ensures TranscriptResponse(videoId, p1, sanitize) == TranscriptResponse(videoId, p2, sanitize)
    ensures TranscriptResponse(videoId, p1, sanitize).status == 422
  {
  }

  /** For a valid id: a throw, a non-array or an empty array are all the
      same 404, and otherwise the text is the sanitized join of the segment
      texts with the requested id echoed. */
  lemma TranscriptOutcomes(videoId: Option<string>, getTranscript: string -> TranscriptFetch,
                           sanitize: string -> string)
    requires VideoIdAccepted(videoId)
    ensures var f := getTranscript(videoId.value);
            var r := TranscriptResponse(videoId, getTranscript, sanitize);
            && (f.FetchThrew? || f.NotAnArray? || (f.Segments? && f.items == []) <==>
                  r == Response(404, Error(TranscriptNotFound)))
            && (r.status == 200 <==>
                  f.Segments? && f.items != [] && forall i :: 0 <= i < |f.items| ==> f.items[i].Segment?)
            && (r.status == 200 ==>
                  r.body == TranscriptText(videoId.value, sanitize(JoinWithSpace(SegmentTexts(f.items).value))))
  {
  }

  // ------------------------------------------------------------ /api/chat

  const ChatFieldsRequired := "videoId and question are required."

  /** The text sent to the completion provider. */
  function Prompt(transcript: string, question: string): string {
    "Transcript:\n" + transcript + "\n\nUser question: " + question + "\n\nAnswer:"
  }

  /** Both body fields are present and not blank. */
  predicate ChatFieldsPresent(videoId: Option<string>, question: Option<string>) {
    videoId.Some? && question.Some? && !IsBlank(videoId.value) && !IsBlank(question.value)
  }

  /** Every check of `/api/chat` before the provider call passes. */
  predicate ChatChecksPass(videoId: Option<string>, question: Option<string>,
                           transcripts: map<string, string>, apiKey: Option<string>) {
    && videoId.Some? && question.Some?
    && !IsBlank(videoId.value) && !IsBlank(question.value)
    && |question.value| <= MaxQuestionLength
    && videoId.value in transcripts
    && apiKey.Some? && apiKey.value != ""
  }

  /** The `catch` block of `/api/chat`. */
  function ChatFailure(code: string, response: Option<UpstreamResponse>): (r: Response)
    ensures r.status == 403 <==> code == "EBADCSRFTOKEN"
    ensures r.status == 502 <==> code != "EBADCSRFTOKEN" && HasResponseData(response)
    ensures r.status in {403, 502, 500}
    ensures r.status == 403 ==> r.body == Error("Invalid CSRF token.")
    ensures r.status == 502 ==> r.body.ErrorDetails? && r.body.details == response.value.data.value
    ensures r.status == 500 ==> r.body == Error(InternalError)
  {
    if code == "EBADCSRFTOKEN" then Response(403, Error("Invalid CSRF token."))
    else if HasResponseData(response) then Response(502, ErrorDetails("OpenAI API error", response.value.data.value))
    else Response(500, Error(InternalError))
  }

  /** `POST /api/chat`. `transcripts` maps a video id to its stored text;
      `complete(key, prompt)` is the completion call, delivering the first
      choice's message content when there is one. */
  function ChatResponse(videoId: Option<string>, question: Option<string>,
                        transcripts: map<string, string>, apiKey: Option<string>,
                        complete: (string, string) -> Upstream<Option<string>>,
                        sanitize: string -> string): (r: Response)
    ensures r.status in {200, 400, 403, 404, 422, 500, 502}
    ensures r.status == 400 <==> !ChatFieldsPresent(videoId, question)
    ensures r.status == 422 <==> ChatFieldsPresent(videoId, question) && |question.value| > MaxQuestionLength
    ensures r.status == 200 ==> r.body.Answer?
  {
    if videoId.None? || question.None? || IsBlank(videoId.value) || IsBlank(question.value) then
      Response(400, Error(ChatFieldsRequired))
    else if |question.value| > MaxQuestionLength then Response(422, Error("Question too long."))
    else if videoId.value !in transcripts then Response(404, Error(TranscriptNotFound))
    else if apiKey.None? || apiKey.value == "" then Response(500, Error("OpenAI API key not configured."))
    else match complete(apiKey.value, Prompt(transcripts[videoId.value], question.value))
      case Delivered(content) =>
        Response(200, Answer(sanitize(if content.Some? then content.value else "")))
      case Threw(code, response) => ChatFailure(code, response)
  }

  /** A missing or blank field is reported before the length: a blank
      question of any length gets 400, never 422. */
  lemma ChatBlankBeforeLength(videoId: Option<string>, question: string,
                              transcripts: map<string, string>, apiKey: Option<string>,
                              complete: (string, string) -> Upstream<Option<string>>,
                              sanitize: string -> string)
    requires AllWhitespace(question)
    ensures ChatResponse(videoId, Some(question), transcripts, apiKey, complete, sanitize)
            == Response(400, Error(ChatFieldsRequired))
  {
    BlankIffAllWhitespace(question);
  }

  /** Past the field check, an over-long question is 422 whatever the
      transcript store, key and provider. */
  lemma ChatLongQuestionIs422(videoId: string, question: string,
                              transcripts: map<string, string>, apiKey: Option<string>,
                              complete: (string, string) -> Upstream<Option<string>>,
                              sanitize: string -> string)
    requires !AllWhitespace(videoId) && !AllWhitespace(question)
    requires |question| > MaxQuestionLength
    ensures ChatResponse(Some(videoId), Some(question), transcripts, apiKey, complete, sanitize).status == 422
  {
    BlankIffAllWhitespace(videoId);
    BlankIffAllWhitespace(question);
  }

  /** Past the field and length checks, a video with no stored transcript
      gets 404, whatever the key and provider. */
  lemma ChatUnknownVideoIs404(videoId: string, question: string,
                              transcripts: map<string, string>, apiKey: Option<string>,
                              complete: (string, string) -> Upstream<Option<string>>,
                              sanitize: string -> string)
    requires !AllWhitespace(videoId) && !AllWhitespace(question)
    requires |question| <= MaxQuestionLength && videoId !in transcripts
    ensures ChatResponse(Some(videoId), Some(question), transcripts, apiKey, complete, sanitize)
            == Response(404, Error(TranscriptNotFound))
  {
    BlankIffAllWhitespace(videoId);
    BlankIffAllWhitespace(question);
  }

  /** A missing or empty key is a configuration error: 500 with its own
      message, before the provider is called, whatever the provider. */
  lemma ChatMissingKeyIs500(videoId: string, question: string,
                            transcripts: map<string, string>, apiKey: Option<string>,
                            complete: (string, string) -> Upstream<Option<string>>,
                            sanitize: string -> string)
    requires !AllWhitespace(videoId) && !AllWhitespace(question)
    requires |question| <= MaxQuestionLength && videoId in transcripts
    requires apiKey.None? || apiKey.value == ""
    ensures ChatResponse(Some(videoId), Some(question), transcripts, apiKey, complete, sanitize)
            == Response(500, Error("OpenAI API key not configured."))
  {
    BlankIffAllWhitespace(videoId);
    BlankIffAllWhitespace(question);
  }

  /** Success needs every check and a delivered completion; the answer is
      the sanitized content, or the sanitized empty string. */
  lemma ChatSuccessIff(videoId: Option<string>, question: Option<string>,
                       transcripts: map<string, string>, apiKey: Option<string>,
                       complete: (string, string) -> Upstream<Option<string>>,
                       sanitize: string -> string)
    ensures var r := ChatResponse(videoId, question, transcripts, apiKey, complete, sanitize);
            r.status == 200 <==>
              ChatChecksPass(videoId, question, transcripts, apiKey)
              && complete(apiKey.value, Prompt(transcripts[videoId.value], question.value)).Delivered?
    ensures var r := ChatResponse(videoId, question, transcripts, apiKey, complete, sanitize);
            r.status == 200 ==>
              var c := complete(apiKey.value, Prompt(transcripts[videoId.value], question.value)).value;
              r.body == Answer(sanitize(if c.Some? then c.value else ""))
  {
  }

  /** The provider is consulted only once every check has passed. */
  lemma ChatProviderOnlyAfterChecks(videoId: Option<string>, question: Option<string>,
                                    transcripts: map<string, string>, apiKey: Option<string>,
                                    c1: (string, string) -> Upstream<Option<string>>,
                                    c2: (string, string) -> Upstream<Option<string>>,
                                    sanitize: string -> string)
    requires !ChatChecksPass(videoId, question, transcripts, apiKey)
    ensures ChatResponse(videoId, question, transcripts, apiKey, c1, sanitize)
            == ChatResponse(videoId, question, transcripts, apiKey, c2, sanitize)
  {
  }

  /** Once every check passes, a throwing completion call is answered by
      the `catch` block: CSRF 403, 502 with the data, or 500. */
  lemma ChatThrowIsFailure(videoId: Option<string>, question: Option<string>,
                           transcripts: map<string, string>, apiKey: Option<string>,
                           complete: (string, string) -> Upstream<Option<string>>,
                           sanitize: string -> string)
    requires ChatChecksPass(videoId, question, transcripts, apiKey)
    requires complete(apiKey.value, Prompt(transcripts[videoId.value], question.value)).Threw?
    ensures var o := complete(apiKey.value, Prompt(transcripts[videoId.value], question.value));
            ChatResponse(videoId, question, transcripts, apiKey, complete, sanitize)
            == ChatFailure(o.code, o.response)
  {
  }

  // ---------------------------------------------------------- /api/search

  /** The alternatives of the backend's `sqlInjectionPattern`, lower-cased. */
  const SqlTokens: seq<string> :=
    ["'", "--", ";", "/*", "*/", " or ", " and ", "=",
     "select ", "insert ", "update ", "delete ", "drop ", "union "]

  /** `sqlInjectionPattern.test(query)`: some token occurs, ignoring case. */
  predicate SqlBlocked(query: string) {
    exists k :: 0 <= k < |SqlTokens| && ContainsIgnoringCase(query, SqlTokens[k])
  }

  /** Every token holds one of these characters. */
  predicate IsSqlPunctuation(c: char) {
    c == '\'' || c == '-' || c == ';' || c == '/' || c == '*' || c == ' ' || c == '='
  }

  /** The backend blocklist only fires on a query holding a quote, dash,
      semicolon, slash, star, space or equals sign; whole words alone
      (`dropbox`) never trigger it. */
  lemma SqlBlockedNeedsPunctuation(query: string)
    requires SqlBlocked(query)
    ensures exists i :: 0 <= i < |query| && IsSqlPunctuation(query[i])
  {
    var k :| 0 <= k < |SqlTokens| && ContainsIgnoringCase(query, SqlTokens[k]);
    var tok := SqlTokens[k];
    var c: char := if k == 0 then '\'' else if k == 1 then '-' else if k == 2 then ';'
                   else if k == 3 || k == 4 then '*' else if k == 7 then '=' else ' ';
    assert c in tok;
    ContainsOnlyCharsOf(LowerString(query), tok, c);
    var i :| 0 <= i < |query| && LowerString(query)[i] == c;
    assert LowerAscii(query[i]) == c;
    assert query[i] == c;
  }

  /** An item of the search provider's `items`. */
  datatype RawItem = RawItem(videoId: string, title: string, description: string,
                             thumbnailUrl: Option<string>)

  /** The `items.map(…)` of `/api/search`: every field is sanitized and a
      missing thumbnail URL becomes the sanitized empty string. */
  function MapVideos(items: seq<RawItem>, sanitize: string -> string): (r: seq<Video>)
    ensures |r| == |items|
    ensures forall i :: 0 <= i < |items| ==>
              r[i] == Video(sanitize(items[i].videoId), sanitize(items[i].title),
                            sanitize(items[i].description),
                            sanitize(if items[i].thumbnailUrl.Some? then items[i].thumbnailUrl.value else ""))
  {
    seq(|items|, i requires 0 <= i < |items| =>
      Video(sanitize(items[i].videoId), sanitize(items[i].title), sanitize(items[i].description),
            sanitize(if items[i].thumbnailUrl.Some? then items[i].thumbnailUrl.value else "")))
  }

  const QuotaExceeded := "YouTube API quota exceeded or forbidden."

  /** The `catch` block of `/api/search`: an upstream 403 is reported as
      a quota or permission problem, any other upstream answer with data
      as a generic provider error, both carrying the data as `details`. */
  function SearchFailure(response: Option<UpstreamResponse>): (r: Response)
    ensures r.status == 502 <==> HasResponseData(response)
    ensures r.status in {502, 500}
    ensures r.status == 502 ==> r.body.ErrorDetails? && r.body.details == response.value.data.value
    ensures r.body.ErrorDetails? && r.body.error == QuotaExceeded
            <==> HasResponseData(response) && response.value.status == 403
    ensures r.status == 500 ==> r.body == Error(InternalError)
  {
    if HasResponseData(response) && response.value.status == 403 then
      Response(502, ErrorDetails(QuotaExceeded, response.value.data.value))
    else if HasResponseData(response) then
      Response(502, ErrorDetails("YouTube API error", response.value.data.value))
    else Response(500, Error(InternalError))
  }

  const QueryRequired := "Search query is required."
  const InvalidQuery := "Invalid search query."

  /** Every check of `/api/search` before the provider call passes. */
  predicate SearchChecksPass(query: Option<string>, apiKey: Option<string>) {
    && query.Some? && !IsBlank(query.value)
    && |query.value| <= MaxQueryLength
    && !SqlBlocked(query.value)
    && apiKey.Some? && apiKey.value != ""
  }

  /** `GET /api/search`. `search(key, q)` is the video search call,
      delivering `data.items` when present. */
  function SearchResponse(query: Option<string>, apiKey: Option<string>,
                          search: (string, string) -> Upstream<Option<seq<RawItem>>>,
                          sanitize: string -> string): (r: Response)
    ensures r.status in {200, 400, 422, 500, 502}
    ensures r.status == 422 <==> query.Some? && !IsBlank(query.value) && |query.value| > MaxQueryLength
    ensures r.status == 400 ==> r.body == Error(QueryRequired) || r.body == Error(InvalidQuery)
    ensures r.status == 200 ==> r.body.Videos?
  {
    if query.None? || IsBlank(query.value) then Response(400, Error(QueryRequired))
    else if |query.value| > MaxQueryLength then Response(422, Error("Query too long."))
    else if SqlBlocked(query.value) then Response(400, Error(InvalidQuery))
    else if apiKey.None? || apiKey.value == "" then Response(500, Error("YouTube API key not configured."))
    else match search(apiKey.value, query.value)
      case Delivered(items) => Response(200, Videos(MapVideos(if items.Some? then items.value else [], sanitize)))
      case Threw(_, response) => SearchFailure(response)
  }

  /** A blocked query within the length bound is 400, whatever the key and
      provider. */
  lemma SearchBlockedIs400(query: string, apiKey: Option<string>,
                           search: (string, string) -> Upstream<Option<seq<RawItem>>>,
                           sanitize: string -> string)
    requires !AllWhitespace(query) && |query| <= MaxQueryLength && SqlBlocked(query)
    ensures SearchResponse(Some(query), apiKey, search, sanitize) == Response(400, Error(InvalidQuery))
  {
    BlankIffAllWhitespace(query);
  }

  /** A missing or whitespace-only query is 400 "required". */
  lemma SearchBlankIs400(query: Option<string>, apiKey: Option<string>,
                         search: (string, string) -> Upstream<Option<seq<RawItem>>>,
                         sanitize: string -> string)
    requires query.None? || AllWhitespace(query.value)
    ensures SearchResponse(query, apiKey, search, sanitize) == Response(400, Error(QueryRequired))
  {
    if query.Some? {
      BlankIffAllWhitespace(query.value);
    }
  }

  /** A non-blank query over 200 characters is 422, whatever the key and
      provider, even when it would also hit the blocklist. */
  lemma SearchLongQueryIs422(query: string, apiKey: Option<string>,
                             search: (string, string) -> Upstream<Option<seq<RawItem>>>,
                             sanitize: string -> string)
    requires !AllWhitespace(query) && |query| > MaxQueryLength
    ensures SearchResponse(Some(query), apiKey, search, sanitize) == Response(422, Error("Query too long."))
  {
    BlankIffAllWhitespace(query);
  }

  /** Past the query checks, a missing or empty key is a configuration
      error: 500 with its own message, whatever the provider. */
  lemma SearchMissingKeyIs500(query: string, apiKey: Option<string>,
                              search: (string, string) -> Upstream<Option<seq<RawItem>>>,
                              sanitize: string -> string)
    requires !AllWhitespace(query) && |query| <= MaxQueryLength && !SqlBlocked(query)
    requires apiKey.None? || apiKey.value == ""
    ensures SearchResponse(Some(query), apiKey, search, sanitize)
            == Response(500, Error("YouTube API key not configured."))
  {
    BlankIffAllWhitespace(query);
  }

  /** Once a query is present, non-blank and short enough, a 400 means
      the blocklist fired and nothing else. */
  lemma SearchPastPrechecks(query: string, apiKey: Option<string>,
                            search: (string, string) -> Upstream<Option<seq<RawItem>>>,
                            sanitize: string -> string)
    requires !IsBlank(query) && |query| <= MaxQueryLength
    ensures var r := SearchResponse(Some(query), apiKey, search, sanitize);
            && r.status != 422
            && r.body != Error(QueryRequired)
            && (r.status == 400 <==> SqlBlocked(query))
  {
  }

  /** Success needs every check and a delivered result; the videos are the
      mapped items. */
  lemma SearchSuccessIff(query: Option<string>, apiKey: Option<string>,
                         search: (string, string) -> Upstream<Option<seq<RawItem>>>,
                         sanitize: string -> string)
    ensures var r := SearchResponse(query, apiKey, search, sanitize);
            r.status == 200 <==> SearchChecksPass(query, apiKey) && search(apiKey.value, query.value).Delivered?
    ensures var r := SearchResponse(query, apiKey, search, sanitize);
            r.status == 200 ==>
              var items := search(apiKey.value, query.value).value;
              r.body == Videos(MapVideos(if items.Some? then items.value else [], sanitize))
  {
  }

  /** The provider is consulted only once every check has passed. */
  lemma SearchProviderOnlyAfterChecks(query: Option<string>, apiKey: Option<string>,
                                      s1: (string, string) -> Upstream<Option<seq<RawItem>>>,
                                      s2: (string, string) -> Upstream<Option<seq<RawItem>>>,
                                      sanitize: string -> string)
    requires !SearchChecksPass(query, apiKey)
    ensures SearchResponse(query, apiKey, s1, sanitize) == SearchResponse(query, apiKey, s2, sanitize)
  {
  }

  /** Once every check passes, a throwing search call is answered by the
      `catch` block: 502 with the data (the quota message for an upstream
      403), or 500. */
  lemma SearchThrowIsFailure(query: Option<string>, apiKey: Option<string>,
                             search: (string, string) -> Upstream<Option<seq<RawItem>>>,
                             sanitize: string -> string)
    requires SearchChecksPass(query, apiKey)
    requires search(apiKey.value, query.value).Threw?
    ensures SearchResponse(query, apiKey, search, sanitize)
            == SearchFailure(search(apiKey.value, query.value).response)
  {
  }

  // ------------------------------------------------------------ usageStats

  /** `usageStats`: process-lifetime counters. */
  class UsageStats {
    var searches: nat
    var chats: nat
    var errors: nat

    /** Each error is charged to one counted request. */
    ghost predicate Valid()
      reads this
    {
      errors <= searches + chats
    }

    constructor ()
      ensures Valid()
      ensures searches == 0 && chats == 0 && errors == 0
    {
      searches, chats, errors := 0, 0, 0;
    }

    /** `POST /api/chat`: counts the request on entry and each failure once. */
    method Chat(videoId: Option<string>, question: Option<string>,
                transcripts: map<string, string>, apiKey: Option<string>,
                complete: (string, string) -> Upstream<Option<string>>,
                sanitize: string -> string) returns (r: Response)
      requires Valid()
      modifies this
      ensures Valid()
      ensures r == ChatResponse(videoId, question, transcripts, apiKey, complete, sanitize)
      ensures chats == old(chats) + 1 && searches == old(searches)
      ensures errors == old(errors) + (if r.status == 200 then 0 else 1)
    {
      chats := chats + 1;
      if videoId.None? || question.None? || IsBlank(videoId.value) || IsBlank(question.value) {
        errors := errors + 1;
        return Response(400, Error(ChatFieldsRequired));
      }
      if |question.value| > MaxQuestionLength {
        errors := errors + 1;
        return Response(422, Error("Question too long."));
      }
      if videoId.value !in transcripts {
        errors := errors + 1;
        return Response(404, Error(TranscriptNotFound));
      }
      if apiKey.None? || apiKey.value == "" {
        errors := errors + 1;
        return Response(500, Error("OpenAI API key not configured."));
      }
      var outcome := complete(apiKey.value, Prompt(transcripts[videoId.value], question.value));
      match outcome {
        case Delivered(content) =>
          var answer := if content.Some? then content.value else "";
          r := Response(200, Answer(sanitize(answer)));
        case Threw(code, response) =>
          errors := errors + 1;
          r := ChatFailure(code, response);
      }
    }

    /** `GET /api/search`: counts the request on entry and each failure once. */
    method Search(query: Option<string>, apiKey: Option<string>,
                  search: (string, string) -> Upstream<Option<seq<RawItem>>>,
                  sanitize: string -> string) returns (r: Response)
      requires Valid()
      modifies this
      ensures Valid()
      ensures r == SearchResponse(query, apiKey, search, sanitize)
      ensures searches == old(searches) + 1 && chats == old(chats)
      ensures errors == old(errors) + (if r.status == 200 then 0 else 1)
    {
      searches := searches + 1;
      if query.None? || IsBlank(query.value) {
        errors := errors + 1;
        return Response(400, Error(QueryRequired));
      }
      if |query.value| > MaxQueryLength {
        errors := errors + 1;
        return Response(422, Error("Query too long."));
      }
      if SqlBlocked(query.value) {
        errors := errors + 1;
        return Response(400, Error(InvalidQuery));
      }
      if apiKey.None? || apiKey.value == "" {
        errors := errors + 1;
        return Response(500, Error("YouTube API key not configured."));
      }
      var outcome := search(apiKey.value, query.value);
      match outcome {
        case Delivered(items) =>
          r := Response(200, Videos(MapVideos(if items.Some? then items.value else [], sanitize)));
        case Threw(_, response) =>
          errors := errors + 1;
          r := SearchFailure(response);
      }
    }

    /** `GET /api/admin/stats`: the three counters, only for a configured,
        non-empty admin key that the `x-admin-key` header equals. Being a
        function, it cannot change the counters. */
    function Stats(adminKey: Option<string>, expectedKey: Option<string>): (r: Response)
      reads this
      requires Valid()
      ensures r.status == 200 <==> expectedKey.Some? && expectedKey.value != "" && adminKey == expectedKey
      ensures r.status == 200 ==> r.body == ApiTypes.Stats(searches, chats, errors)
      ensures r.status != 200 ==> r == Response(401, Error("Unauthorized"))
      ensures r.body.Stats? ==> r.body.errors <= r.body.searches + r.body.chats
    {
      if expectedKey.None? || expectedKey.value == "" || adminKey.None? || adminKey.value == ""
         || adminKey.value != expectedKey.value then
        Response(401, Error("Unauthorized"))
      else
        Response(200, ApiTypes.Stats(searches, chats, errors))
    }
  }
}

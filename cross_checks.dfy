/** How the frontend components and the backend handlers of the same
    requests fit together. The components' own checks and the backend's
    differ; these lemmas pin down where. */
module CrossChecks {
  import opened JsText
  import opened ApiTypes
  import BackendApi
  import ChatComponent
  import SearchComponent

  /** A query the Search component lets through is sent trimmed and is
      never refused by the backend as missing or too long: a 400 from the
      backend can only be its own blocklist. */
  lemma AcceptedQueryReachesBlocklist(q: string, apiKey: Option<string>,
                                      search: (string, string) -> Upstream<Option<seq<BackendApi.RawItem>>>,
                                      sanitize: string -> string)
    requires SearchComponent.ValidateQuery(q) == ""
    ensures var r := BackendApi.SearchResponse(Some(Trim(q)), apiKey, search, sanitize);
            && r.status != 422
            && r.body != Error("Search query is required.")
            && (r.status == 400 <==> BackendApi.SqlBlocked(Trim(q)))
  {
    SearchComponent.AcceptedQuerySent(q);
    BackendApi.SearchPastPrechecks(Trim(q), apiKey, search, sanitize);
  }

  lemma EqualsSignPassesFrontend()
    ensures SearchComponent.ValidateQuery("a=b") == ""
  {
    SearchComponent.NoMarkerNoMatch("a=b");
    BlankIffAllWhitespace("a=b");
  }

  lemma EqualsSignBlockedByBackend()
    ensures BackendApi.SqlBlocked("a=b")
  {
    var l := LowerString("a=b");
    assert l == "a=b";
    assert l[1..][..1] == "=";
    assert Contains(l, BackendApi.SqlTokens[7]);
  }

  /** `"a=b"` passes the component's pattern but the backend blocks it,
      and the component then shows its message for a 400. */
  lemma FrontendPassesBackendBlocks(apiKey: Option<string>,
                                    search: (string, string) -> Upstream<Option<seq<BackendApi.RawItem>>>,
                                    sanitize: string -> string)
    ensures SearchComponent.ValidateQuery("a=b") == ""
    ensures BackendApi.SqlBlocked("a=b")
    ensures BackendApi.SearchResponse(Some("a=b"), apiKey, search, sanitize).status == 400
    ensures SearchComponent.SubmitFailure(400) == "Invalid search query."
  {
    EqualsSignPassesFrontend();
    EqualsSignBlockedByBackend();
    BlankIffAllWhitespace("a=b");
    BackendApi.SearchBlockedIs400("a=b", apiKey, search, sanitize);
  }

  lemma DropboxMatchesPattern()
    ensures SearchComponent.PatternMatches("dropbox")
  {
    var l := LowerString("dropbox");
    assert l[..4] == "drop";
    assert Contains(l, SearchComponent.QueryTokens[5]);
  }

  lemma DropboxRefusedByFrontend()
    ensures SearchComponent.ValidateQuery("dropbox") == SearchComponent.InvalidCharacters
  {
    var q := "dropbox";
    assert !AllWhitespace(q) by { assert !IsJsWhitespace(q[0]); }
    DropboxMatchesPattern();
    SearchComponent.ValidateQueryCases(q);
  }

  lemma DropboxPassesBackend()
    ensures !BackendApi.SqlBlocked("dropbox")
  {
    if BackendApi.SqlBlocked("dropbox") {
      BackendApi.SqlBlockedNeedsPunctuation("dropbox");
    }
  }

  /** `"dropbox"` is the reverse: the component refuses it, the backend
      would not. */
  lemma BackendPassesFrontendBlocks()
    ensures SearchComponent.ValidateQuery("dropbox") == SearchComponent.InvalidCharacters
    ensures !BackendApi.SqlBlocked("dropbox")
  {
    DropboxRefusedByFrontend();
    DropboxPassesBackend();
  }

  /** A message the Chat component accepts, were it posted as the
      backend's `question`, would pass the backend's field and length
      checks: its trimmed text is non-blank and short enough. */
  lemma AcceptedMessagePassesBackendChecks(input: string, videoId: string,
                                           transcripts: map<string, string>, apiKey: Option<string>,
                                           complete: (string, string) -> Upstream<Option<string>>,
                                           sanitize: string -> string)
    requires ChatComponent.ValidateMessage(input) == ""
    requires !AllWhitespace(videoId)
    ensures var r := BackendApi.ChatResponse(Some(videoId), Some(Trim(input)), transcripts, apiKey,
                                             complete, sanitize);
            r.status != 400 && r.status != 422
  {
    var t := Trim(input);
    ChatComponent.AcceptedInputIsSendable(input);
    BlankIffAllWhitespace(t);
    BlankIffAllWhitespace(videoId);
  }

  /** The Chat component posts `{ user, text }`, but `/api/chat` reads
      `videoId` and `question` from the body: both are absent, so the
      backend answers 400 and the component shows "Invalid message.". */
  lemma ChatRequestLacksBackendFields(transcripts: map<string, string>,
                                      apiKey: Option<string>,
                                      complete: (string, string) -> Upstream<Option<string>>,
                                      sanitize: string -> string)
    ensures BackendApi.ChatResponse(None, None, transcripts, apiKey, complete, sanitize)
            == Response(400, Error(BackendApi.ChatFieldsRequired))
    ensures ChatComponent.SendFailure(400) == "Invalid message."
  {
  }
}

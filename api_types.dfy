/** The JSON responses of the backend in backend/index.js and the shape of
    its calls to third-party providers. */
module ApiTypes {
  import opened JsText

  /** One mapped search hit. */
  datatype Video = Video(id: string, title: string, description: string, thumbnail: string)

  /** The JSON object a handler sends. */
  datatype Body =
    | Error(error: string)
    | ErrorDetails(error: string, details: string)
    | TranscriptText(videoId: string, text: string)
    | Answer(answer: string)
    | Videos(videos: seq<Video>)
    | Stats(searches: nat, chats: nat, errors: nat)
    | ResourceData(id: int, data: string)

  datatype Response = Response(status: int, body: Body)

  /** `err.response` of a failed provider call: its status and its `data`,
      `None` when the data is absent or falsy. The data itself is opaque. */
  datatype UpstreamResponse = UpstreamResponse(status: int, data: Option<string>)

  /** How an awaited provider call ends: it delivers a value, or it throws
      an error carrying a `code` and possibly a `response`. */
  datatype Upstream<T> = Delivered(value: T) | Threw(code: string, response: Option<UpstreamResponse>)

  /** True of `err.response && err.response.data`. */
  predicate HasResponseData(response: Option<UpstreamResponse>) {
    response.Some? && response.value.data.Some?
  }
}

/** How an awaited `fetch` to the backend ends, as the components see it. */
module Fetch {
  import opened JsText

  /** The request got a response with this status, whose `res.json()`
      yields a value (`Some`) or rejects (`None`); or `fetch` itself
      rejected. */
  datatype Outcome<D> = Responded(status: int, json: Option<D>) | NetworkFailure

  /** `res.ok`: a status in the range 200 to 299. */
  predicate IsOk(status: int) {
    200 <= status <= 299
  }

  const NetworkError := "Network error. Please try again."
}

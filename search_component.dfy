/** The Search component of frontend/src/components/Search.js: the
    `sqlInjectionPattern` regular expression, `validateQuery`, and the
    state changes of `handleSubmit` over `query`, `loading`, `error` and
    `results`. The JSON the backend answers with is of an opaque type `D`. */
module SearchComponent {
  import opened JsText
  import opened Fetch

  const MaxQueryLength := 200

  const EmptyQuery := "Query cannot be empty."
  const QueryTooLong := "Query too long."
  const InvalidCharacters := "Invalid characters in query."

  /** The literal alternatives of `sqlInjectionPattern`, lower-case; the
      `/i` flag makes each match in any ASCII case. */
  const QueryTokens: seq<string> :=
    ["'", "--", ";", "/*", "*/", "drop", "select", "insert", "delete", "update", "union"]

  /** The regular expression read literally: `or`, then `n >= 1`
      whitespace characters, then `1=1`, at position `i`. */
  predicate OrSpacedAt(s: string, i: int, n: int) {
    && 0 <= i && 1 <= n && i + 2 + n + 3 <= |s|
    && s[i..i + 2] == "or" && AllWhitespace(s[i + 2..i + 2 + n])
    && s[i + 2 + n..i + 2 + n + 3] == "1=1"
  }

  lemma SliceOfSlice(s: string, a: int, b: int, i: int, j: int)
    requires 0 <= a <= b <= |s| && 0 <= i <= j <= b - a
    ensures s[a..b][i..j] == s[a + i..a + j]
  {
    forall k | 0 <= k < j - i ensures s[a..b][i..j][k] == s[a + i..a + j][k] {
      assert s[a..b][i..j][k] == s[a..b][i + k] == s[a + i + k];
    }
  }

  /** One of the literal alternatives occurs in the lower-cased `l`. */
  predicate HasToken(l: string) {
    exists k :: 0 <= k < |QueryTokens| && Contains(l, QueryTokens[k])
  }

  /** The `or\s+1=1` alternative occurs in the lower-cased `l`. */
  predicate HasOrOneEqualsOne(l: string) {
    exists i, n :: 0 <= i < |l| && 1 <= n <= |l| && OrSpacedAt(l, i, n)
  }

  /** `sqlInjectionPattern.test(q)`. */
  predicate PatternMatches(q: string) {
    HasToken(LowerString(q)) || HasOrOneEqualsOne(LowerString(q))
  }

  /** `validateQuery(q)`: blank, then the untrimmed length, then the
      pattern. */
  function ValidateQuery(q: string): (r: string)
    ensures r in {EmptyQuery, QueryTooLong, InvalidCharacters, ""}
  {
    if IsBlank(q) then EmptyQuery
    else if |q| > MaxQueryLength then QueryTooLong
    else if PatternMatches(q) then InvalidCharacters
    else ""
  }

  /** Which message `validateQuery` gives, and that it gives the empty
      string exactly for a query that is not blank, within the length
      limit and free of the pattern. */
  lemma ValidateQueryCases(q: string)
    ensures ValidateQuery(q) == EmptyQuery <==> AllWhitespace(q)
    ensures ValidateQuery(q) == QueryTooLong <==> !AllWhitespace(q) && |q| > MaxQueryLength
    ensures ValidateQuery(q) == InvalidCharacters
            <==> !AllWhitespace(q) && |q| <= MaxQueryLength && PatternMatches(q)
    ensures ValidateQuery(q) == "" <==> !AllWhitespace(q) && |q| <= MaxQueryLength && !PatternMatches(q)
  {
    BlankIffAllWhitespace(q);
  }

  /** The `or\s+1=1` alternative found in a slice is found in the whole. */
  lemma OrSpacedInSlice(s: string, a: int, b: int, i: int, n: int)
    requires 0 <= a <= b <= |s| && OrSpacedAt(s[a..b], i, n)
    ensures OrSpacedAt(s, a + i, n)
  {
    SliceOfSlice(s, a, b, i, i + 2);
    SliceOfSlice(s, a, b, i + 2, i + 2 + n);
    SliceOfSlice(s, a, b, i + 2 + n, i + 2 + n + 3);
  }

  lemma HasTokenInSlice(l: string, a: int, b: int)
    requires 0 <= a <= b <= |l| && HasToken(l[a..b])
    ensures HasToken(l)
  {
    var k :| 0 <= k < |QueryTokens| && Contains(l[a..b], QueryTokens[k]);
    ContainsInSlice(l, a, b, QueryTokens[k]);
  }

  lemma HasOrOneEqualsOneInSlice(l: string, a: int, b: int)
    requires 0 <= a <= b <= |l| && HasOrOneEqualsOne(l[a..b])
    ensures HasOrOneEqualsOne(l)
  {
    var i, n :| 0 <= i < b - a && 1 <= n <= b - a && OrSpacedAt(l[a..b], i, n);
    OrSpacedInSlice(l, a, b, i, n);
  }

  /** The pattern has no anchors: what it finds in a slice of `q` it finds
      in `q`. */
  lemma PatternInSliceOf(q: string, a: int, b: int, t: string)
    requires 0 <= a <= b <= |q| && t == q[a..b]
    ensures PatternMatches(t) ==> PatternMatches(q)
  {
    if PatternMatches(t) {
      PatternInSlice(q, a, b);
    }
  }

  lemma PatternInSlice(q: string, a: int, b: int)
    requires 0 <= a <= b <= |q| && PatternMatches(q[a..b])
    ensures PatternMatches(q)
  {
    var l := LowerString(q);
    LowerStringSlice(q, a, b);
    if HasToken(l[a..b]) {
      HasTokenInSlice(l, a, b);
    } else {
      HasOrOneEqualsOneInSlice(l, a, b);
    }
  }

  /** Trimming cannot bring the pattern in: it only removes characters
      from the ends. */
  lemma TrimmedPatternFree(q: string)
    ensures PatternMatches(Trim(q)) ==> PatternMatches(q)
  {
    var t := Trim(q);
    var a := TrimOffset(q);
    PatternInSliceOf(q, a, a + |t|, t);
  }

  /** `handleSubmit` sends `query.trim()`, and what it sends would pass
      `validateQuery` too. */
  lemma TrimmedQueryStaysValid(q: string)
    requires ValidateQuery(q) == ""
    ensures ValidateQuery(Trim(q)) == ""
  {
    TrimKeepsContent(q);
    TrimmedPatternFree(q);
  }

  /** Characters one of which every literal alternative holds. */
  predicate IsTokenMarker(c: char) {
    c == '\'' || c == '-' || c == ';' || c == '/' || c == '*'
    || c == 'd' || c == 's' || c == 'i' || c == 'u'
  }

  lemma NoMarkerNoToken(l: string)
    requires forall i :: 0 <= i < |l| ==> !IsTokenMarker(l[i])
    ensures !HasToken(l)
  {
    if HasToken(l) {
      var k :| 0 <= k < |QueryTokens| && Contains(l, QueryTokens[k]);
      var c: char := if k == 0 then '\'' else if k == 1 then '-' else if k == 2 then ';'
                     else if k == 3 then '/' else if k == 4 then '*' else if k == 5 || k == 8 then 'd'
                     else if k == 6 then 's' else if k == 7 then 'i' else 'u';
      assert c in QueryTokens[k];
      ContainsOnlyCharsOf(l, QueryTokens[k], c);
    }
  }

  lemma NoWhitespaceNoOr(l: string)
    requires forall i :: 0 <= i < |l| ==> !IsJsWhitespace(l[i])
    ensures !HasOrOneEqualsOne(l)
  {
    forall i, n | 0 <= i < |l| && 1 <= n <= |l| ensures !OrSpacedAt(l, i, n) {
      if i + 2 + n <= |l| {
        assert l[i + 2..i + 2 + n][0] == l[i + 2];
      }
    }
  }

  /** A query with no whitespace and, in any case, none of the characters
      `' - ; / * d s i u` never matches the pattern. */
  lemma NoMarkerNoMatch(q: string)
    requires forall i :: 0 <= i < |q| ==> !IsJsWhitespace(q[i]) && !IsTokenMarker(LowerAscii(q[i]))
    ensures !PatternMatches(q)
  {
    var l := LowerString(q);
    NoMarkerNoToken(l);
    forall i | 0 <= i < |l| ensures !IsJsWhitespace(l[i]) {
      assert l[i] == LowerAscii(q[i]);
    }
    NoWhitespaceNoOr(l);
  }

  /** The alternatives have no word boundaries: words that merely contain
      a keyword are refused, in any case. */
  lemma KeywordInsideWordMatches()
    ensures PatternMatches("Dropbox")
    ensures PatternMatches("selection")
  {
    var l1 := LowerString("Dropbox");
    assert l1[..4] == "drop";
    assert Contains(l1, QueryTokens[5]);
    var l2 := LowerString("selection");
    assert l2[..6] == "select";
    assert Contains(l2, QueryTokens[6]);
  }

  /** `or\s+1=1` matches with whitespace between `or` and `1=1`. */
  lemma OrSpaceOneEqualsOneMatches()
    ensures PatternMatches("or 1=1")
  {
    var l := LowerString("or 1=1");
    assert l == "or 1=1";
    assert OrSpacedAt(l, 0, 1);
  }

  /** ... and not without: the whitespace run must not be empty. */
  lemma OrOneEqualsOneNeedsWhitespace()
    ensures !PatternMatches("or1=1")
  {
    NoMarkerNoMatch("or1=1");
  }

  /** What `handleSubmit` sends for an accepted query is non-blank and
      within the length limit. */
  lemma AcceptedQuerySent(q: string)
    requires ValidateQuery(q) == ""
    ensures !IsBlank(Trim(q)) && |Trim(q)| <= MaxQueryLength
  {
    TrimmedQueryStaysValid(q);
  }

  /** The error `handleSubmit` shows for a response that is not ok. */
  function SubmitFailure(status: int): (r: string)
    ensures r == "Invalid search query." <==> status == 400
    ensures r == "Search failed. Please try again." <==> status != 400
  {
    if status == 400 then "Invalid search query." else "Search failed. Please try again."
  }

  /** The component's state. `onResults` is an optional callback: whether
      one was given, and the values it has been called with. Between two
      events the component is not loading, and results on show come with
      no error and were the last value handed to `onResults`, if given. */
  class SearchBox<D> {
    const hasOnResults: bool
    var query: string
    var loading: bool
    var error: string
    var results: Option<D>
    /** The trimmed queries sent to `/api/search`, oldest first. */
    var requests: seq<string>
    /** The arguments of the calls to `onResults`, oldest first. */
    var notified: seq<D>

    ghost predicate Valid()
      reads this
    {
      && !loading
      && (!hasOnResults ==> notified == [])
      && (results.Some? ==> error == "")
      && (results.Some? && hasOnResults ==> |notified| > 0 && notified[|notified| - 1] == results.value)
    }

    constructor(hasOnResults: bool)
      ensures Valid()
      ensures this.hasOnResults == hasOnResults
      ensures query == "" && !loading && error == "" && results == None
      ensures requests == [] && notified == []
    {
      this.hasOnResults := hasOnResults;
      query := "";
      loading := false;
      error := "";
      results := None;
      requests := [];
      notified := [];
    }

    /** The input's `onChange`. */
    method SetQuery(value: string)
      requires Valid()
      modifies this
      ensures Valid()
      ensures query == value
      ensures loading == old(loading) && error == old(error) && results == old(results)
      ensures requests == old(requests) && notified == old(notified)
    {
      query := value;
    }

    /** `handleSubmit` for one submission, given how its `fetch` ends. */
    method HandleSubmit(outcome: Outcome<D>)
      requires Valid()
      modifies this
      ensures Valid()
      ensures query == old(query) && !loading
      ensures ValidateQuery(old(query)) != "" ==>
                error == ValidateQuery(old(query)) && results == None
                && requests == old(requests) && notified == old(notified)
      ensures ValidateQuery(old(query)) == "" ==> Fetched(outcome, old(query), old(requests), old(notified))
    {
      error := "";
      results := None;
      var validationError := ValidateQuery(query);
      if validationError != "" {
        error := validationError;
        return;
      }
      Fetch(outcome);
    }

    /** What `handleSubmit` leaves behind once `fetch` has been called for
        `q`, from the requests and notifications that came before. */
    ghost predicate Fetched(outcome: Outcome<D>, q: string, requests0: seq<string>, notified0: seq<D>)
      reads this
    {
      && requests == requests0 + [Trim(q)]
      && (outcome.Responded? && !IsOk(outcome.status) ==>
            error == SubmitFailure(outcome.status) && results == None && notified == notified0)
      && (outcome.Responded? && IsOk(outcome.status) && outcome.json.Some? ==>
            error == "" && results == outcome.json
            && notified == notified0 + (if hasOnResults then [outcome.json.value] else []))
      && (outcome.NetworkFailure? || (IsOk(outcome.status) && outcome.json.None?) ==>
            error == NetworkError && results == None && notified == notified0)
    }

    /** The part of `handleSubmit` after validation succeeded. */
    method Fetch(outcome: Outcome<D>)
      requires Valid() && error == "" && results == None
      modifies this
      ensures Valid()
      ensures query == old(query) && !loading
      ensures Fetched(outcome, old(query), old(requests), old(notified))
    {
      loading := true;
      var sent := Trim(query);
      requests := requests + [sent];
      match outcome {
        case NetworkFailure =>
          error := NetworkError;
        case Responded(status, json) =>
          if !IsOk(status) {
            error := SubmitFailure(status);
            loading := false;
            return;
          }
          if json.Some? {
            results := json;
            if hasOnResults {
              notified := notified + [json.value];
            }
          } else {
            error := NetworkError;
          }
      }
      loading := false;
    }
  }
}

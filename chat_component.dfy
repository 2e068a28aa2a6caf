/** The Chat component of frontend/src/components/Chat.js: its local
    `escapeHTML`, `validateMessage`, and the state changes of `handleSend`
    over the component's `messages`, `input`, `loading` and `error`. */
module ChatComponent {
  import opened JsText
  import opened Fetch
  import EscapeHtml

  const MaxMessageLength := 5000

  const EmptyMessage := "Message cannot be empty."
  const MessageTooLong := "Message too long (max 5000 chars)."

  /** A chat line: who wrote it and what they wrote. */
  datatype Message = Message(user: string, text: string)

  /** The `map` of `escapeHTML` as written: each of the five matched
      characters is looked up and comes back as itself. */
  function AsWrittenEntity(c: char): (r: string)
    requires EscapeHtml.IsSpecial(c)
    ensures r == [c]
  {
    if c == '&' then "&"
    else if c == '<' then "<"
    else if c == '>' then ">"
    else if c == '"' then "\""
    else "'"
  }

  /** `escapeHTML(str)` as written: `str.replace(/[&<>"']/g, m => map[m])`. */
  function EscapeHtmlAsWritten(s: string): string
  {
    if s == [] then []
    else (if EscapeHtml.IsSpecial(s[0]) then AsWrittenEntity(s[0]) else [s[0]])
         + EscapeHtmlAsWritten(s[1..])
  }

  /** As written, `escapeHTML` changes nothing, so the text handed to
      `dangerouslySetInnerHTML` is the raw message. */
  lemma {:induction false} EscapeHtmlAsWrittenIsIdentity(s: string)
    ensures EscapeHtmlAsWritten(s) == s
  {
    if s != [] {
      EscapeHtmlAsWrittenIsIdentity(s[1..]);
      assert [s[0]] + s[1..] == s;
    }
  }

  /** A message holding a script tag reaches the markup with its tag intact. */
  lemma AsWrittenKeepsScriptTag()
    ensures EscapeHtmlAsWritten("<script>")[0] == '<'
  {
    EscapeHtmlAsWrittenIsIdentity("<script>");
  }

  /** The markup a message text should be rendered as: its entity-escaped
      form, which holds no markup delimiter and decodes back to the text. */
  function MessageMarkup(text: string): (r: string)
    ensures forall i :: 0 <= i < |r| ==> r[i] != '<' && r[i] != '>' && r[i] != '"' && r[i] != '\''
    ensures EscapeHtml.Unescape(r) == text
  {
    EscapeHtml.UnescapeEscape(text);
    EscapeHtml.Escape(text)
  }

  /** `validateMessage(msg)`: blank first, then the untrimmed length. */
  function ValidateMessage(msg: string): (r: string)
    ensures r == EmptyMessage <==> AllWhitespace(msg)
    ensures r == MessageTooLong <==> !AllWhitespace(msg) && |msg| > MaxMessageLength
    ensures r == "" <==> !AllWhitespace(msg) && |msg| <= MaxMessageLength
  {
    BlankIffAllWhitespace(msg);
    if IsBlank(msg) then EmptyMessage
    else if |msg| > MaxMessageLength then MessageTooLong
    else ""
  }

  /** A text `handleSend` may post and append: non-empty, with no
      whitespace at either end, and within the length limit. */
  predicate Sendable(text: string) {
    && text != [] && !IsJsWhitespace(text[0]) && !IsJsWhitespace(text[|text| - 1])
    && |text| <= MaxMessageLength
  }

  /** What passes validation is sent trimmed, and the trimmed text is
      itself sendable. */
  lemma AcceptedInputIsSendable(input: string)
    requires ValidateMessage(input) == ""
    ensures Sendable(Trim(input))
  {
    BlankIffAllWhitespace(input);
    TrimKeepsContent(input);
  }

  /** The error `handleSend` shows for a response that is not ok. */
  function SendFailure(status: int): (r: string)
    ensures r == "Message too long." <==> status == 422
    ensures r == "Invalid message." <==> status == 400
    ensures r == "Failed to send message." <==> status != 422 && status != 400
  {
    if status == 422 then "Message too long."
    else if status == 400 then "Invalid message."
    else "Failed to send message."
  }

  /** The displayed messages start with the given ones, and every later
      one was posted by `user` with a sendable text. */
  ghost predicate PostedAfter(initial: seq<Message>, messages: seq<Message>,
                              requests: seq<Message>, user: string)
  {
    && |initial| <= |messages| && messages[..|initial|] == initial
    && (forall i :: |initial| <= i < |messages| ==>
          messages[i].user == user && Sendable(messages[i].text) && messages[i] in requests)
  }

  lemma PostedAfterRequest(initial: seq<Message>, messages: seq<Message>,
                           requests: seq<Message>, user: string, m: Message)
    requires PostedAfter(initial, messages, requests, user)
    ensures PostedAfter(initial, messages, requests + [m], user)
  {
  }

  lemma PostedAfterAppend(initial: seq<Message>, messages: seq<Message>,
                          requests: seq<Message>, user: string, m: Message)
    requires PostedAfter(initial, messages, requests, user)
    requires m.user == user && Sendable(m.text) && m in requests
    ensures PostedAfter(initial, messages + [m], requests, user)
  {
    assert (messages + [m])[..|initial|] == messages[..|initial|];
  }

  /** The component's state. Between two events it is not loading, it
      still shows the messages it was given, and every message after them
      was posted by this component's user with a sendable text. */
  class ChatBox {
    const user: string
    ghost const initial: seq<Message>
    var messages: seq<Message>
    var input: string
    var loading: bool
    var error: string
    /** The `{ user, text }` bodies posted to `/api/chat`, oldest first. */
    var requests: seq<Message>

    ghost predicate Valid()
      reads this
    {
      !loading && PostedAfter(initial, messages, requests, user)
    }

    /** `Chat({ messages, user })`, which the component's defaults make
        `[]` and `"User"` when omitted. */
    constructor(initialMessages: seq<Message>, user: string)
      ensures Valid()
      ensures this.user == user && messages == initialMessages
      ensures input == "" && !loading && error == "" && requests == []
    {
      this.user := user;
      initial := initialMessages;
      messages := initialMessages;
      input := "";
      loading := false;
      error := "";
      requests := [];
    }

    /** The input's `onChange`. */
    method SetInput(value: string)
      requires Valid()
      modifies this
      ensures Valid()
      ensures input == value
      ensures messages == old(messages) && loading == old(loading)
      ensures error == old(error) && requests == old(requests)
    {
      input := value;
    }

    /** `handleSend` for one submission, given how its `fetch` ends. */
    method HandleSend<D>(outcome: Outcome<D>)
      requires Valid()
      modifies this
      ensures Valid()
      ensures ValidateMessage(old(input)) != "" ==>
                error == ValidateMessage(old(input)) && messages == old(messages)
                && input == old(input) && requests == old(requests)
      ensures ValidateMessage(old(input)) == "" ==>
                Posted(outcome, Message(user, Trim(old(input))), old(messages), old(input), old(requests))
    {
      error := "";
      var validationError := ValidateMessage(input);
      if validationError != "" {
        error := validationError;
        return;
      }
      Post(outcome);
    }

    /** What `handleSend` leaves behind once `fetch` has posted `sent`,
        from the messages, input and requests that came before: the post
        is recorded, and only an ok response with a JSON body appends the
        message and clears the input. */
    ghost predicate Posted<D>(outcome: Outcome<D>, sent: Message, messages0: seq<Message>,
                              input0: string, requests0: seq<Message>)
      reads this
    {
      && requests == requests0 + [sent]
      && (outcome.Responded? && !IsOk(outcome.status) ==>
            error == SendFailure(outcome.status) && messages == messages0 && input == input0)
      && (outcome.Responded? && IsOk(outcome.status) && outcome.json.Some? ==>
            error == "" && messages == messages0 + [sent] && input == "")
      && (outcome.NetworkFailure? || (IsOk(outcome.status) && outcome.json.None?) ==>
            error == NetworkError && messages == messages0 && input == input0)
    }

    /** The part of `handleSend` after validation succeeded. */
    method Post<D>(outcome: Outcome<D>)
      requires Valid() && error == "" && ValidateMessage(input) == ""
      modifies this
      ensures Valid()
      ensures Posted(outcome, Message(user, Trim(old(input))), old(messages), old(input), old(requests))
    {
      loading := true;
      var sent := Message(user, Trim(input));
      AcceptedInputIsSendable(input);
      PostedAfterRequest(initial, messages, requests, user, sent);
      requests := requests + [sent];
      match outcome {
        case NetworkFailure =>
          error := NetworkError;
        case Responded(status, json) =>
          if !IsOk(status) {
            error := SendFailure(status);
            loading := false;
            return;
          }
          if json.Some? {
            PostedAfterAppend(initial, messages, requests, user, sent);
            messages := messages + [sent];
            input := "";
          } else {
            error := NetworkError;
          }
      }
      loading := false;
    }
  }
}

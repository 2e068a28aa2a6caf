/** The transcript store of frontend/src/store/transcriptStore.js: a reducer
    over a list of transcript entries and its two action creators. An
    action is its `type` string and an optional `payload`; a payload of
    `None` is JavaScript's `undefined`, which `ADD_TRANSCRIPT` appends like
    any other value. */
module TranscriptStore {
  import opened JsText

  datatype Action<T> = Action(kind: string, payload: Option<T>)

  type State<T> = seq<Option<T>>

  const AddType := "ADD_TRANSCRIPT"
  const ClearType := "CLEAR_TRANSCRIPTS"

  /** `initialState`. */
  function InitialState<T>(): (s: State<T>)
    ensures |s| == 0
  {
    []
  }

  /** `addTranscript(entry)`. */
  function AddTranscript<T>(entry: T): (a: Action<T>)
    ensures a.kind == AddType && a.payload == Some(entry)
  {
    Action(AddType, Some(entry))
  }

  /** `clearTranscripts()`: no payload. */
  function ClearTranscripts<T>(): (a: Action<T>)
    ensures a.kind == ClearType && a.payload == None
  {
    Action(ClearType, None)
  }

  /** `transcriptReducer(state, action)`; a state of `None` is an omitted
      argument, which defaults to `initialState`. */
  function Reducer<T>(state: Option<State<T>>, action: Action<T>): (r: State<T>)
    ensures action.kind == AddType ==>
              |r| == |Current(state)| + 1 && r[..|Current(state)|] == Current(state)
              && r[|Current(state)|] == action.payload
    ensures action.kind == ClearType ==> r == []
    ensures action.kind != AddType && action.kind != ClearType ==> r == Current(state)
  {
    var s := Current(state);
    if action.kind == AddType then s + [action.payload]
    else if action.kind == ClearType then []
    else s
  }

  /** The state the reducer works on once its default is applied. */
  function Current<T>(state: Option<State<T>>): State<T> {
    match state
    case Some(s) => s
    case None => InitialState()
  }

  /** The two action creators drive the reducer as the store tests expect. */
  lemma ReducerOnCreators<T>(s: State<T>, e: T)
    ensures Reducer(Some(s), AddTranscript(e)) == s + [Some(e)]
    ensures Reducer(Some(s), ClearTranscripts<T>()) == []
    ensures Reducer(None, AddTranscript(e)) == [Some(e)]
  {
    assert (s + [Some(e)])[..|s|] == s;
  }

  /** Dispatching a list of actions one after the other, as a store does. */
  function Replay<T>(s: State<T>, actions: seq<Action<T>>): State<T>
    decreases |actions|
  {
    if actions == [] then s else Replay(Reducer(Some(s), actions[0]), actions[1..])
  }

  /** The payloads of the `ADD_TRANSCRIPT` actions, in order. */
  function AddedPayloads<T>(actions: seq<Action<T>>): seq<Option<T>>
  {
    if actions == [] then []
    else (if actions[0].kind == AddType then [actions[0].payload] else [])
           + AddedPayloads(actions[1..])
  }

  predicate NoClear<T>(actions: seq<Action<T>>) {
    forall i :: 0 <= i < |actions| ==> actions[i].kind != ClearType
  }

  /** Without a clear, the store only ever grows: the final state is the
      starting state followed by every added payload, in order. */
  lemma {:induction false} ReplayWithoutClear<T>(s: State<T>, actions: seq<Action<T>>)
    requires NoClear(actions)
    ensures Replay(s, actions) == s + AddedPayloads(actions)
    decreases |actions|
  {
    if actions != [] {
      var s' := ReplayFirst(s, actions);
      ReplayWithoutClear(s', actions[1..]);
    }
  }

  /** One step of a replay without clears: the first action appends its
      payload, if it adds one, and the rest still holds no clear. */
  lemma ReplayFirst<T>(s: State<T>, actions: seq<Action<T>>) returns (s': State<T>)
    requires actions != [] && NoClear(actions)
    ensures NoClear(actions[1..])
    ensures Replay(s, actions) == Replay(s', actions[1..])
    ensures s + AddedPayloads(actions) == s' + AddedPayloads(actions[1..])
  {
    s' := Reducer(Some(s), actions[0]);
    NoClearRest(actions);
    AppendStep(s, actions[0], AddedPayloads(actions[1..]));
  }

  lemma NoClearRest<T>(actions: seq<Action<T>>)
    requires actions != [] && NoClear(actions)
    ensures actions[0].kind != ClearType && NoClear(actions[1..])
  {
    var rest := actions[1..];
    assert forall i :: 0 <= i < |rest| ==> rest[i] == actions[i + 1];
  }

  /** An action other than a clear appends what it adds. */
  lemma AppendStep<T>(s: State<T>, a: Action<T>, later: seq<Option<T>>)
    requires a.kind != ClearType
    ensures s + ((if a.kind == AddType then [a.payload] else []) + later)
            == Reducer(Some(s), a) + later
  {
    if a.kind == AddType {
      assert s + ([a.payload] + later) == (s + [a.payload]) + later;
    } else {
      assert [] + later == later;
    }
  }

  /** A clear forgets the past: what precedes the last clear has no effect
      on the final state. */
  lemma {:induction false} ReplayForgetsBeforeClear<T>(s: State<T>, pre: seq<Action<T>>, post: seq<Action<T>>)
    ensures Replay(s, pre + [ClearTranscripts()] + post) == Replay([], post)
    decreases |pre|
  {
    var all := pre + [ClearTranscripts()] + post;
    if pre == [] {
      assert all == [ClearTranscripts()] + post;
      assert all[1..] == post;
    } else {
      assert all[0] == pre[0];
      assert all[1..] == pre[1..] + [ClearTranscripts()] + post;
      ReplayForgetsBeforeClear(Reducer(Some(s), pre[0]), pre[1..], post);
    }
  }
}

/** What the two copies of the chat logic share: the message record, the
    update-by-id that the typing animation performs, and how one dispatched turn
    ends once the reply (or the failure) is in. */
module Session {

  import opened Wrappers
  import opened Json
  import opened Text
  import opened Normalizer

  /** Message ids are strings chosen by the caller (the source derives them
      from the clock). Nothing makes them unique. */
  type Id = string

  datatype Role = User | Assistant

  /** A chat message; `fullResponse` is the raw reply the component keeps for
      inspection (the hook's messages never carry one). */
  datatype Message = Message(id: Id, role: Role, content: string, fullResponse: Option<Value>)

  /** What the view shows at one moment of a turn: the list, the loading flag
      and the typing mark. */
  datatype Frame = Frame(messages: seq<Message>, isLoading: bool, typingMessageId: Option<Id>)

  /** The messages after the first `k` steps of typing `words` into the
      messages carrying `id`: before any step they are as they were; after
      step `k` those messages hold the first `k` words joined by single spaces. */
  function TypedSoFar(ms: seq<Message>, id: Id, words: seq<string>, k: nat): seq<Message>
    requires k <= |words|
  {
    if k == 0 then ms else UpdateContent(ms, id, Join(words[..k], ' '))
  }

  /** What the view shows after step `k` (from 0) of the animation: the
      messages typed so far, the loading flag as it was, and the typing mark on
      `id`. */
  function TypingFrame(ms: seq<Message>, loading: bool, id: Id, words: seq<string>, k: nat): Frame
    requires k < |words|
  {
    Frame(TypedSoFar(ms, id, words, k + 1), loading, Some(id))
  }

  /** The views after each of the first `n` steps, in order. */
  function TypingFrames(ms: seq<Message>, loading: bool, id: Id, words: seq<string>, n: nat): (frames: seq<Frame>)
    requires n <= |words|
    ensures |frames| == n
  {
    if n == 0 then [] else TypingFrames(ms, loading, id, words, n - 1) + [TypingFrame(ms, loading, id, words, n - 1)]
  }

  /** Frame `k` of the animation is the view after step `k`. */
  lemma {:induction false} TypingFramesAt(ms: seq<Message>, loading: bool, id: Id, words: seq<string>, n: nat, k: nat)
    requires k < n <= |words|
    ensures TypingFrames(ms, loading, id, words, n)[k] == TypingFrame(ms, loading, id, words, k)
  {
    var earlier := TypingFrames(ms, loading, id, words, n - 1);
    var last := TypingFrame(ms, loading, id, words, n - 1);
    assert TypingFrames(ms, loading, id, words, n) == earlier + [last];
    if k < n - 1 {
      TypingFramesAt(ms, loading, id, words, n - 1, k);
      assert (earlier + [last])[k] == earlier[k];
    }
  }

  /** During the animation every message carrying `id` shows a prefix of the
      final text, every other message is as it was, the loading flag is as it
      was, and the mark is on `id`. */
  lemma TypingFrameShowsPrefix(ms: seq<Message>, loading: bool, id: Id, text: string, k: nat)
    requires k < |Split(text, ' ')|
    ensures var f := TypingFrame(ms, loading, id, Split(text, ' '), k);
      && f.typingMessageId == Some(id) && f.isLoading == loading
      && |f.messages| == |ms|
      && (forall i :: 0 <= i < |ms| && ms[i].id == id ==> f.messages[i].content <= text)
      && (forall i :: 0 <= i < |ms| && ms[i].id != id ==> f.messages[i] == ms[i])
  {
    TypingStepIsPrefix(text, k + 1, ' ');
    UpdateContentSpec(ms, id, Join(Split(text, ' ')[..k + 1], ' '));
  }

  /** One step of the loop: overwriting the content with one more word takes
      the list from `k` steps typed to `k + 1`. */
  lemma TypingStep(ms: seq<Message>, id: Id, words: seq<string>, k: nat)
    requires k < |words|
    ensures UpdateContent(TypedSoFar(ms, id, words, k), id, Join(words[..k + 1], ' ')) == TypedSoFar(ms, id, words, k + 1)
  {
    if k > 0 {
      UpdateContentOverwrites(ms, id, Join(words[..k], ' '), Join(words[..k + 1], ' '));
    }
  }

  /** One step of the loop seen from outside: overwriting the content with one
      more word reaches the list after `k + 1` steps, and the view it shows is
      the next typing frame. */
  lemma TypingAdvance(ms: seq<Message>, loading: bool, id: Id, words: seq<string>, k: nat)
    requires k < |words|
    ensures var next := UpdateContent(TypedSoFar(ms, id, words, k), id, Join(words[..k + 1], ' '));
      && next == TypedSoFar(ms, id, words, k + 1)
      && TypingFrames(ms, loading, id, words, k + 1)
         == TypingFrames(ms, loading, id, words, k) + [Frame(next, loading, Some(id))]
  {
    TypingStep(ms, id, words, k);
  }

  /** Once every word of `text` is typed, the messages carrying `id` hold
      exactly `text` and nothing else has changed. */
  lemma TypingEnds(ms: seq<Message>, id: Id, text: string)
    ensures TypedSoFar(ms, id, Split(text, ' '), |Split(text, ' ')|) == UpdateContent(ms, id, text)
  {
    var words := Split(text, ' ');
    JoinSplit(text, ' ');
    assert words[..|words|] == words;
  }

  predicate HasId(ms: seq<Message>, id: Id)
  {
    exists i :: 0 <= i < |ms| && ms[i].id == id
  }

  /** `ms.map(m => m.id === id ? { ...m, content: text } : m)`. */
  function UpdateContent(ms: seq<Message>, id: Id, text: string): (r: seq<Message>)
    ensures |r| == |ms|
  {
    if ms == [] then []
    else [if ms[0].id == id then ms[0].(content := text) else ms[0]] + UpdateContent(ms[1..], id, text)
  }

  /** The update-by-id changes only the content of the messages carrying `id`:
      order, ids, roles and raw payloads are kept. */
  lemma {:induction false} UpdateContentSpec(ms: seq<Message>, id: Id, text: string)
    ensures var r := UpdateContent(ms, id, text);
      && (forall i :: 0 <= i < |ms| ==>
            r[i].id == ms[i].id && r[i].role == ms[i].role && r[i].fullResponse == ms[i].fullResponse)
      && (forall i :: 0 <= i < |ms| ==> r[i].content == if ms[i].id == id then text else ms[i].content)
  {
    if ms != [] {
      var r, rest := UpdateContent(ms, id, text), UpdateContent(ms[1..], id, text);
      UpdateContentSpec(ms[1..], id, text);
      forall i | 0 < i < |ms| ensures r[i] == rest[i - 1] && ms[i] == ms[1..][i - 1] {
      }
    }
  }

  /** Appending a message with another id keeps an id absent. */
  lemma AbsentAfterAppend(ms: seq<Message>, m: Message, id: Id)
    requires !HasId(ms, id) && m.id != id
    ensures !HasId(ms + [m], id)
  {
    forall i | 0 <= i < |ms| + 1 ensures (ms + [m])[i].id != id {
      if i < |ms| {
        assert (ms + [m])[i] == ms[i];
      }
    }
  }

  /** A later overwrite of the same id replaces an earlier one entirely. */
  lemma UpdateContentOverwrites(ms: seq<Message>, id: Id, a: string, b: string)
    ensures UpdateContent(UpdateContent(ms, id, a), id, b) == UpdateContent(ms, id, b)
  {
    var once, twice := UpdateContent(ms, id, b), UpdateContent(UpdateContent(ms, id, a), id, b);
    UpdateContentSpec(ms, id, a);
    UpdateContentSpec(ms, id, b);
    UpdateContentSpec(UpdateContent(ms, id, a), id, b);
    forall i | 0 <= i < |ms| ensures twice[i] == once[i] {
    }
  }

  /** An id no message carries leaves the list as it is. */
  lemma UpdateContentAbsent(ms: seq<Message>, id: Id, text: string)
    requires !HasId(ms, id)
    ensures UpdateContent(ms, id, text) == ms
  {
    var r := UpdateContent(ms, id, text);
    UpdateContentSpec(ms, id, text);
    forall i | 0 <= i < |ms| ensures r[i] == ms[i] {
      assert ms[i].id != id;
    }
  }

  /** Overwriting a freshly appended message touches that message only. */
  lemma UpdateContentOfLast(ms: seq<Message>, m: Message, text: string)
    requires !HasId(ms, m.id)
    ensures UpdateContent(ms + [m], m.id, text) == ms + [m.(content := text)]
  {
    var r := UpdateContent(ms + [m], m.id, text);
    UpdateContentSpec(ms + [m], m.id, text);
    forall i | 0 <= i < |ms| ensures r[i] == ms[i] {
      assert (ms + [m])[i] == ms[i];
      assert ms[i].id != m.id;
    }
    assert r[|ms|] == m.(content := text);
  }

  /** How the request ended, as far as the session can tell: a parsed JSON
      body, or a failure of `fetch`, of the status check or of `response.json()`. */
  datatype Reply = Answered(data: Value) | Failed(cause: string)

  /** The error that reaches the `catch` block. */
  datatype Fault =
    | RequestFailed(cause: string)  // thrown by the request itself
    | NullPayload                   // reading a field of a `null` reply
    | NotText(shown: Value)         // calling `split` on a display value that is not a string

  /** The two copies: the component (ChatInterface.tsx) and the hook (useChat.ts). */
  datatype Variant = Inline | Hook

  function Display(v: Variant, data: Value, stringify: Value -> string): Pick
  {
    if v.Inline? then InlineDisplay(data, stringify) else HookDisplay(data, stringify)
  }

  /** The component keeps the raw reply on the assistant message; the hook does not. */
  function Payload(v: Variant, data: Value): Option<Value>
  {
    if v.Inline? then Some(data) else None
  }

  /** The error texts of the component (ChatInterface.tsx) and of the hook (useChat.ts). */
  const InlineErrorText: string := "Sorry, I encountered an error connecting to the backend. Please make sure the server is running on http://localhost:8080"
  const HookErrorText: string := "Sorry, I encountered an error connecting to the backend. Please make sure the server is running."
  function ErrorText(v: Variant): string
  {
    if v.Inline? then InlineErrorText else HookErrorText
  }

  function ErrorMessage(v: Variant, id: Id): Message
  {
    Message(id, Assistant, ErrorText(v), None)
  }

  /** The empty assistant message appended as soon as the reply is parsed. */
  function Placeholder(v: Variant, id: Id, data: Value): Message
  {
    Message(id, Assistant, "", Payload(v, data))
  }

  /** The list, the typing id and the caught error at the end of a turn. */
  datatype Resolution = Resolution(messages: seq<Message>, typingMessageId: Option<Id>, fault: Option<Fault>)

  /** The part of `sendMessage` after the request: on a failed request the error
      message is appended; on a reply the placeholder is appended, the display
      text is chosen and typed into it. Choosing throws on a `null` reply, and
      typing throws (after it has set the typing id) on a display value that is
      not a string; both reach the `catch`, which appends the error message. */
  function Resolve(v: Variant, ms: seq<Message>, typing: Option<Id>, replyId: Id, errorId: Id,
                   reply: Reply, stringify: Value -> string): Resolution
  {
    match reply
    case Failed(cause) => Resolution(ms + [ErrorMessage(v, errorId)], typing, Some(RequestFailed(cause)))
    case Answered(data) =>
      var shown := ms + [Placeholder(v, replyId, data)];
      var pick := Display(v, data, stringify);
      if pick.Thrown? then
        Resolution(shown + [ErrorMessage(v, errorId)], typing, Some(NullPayload))
      else if pick.v.JString? then
        Resolution(UpdateContent(shown, replyId, pick.v.s), None, None)
      else
        Resolution(shown + [ErrorMessage(v, errorId)], Some(replyId), Some(NotText(pick.v)))
  }

  /** The reply was parsed and its display value is a string, so the typing
      animation runs to the end. */
  predicate Typed(v: Variant, reply: Reply, stringify: Value -> string)
  {
    reply.Answered? && var pick := Display(v, reply.data, stringify); pick.Picked? && pick.v.JString?
  }

  /** A turn appends only assistant messages: exactly one, unless the reply was
      parsed and then could not be typed, in which case the placeholder and the
      error message are both appended. An error is caught exactly when the
      animation did not complete, and then the error message comes last. */
  lemma ResolveAppendsAssistants(v: Variant, ms: seq<Message>, typing: Option<Id>, replyId: Id, errorId: Id,
                                 reply: Reply, stringify: Value -> string)
    ensures var r := Resolve(v, ms, typing, replyId, errorId, reply, stringify);
      && |r.messages| == |ms| + (if reply.Answered? && !Typed(v, reply, stringify) then 2 else 1)
      && (forall i :: |ms| <= i < |r.messages| ==> r.messages[i].role == Assistant)
      && (r.fault.None? <==> Typed(v, reply, stringify))
      && (r.fault.Some? ==> r.messages[|r.messages| - 1] == ErrorMessage(v, errorId))
      && (r.fault.Some? ==> r.messages[..|ms|] == ms)
  {
    var r := Resolve(v, ms, typing, replyId, errorId, reply, stringify);
    match reply
    case Failed(cause) =>
      assert r == Resolution(ms + [ErrorMessage(v, errorId)], typing, Some(RequestFailed(cause)));
      assert r.messages[..|ms|] == ms;
    case Answered(data) =>
      var pick := Display(v, data, stringify);
      var shown := ms + [Placeholder(v, replyId, data)];
      assert Typed(v, reply, stringify) <==> pick.Picked? && pick.v.JString?;
      if pick.Thrown? || !pick.v.JString? {
        assert r.messages == shown + [ErrorMessage(v, errorId)] && r.fault.Some?;
        assert r.messages[..|ms|] == ms;
      } else {
        assert r == Resolution(UpdateContent(shown, replyId, pick.v.s), None, None);
        UpdateContentSpec(shown, replyId, pick.v.s);
        assert shown[|ms|].role == Assistant;
      }
  }

  /** A turn keeps the raw replies of the earlier messages, and only the
      component attaches one to a new message. */
  lemma ResolveKeepsPayloads(v: Variant, ms: seq<Message>, typing: Option<Id>, replyId: Id, errorId: Id,
                             reply: Reply, stringify: Value -> string)
    ensures var r := Resolve(v, ms, typing, replyId, errorId, reply, stringify);
      && |r.messages| >= |ms|
      && (forall i :: 0 <= i < |ms| ==> r.messages[i].fullResponse == ms[i].fullResponse)
      && (v.Hook? ==> forall i :: |ms| <= i < |r.messages| ==> r.messages[i].fullResponse.None?)
  {
    match reply
    case Failed(cause) =>
    case Answered(data) =>
      var shown := ms + [Placeholder(v, replyId, data)];
      assert forall i :: 0 <= i < |ms| ==> shown[i] == ms[i];
      var pick := Display(v, data, stringify);
      if pick.Picked? && pick.v.JString? {
        UpdateContentSpec(shown, replyId, pick.v.s);
      }
  }

  /** A typed reply whose id is new ends with one assistant message holding the
      whole display text (and, in the component, the raw reply), with the
      earlier messages untouched and the typing id cleared. */
  lemma TypedTurn(v: Variant, ms: seq<Message>, typing: Option<Id>, replyId: Id, errorId: Id,
                  data: Value, text: string, stringify: Value -> string)
    requires Display(v, data, stringify) == Picked(JString(text))
    requires !HasId(ms, replyId)
    ensures Resolve(v, ms, typing, replyId, errorId, Answered(data), stringify)
      == Resolution(ms + [Message(replyId, Assistant, text, Payload(v, data))], None, None)
  {
    UpdateContentOfLast(ms, Placeholder(v, replyId, data), text);
  }

  /** The frames from the moment the reply is parsed, given the list with the
      placeholder appended and the chosen display value: that list with loading
      already off, then, when the value is a string, each step of typing it. */
  function PlacedFrames(shown: seq<Message>, typing: Option<Id>, replyId: Id, pick: Pick): seq<Frame>
  {
    if pick.Picked? && pick.v.JString? then
      [Frame(shown, false, typing)] + TypingFrames(shown, false, replyId, Split(pick.v.s, ' '), |Split(pick.v.s, ' ')|)
    else
      [Frame(shown, false, typing)]
  }

  /** What the view shows from the moment the reply is parsed, in order. A
      failed request shows none of these frames (the error message is the
      turn's only change), and a reply that cannot be typed shows only the
      first. */
  function ReplyFrames(v: Variant, ms: seq<Message>, typing: Option<Id>, replyId: Id, reply: Reply,
                       stringify: Value -> string): seq<Frame>
  {
    match reply
    case Failed(_) => []
    case Answered(data) => PlacedFrames(ms + [Placeholder(v, replyId, data)], typing, replyId, Display(v, data, stringify))
  }

  lemma PlacedFramesLoadingOff(shown: seq<Message>, typing: Option<Id>, replyId: Id, pick: Pick)
    ensures var f := PlacedFrames(shown, typing, replyId, pick);
      && |f| >= 1 && f[0].messages == shown
      && (forall k :: 0 <= k < |f| ==> !f[k].isLoading)
  {
    var f := PlacedFrames(shown, typing, replyId, pick);
    if pick.Picked? && pick.v.JString? {
      var words := Split(pick.v.s, ' ');
      var rest := TypingFrames(shown, false, replyId, words, |words|);
      assert f == [Frame(shown, false, typing)] + rest;
      forall k | 1 <= k < |f| ensures !f[k].isLoading {
        assert f[k] == rest[k - 1];
        TypingFramesAt(shown, false, replyId, words, |words|, k - 1);
      }
    }
  }

  /** Loading is off in every frame a reply produces, and the first of them
      shows the earlier messages followed by one empty assistant message
      carrying the reply's id (and, in the component, the raw reply). */
  lemma ReplyFramesPlaceholderFirst(v: Variant, ms: seq<Message>, typing: Option<Id>, replyId: Id, reply: Reply,
                                    stringify: Value -> string)
    ensures var f := ReplyFrames(v, ms, typing, replyId, reply, stringify);
      && (|f| >= 1 <==> reply.Answered?)
      && (forall k :: 0 <= k < |f| ==> !f[k].isLoading)
      && (reply.Answered? ==>
            && f[0].messages[..|ms|] == ms
            && |f[0].messages| == |ms| + 1
            && f[0].messages[|ms|] == Message(replyId, Assistant, "", Payload(v, reply.data)))
  {
    match reply
    case Failed(_) =>
    case Answered(data) =>
      var shown := ms + [Placeholder(v, replyId, data)];
      PlacedFramesLoadingOff(shown, typing, replyId, Display(v, data, stringify));
      assert shown[..|ms|] == ms;
  }

  /** A typed reply takes one frame per word after the placeholder, and its last
      frame already shows the end state of the turn, with the typing mark still
      on the reply until `simulateTyping` clears it. */
  lemma ReplyFramesEndInResolution(v: Variant, ms: seq<Message>, typing: Option<Id>, replyId: Id, errorId: Id,
                                   data: Value, text: string, stringify: Value -> string)
    requires Display(v, data, stringify) == Picked(JString(text))
    ensures var f := ReplyFrames(v, ms, typing, replyId, Answered(data), stringify);
      && |f| == 1 + |Split(text, ' ')|
      && f[|f| - 1].messages == Resolve(v, ms, typing, replyId, errorId, Answered(data), stringify).messages
      && f[|f| - 1].typingMessageId == Some(replyId)
  {
    var shown := ms + [Placeholder(v, replyId, data)];
    var words := Split(text, ' ');
    var rest := TypingFrames(shown, false, replyId, words, |words|);
    var f := PlacedFrames(shown, typing, replyId, Picked(JString(text)));
    assert f == [Frame(shown, false, typing)] + rest;
    assert f[|f| - 1] == rest[|words| - 1];
    TypingFramesAt(shown, false, replyId, words, |words|, |words| - 1);
    TypingEnds(shown, replyId, text);
    assert Resolve(v, ms, typing, replyId, errorId, Answered(data), stringify).messages == UpdateContent(shown, replyId, text);
  }
}

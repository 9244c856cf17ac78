/** The `useChat` hook: the same session logic as the component, without the
    input box, the inspection dialog, the seeded greeting and the `summary`
    field, and with an optional `onError` callback. Calls of the callback are
    recorded in `reported`, in order. */
module UseChat {

  import opened Wrappers
  import opened Json
  import opened Text
  import opened Normalizer
  import opened Session

  datatype HookState = HookState(
    messages: seq<Message>,
    isLoading: bool,
    typingMessageId: Option<Id>,
    reported: seq<Fault>)

  function Initial(): HookState
  {
    HookState([], false, None, [])
  }

  /** The guard of `sendMessage(content)`. */
  predicate Accepts(st: HookState, content: string)
  {
    Trim(content) != [] && !st.isLoading
  }

  function Submitted(st: HookState, content: string, userId: Id): HookState
  {
    st.(messages := st.messages + [Message(userId, User, Trim(content), None)], isLoading := true)
  }

  /** After the request: the turn is resolved, loading ends, and a caught error
      is passed to `onError` when one was given. */
  function Resolved(st: HookState, hasOnError: bool, replyId: Id, errorId: Id, reply: Reply,
                    stringify: Value -> string): HookState
  {
    var r := Resolve(Hook, st.messages, st.typingMessageId, replyId, errorId, reply, stringify);
    st.(messages := r.messages, isLoading := false, typingMessageId := r.typingMessageId,
        reported := if hasOnError && r.fault.Some? then st.reported + [r.fault.value] else st.reported)
  }

  function Sent(st: HookState, hasOnError: bool, content: string, userId: Id, replyId: Id, errorId: Id,
                reply: Reply, stringify: Value -> string): HookState
  {
    if Accepts(st, content) then Resolved(Submitted(st, content, userId), hasOnError, replyId, errorId, reply, stringify)
    else st
  }

  predicate NoPayloads(ms: seq<Message>)
  {
    forall i :: 0 <= i < |ms| ==> ms[i].fullResponse.None?
  }

  /** A rejected call changes nothing; an accepted one appends the trimmed
      content as a user message after the earlier messages, then at least one
      reply. */
  lemma SendGuard(st: HookState, hasOnError: bool, content: string, userId: Id, replyId: Id, errorId: Id,
                  reply: Reply, stringify: Value -> string)
    ensures !Accepts(st, content) ==> Sent(st, hasOnError, content, userId, replyId, errorId, reply, stringify) == st
    ensures Accepts(st, content) ==>
      && Submitted(st, content, userId).messages == st.messages + [Message(userId, User, Trim(content), None)]
      && |Sent(st, hasOnError, content, userId, replyId, errorId, reply, stringify).messages| >= |st.messages| + 2
  {
    if Accepts(st, content) {
      var s := Submitted(st, content, userId);
      ResolveAppendsAssistants(Hook, s.messages, s.typingMessageId, replyId, errorId, reply, stringify);
    }
  }

  /** `onError` is called once per caught error when it was given and never
      otherwise; an error is caught exactly when the reply could not be typed
      to the end, and then the fixed error message is the last message. */
  lemma OnErrorCalledOnce(st: HookState, hasOnError: bool, replyId: Id, errorId: Id, reply: Reply,
                          stringify: Value -> string)
    ensures var s := Resolved(st, hasOnError, replyId, errorId, reply, stringify);
      && |s.reported| == |st.reported| + (if hasOnError && !Typed(Hook, reply, stringify) then 1 else 0)
      && s.reported[..|st.reported|] == st.reported
      && (!Typed(Hook, reply, stringify) ==> s.messages[|s.messages| - 1] == Message(errorId, Assistant, HookErrorText, None))
      && !s.isLoading
  {
    ResolveAppendsAssistants(Hook, st.messages, st.typingMessageId, replyId, errorId, reply, stringify);
    var s := Resolved(st, hasOnError, replyId, errorId, reply, stringify);
    assert s.reported[..|st.reported|] == st.reported;
  }

  /** A failed request: one error message after the user message, and the
      request's error is what `onError` receives. */
  lemma FailedTurn(st: HookState, hasOnError: bool, content: string, userId: Id, replyId: Id, errorId: Id,
                   cause: string, stringify: Value -> string)
    requires Accepts(st, content)
    ensures var s := Sent(st, hasOnError, content, userId, replyId, errorId, Failed(cause), stringify);
      && s.messages == st.messages + [Message(userId, User, Trim(content), None),
                                      Message(errorId, Assistant, HookErrorText, None)]
      && s.reported == (if hasOnError then st.reported + [RequestFailed(cause)] else st.reported)
      && !s.isLoading && s.typingMessageId == st.typingMessageId
  {
    var u := Message(userId, User, Trim(content), None);
    var s := Submitted(st, content, userId);
    assert s.messages == st.messages + [u];
    var r := Resolve(Hook, s.messages, s.typingMessageId, replyId, errorId, Failed(cause), stringify);
    assert r == Resolution(s.messages + [ErrorMessage(Hook, errorId)], st.typingMessageId, Some(RequestFailed(cause)));
    assert Sent(st, hasOnError, content, userId, replyId, errorId, Failed(cause), stringify)
      == Resolved(s, hasOnError, replyId, errorId, Failed(cause), stringify);
    assert st.messages + [u] + [Message(errorId, Assistant, HookErrorText, None)]
      == st.messages + [u, Message(errorId, Assistant, HookErrorText, None)];
  }

  /** A successful turn with fresh ids ends with exactly the user message and
      one assistant message holding the whole display text; nothing is reported. */
  lemma SuccessfulTurn(st: HookState, hasOnError: bool, content: string, userId: Id, replyId: Id, errorId: Id,
                       data: Value, text: string, stringify: Value -> string)
    requires Accepts(st, content)
    requires HookDisplay(data, stringify) == Picked(JString(text))
    requires !HasId(st.messages, replyId) && userId != replyId
    ensures Sent(st, hasOnError, content, userId, replyId, errorId, Answered(data), stringify)
      == st.(messages := st.messages + [Message(userId, User, Trim(content), None),
                                        Message(replyId, Assistant, text, None)],
             isLoading := false, typingMessageId := None)
  {
    var u := Message(userId, User, Trim(content), None);
    AbsentAfterAppend(st.messages, u, replyId);
    TypedTurn(Hook, st.messages + [u], st.typingMessageId, replyId, errorId, data, text, stringify);
    assert st.messages + [u] + [Message(replyId, Assistant, text, None)]
      == st.messages + [u, Message(replyId, Assistant, text, None)];
  }

  /** The hook never attaches a raw reply to a message. */
  lemma NoPayloadsKept(st: HookState, hasOnError: bool, content: string, userId: Id, replyId: Id, errorId: Id,
                       reply: Reply, stringify: Value -> string)
    requires NoPayloads(st.messages)
    ensures NoPayloads(Sent(st, hasOnError, content, userId, replyId, errorId, reply, stringify).messages)
  {
    if Accepts(st, content) {
      var s := Submitted(st, content, userId);
      ResolveKeepsPayloads(Hook, s.messages, s.typingMessageId, replyId, errorId, reply, stringify);
    }
  }

  class ChatHook {
    /** Whether the caller passed an `onError` callback. */
    const hasOnError: bool
    var messages: seq<Message>
    var isLoading: bool
    var typingMessageId: Option<Id>
    var reported: seq<Fault>

    function State(): HookState
      reads this
    {
      HookState(messages, isLoading, typingMessageId, reported)
    }

    /** The hook's first render. */
    constructor (hasOnError: bool)
      ensures this.hasOnError == hasOnError
      ensures State() == Initial()
    {
      this.hasOnError := hasOnError;
      messages := [];
      isLoading := false;
      typingMessageId := None;
      reported := [];
    }

    /** The `setMessages` setter the hook hands out. */
    method SetMessages(ms: seq<Message>)
      modifies this
      ensures State() == old(State()).(messages := ms)
    {
      messages := ms;
    }

    /** `simulateTyping`, as in the component. */
    method SimulateTyping(text: string, messageId: Id) returns (ghost frames: seq<Frame>)
      modifies this
      ensures State() == old(State()).(messages := UpdateContent(old(messages), messageId, text), typingMessageId := None)
      ensures frames == TypingFrames(old(messages), old(isLoading), messageId, Split(text, ' '), |Split(text, ' ')|)
    {
      ghost var before := messages;
      typingMessageId := Some(messageId);
      var words := Split(text, ' ');
      frames := [];
      for i := 0 to |words|
        invariant typingMessageId == Some(messageId)
        invariant isLoading == old(isLoading) && reported == old(reported)
        invariant frames == TypingFrames(before, old(isLoading), messageId, words, i)
        invariant messages == TypedSoFar(before, messageId, words, i)
      {
        TypingAdvance(before, old(isLoading), messageId, words, i);
        messages := UpdateContent(messages, messageId, Join(words[..i + 1], ' '));
        frames := frames + [Frame(messages, isLoading, typingMessageId)];
      }
      TypingEnds(before, messageId, text);
      typingMessageId := None;
    }

    /** `sendMessage(content)` up to the request. */
    method Submit(content: string, userId: Id) returns (accepted: bool)
      modifies this
      ensures accepted == Accepts(old(State()), content)
      ensures State() == if accepted then Submitted(old(State()), content, userId) else old(State())
    {
      if Trim(content) == [] || isLoading {
        return false;
      }
      var userMessage := Message(userId, User, Trim(content), None);
      messages := messages + [userMessage];
      isLoading := true;
      return true;
    }

    /** The `catch` block's report to `onError`. */
    method Report(fault: Fault)
      modifies this
      ensures State() == old(State()).(reported := if hasOnError then old(reported) + [fault] else old(reported))
    {
      if hasOnError {
        reported := reported + [fault];
      }
    }

    /** `sendMessage` once the request has ended. */
    method ReceiveReply(replyId: Id, errorId: Id, reply: Reply, stringify: Value -> string)
      returns (ghost frames: seq<Frame>)
      modifies this
      ensures frames == ReplyFrames(Hook, old(messages), old(typingMessageId), replyId, reply, stringify)
      ensures State() == Resolved(old(State()), hasOnError, replyId, errorId, reply, stringify)
    {
      match reply {
        case Failed(cause) =>
          frames := [];
          Report(RequestFailed(cause));
          messages := messages + [ErrorMessage(Hook, errorId)];
          isLoading := false;
        case Answered(data) =>
          messages := messages + [Placeholder(Hook, replyId, data)];
          isLoading := false;
          frames := [Frame(messages, isLoading, typingMessageId)];
          var pick := HookDisplay(data, stringify);
          if pick.Thrown? {
            Report(NullPayload);
            messages := messages + [ErrorMessage(Hook, errorId)];
            isLoading := false;
          } else if pick.v.JString? {
            ghost var typed := SimulateTyping(pick.v.s, replyId);
            frames := frames + typed;
          } else {
            typingMessageId := Some(replyId);
            Report(NotText(pick.v));
            messages := messages + [ErrorMessage(Hook, errorId)];
            isLoading := false;
          }
      }
    }

    /** `sendMessage(content)`, with the request's outcome supplied by the caller. */
    method SendMessage(content: string, userId: Id, replyId: Id, errorId: Id, reply: Reply, stringify: Value -> string)
      modifies this
      ensures State() == Sent(old(State()), hasOnError, content, userId, replyId, errorId, reply, stringify)
    {
      var accepted := Submit(content, userId);
      if accepted {
        ghost var frames := ReceiveReply(replyId, errorId, reply, stringify);
      }
    }
  }
}

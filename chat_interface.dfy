/** The chat component's session: the message list, the input box, the loading
    flag, the id of the message being typed and the message open in the
    inspection dialog. Each operation is a method of `ChatSession`; what it does
    to the whole state is a function on `ChatState`, and the lemmas about those
    functions state what the component promises. */
module ChatInterface {

  import opened Wrappers
  import opened Json
  import opened Text
  import opened Normalizer
  import opened Session

  datatype ChatState = ChatState(
    messages: seq<Message>,
    input: string,
    isLoading: bool,
    typingMessageId: Option<Id>,
    selected: Option<Message>)

  const WelcomeText: string := "Hello! I'm your RapidScale AI assistant. How can I help you today?"

  /** The seeded greeting, with id "1" and no raw reply. */
  const Welcome: Message := Message("1", Assistant, WelcomeText, None)

  function Initial(): ChatState
  {
    ChatState([Welcome], "", false, None, None)
  }

  /** The guard of `sendMessage`: something other than whitespace was typed and
      no request is outstanding. */
  predicate Accepts(st: ChatState)
  {
    Trim(st.input) != [] && !st.isLoading
  }

  /** `sendMessage` up to the request: the trimmed input becomes a user message,
      the input box is cleared and the loading flag raised. */
  function Submitted(st: ChatState, userId: Id): ChatState
  {
    st.(messages := st.messages + [Message(userId, User, Trim(st.input), None)], input := "", isLoading := true)
  }

  /** `sendMessage` after the request: the turn is resolved and loading ends. */
  function Resolved(st: ChatState, replyId: Id, errorId: Id, reply: Reply, stringify: Value -> string): ChatState
  {
    var r := Resolve(Inline, st.messages, st.typingMessageId, replyId, errorId, reply, stringify);
    st.(messages := r.messages, isLoading := false, typingMessageId := r.typingMessageId)
  }

  /** A whole call of `sendMessage`; a rejected call changes nothing. */
  function Sent(st: ChatState, userId: Id, replyId: Id, errorId: Id, reply: Reply, stringify: Value -> string): ChatState
  {
    if Accepts(st) then Resolved(Submitted(st, userId), replyId, errorId, reply, stringify) else st
  }

  /** Only an assistant message with a (truthy) raw reply can be inspected. */
  predicate Inspectable(m: Message)
  {
    m.role == Assistant && Present(m.fullResponse)
  }

  /** A click on the avatar of the `i`-th message. */
  function Selected(st: ChatState, i: nat): ChatState
    requires i < |st.messages|
  {
    if Inspectable(st.messages[i]) then st.(selected := Some(st.messages[i])) else st
  }

  /** Any of the dialog's close actions. */
  function Closed(st: ChatState): ChatState
  {
    st.(selected := None)
  }

  predicate SelectionValid(st: ChatState)
  {
    st.selected.None? || Inspectable(st.selected.value)
  }

  /** A call is a no-op exactly when the guard rejects it; an accepted call
      appends at least the user message and one reply. */
  lemma SendGuard(st: ChatState, userId: Id, replyId: Id, errorId: Id, reply: Reply, stringify: Value -> string)
    ensures !Accepts(st) ==> Sent(st, userId, replyId, errorId, reply, stringify) == st
    ensures Accepts(st) ==> |Sent(st, userId, replyId, errorId, reply, stringify).messages| >= |st.messages| + 2
  {
    if Accepts(st) {
      var s := Submitted(st, userId);
      ResolveAppendsAssistants(Inline, s.messages, s.typingMessageId, replyId, errorId, reply, stringify);
    }
  }

  /** An accepted send appends exactly one user message, holding the trimmed
      input, after the unchanged earlier messages; it clears the input and
      raises the loading flag. */
  lemma SubmitAppendsUserMessage(st: ChatState, userId: Id)
    requires Accepts(st)
    ensures var s := Submitted(st, userId);
      && |s.messages| == |st.messages| + 1
      && s.messages[..|st.messages|] == st.messages
      && s.messages[|st.messages|] == Message(userId, User, Trim(st.input), None)
      && s.input == "" && s.isLoading
  {
    assert Submitted(st, userId).messages[..|st.messages|] == st.messages;
  }

  /** A successful turn with fresh ids ends with exactly two new messages: the
      user's trimmed text and one assistant message holding the whole display
      text and the raw reply; loading and typing are over. */
  lemma SuccessfulTurn(st: ChatState, userId: Id, replyId: Id, errorId: Id, data: Value, text: string,
                       stringify: Value -> string)
    requires Accepts(st)
    requires InlineDisplay(data, stringify) == Picked(JString(text))
    requires !HasId(st.messages, replyId) && userId != replyId
    ensures Sent(st, userId, replyId, errorId, Answered(data), stringify)
      == st.(messages := st.messages + [Message(userId, User, Trim(st.input), None),
                                        Message(replyId, Assistant, text, Some(data))],
             input := "", isLoading := false, typingMessageId := None)
  {
    var u := Message(userId, User, Trim(st.input), None);
    var ms := st.messages + [u];
    AbsentAfterAppend(st.messages, u, replyId);
    TypedTurn(Inline, ms, st.typingMessageId, replyId, errorId, data, text, stringify);
    assert ms + [Message(replyId, Assistant, text, Some(data))]
      == st.messages + [u, Message(replyId, Assistant, text, Some(data))];
  }

  /** A failed request ends with the user message and one error message
      without a raw reply; loading is over and the typing id is untouched. */
  lemma FailedTurn(st: ChatState, userId: Id, replyId: Id, errorId: Id, cause: string, stringify: Value -> string)
    requires Accepts(st)
    ensures Sent(st, userId, replyId, errorId, Failed(cause), stringify)
      == st.(messages := st.messages + [Message(userId, User, Trim(st.input), None),
                                        Message(errorId, Assistant, InlineErrorText, None)],
             input := "", isLoading := false)
  {
    assert st.messages + [Message(userId, User, Trim(st.input), None)] + [Message(errorId, Assistant, InlineErrorText, None)]
      == st.messages + [Message(userId, User, Trim(st.input), None), Message(errorId, Assistant, InlineErrorText, None)];
  }

  /** A reply whose display value cannot be typed (a `null` reply, or a truthy
      field that is not a string) leaves the empty placeholder with the raw
      reply in the list and appends the error message after it: two assistant
      messages in one turn. For a non-string value the typing id stays set. */
  lemma UntypableTurn(st: ChatState, userId: Id, replyId: Id, errorId: Id, data: Value, stringify: Value -> string)
    requires Accepts(st)
    requires !Typed(Inline, Answered(data), stringify)
    ensures var s := Sent(st, userId, replyId, errorId, Answered(data), stringify);
      && s.messages == st.messages + [Message(userId, User, Trim(st.input), None),
                                      Message(replyId, Assistant, "", Some(data)),
                                      Message(errorId, Assistant, InlineErrorText, None)]
      && s.typingMessageId == (if data.JNull? then st.typingMessageId else Some(replyId))
      && !s.isLoading
  {
    var u := Message(userId, User, Trim(st.input), None);
    var s := Submitted(st, userId);
    assert s.messages == st.messages + [u];
    var pick := InlineDisplay(data, stringify);
    assert pick.Thrown? || !pick.v.JString?;
    assert pick.Thrown? <==> data.JNull?;
    assert Resolve(Inline, s.messages, s.typingMessageId, replyId, errorId, Answered(data), stringify).messages
      == s.messages + [Placeholder(Inline, replyId, data)] + [ErrorMessage(Inline, errorId)];
    assert st.messages + [u] + [Message(replyId, Assistant, "", Some(data))] + [Message(errorId, Assistant, InlineErrorText, None)]
      == st.messages + [u, Message(replyId, Assistant, "", Some(data)), Message(errorId, Assistant, InlineErrorText, None)];
  }

  /** Every operation keeps the selection on an inspectable message (or none). */
  lemma SelectionStaysValid(st: ChatState, userId: Id, replyId: Id, errorId: Id, reply: Reply,
                            stringify: Value -> string, i: nat, text: string)
    requires SelectionValid(st)
    ensures SelectionValid(Sent(st, userId, replyId, errorId, reply, stringify))
    ensures i < |st.messages| ==> SelectionValid(Selected(st, i))
    ensures SelectionValid(Closed(st))
    ensures SelectionValid(st.(input := text))
  {
  }

  /** Selecting and closing never touch the messages, the input or the flags;
      closing always clears the selection, and a selection is made exactly when
      the clicked message is inspectable. */
  lemma InspectionOnlyTouchesSelection(st: ChatState, i: nat)
    requires i < |st.messages|
    ensures Selected(st, i).(selected := st.selected) == st
    ensures Closed(st).(selected := st.selected) == st
    ensures Closed(st).selected == None
    ensures Selected(st, i).selected == (if Inspectable(st.messages[i]) then Some(st.messages[i]) else st.selected)
  {
  }

  class ChatSession {
    var messages: seq<Message>
    var input: string
    var isLoading: bool
    var typingMessageId: Option<Id>
    var selected: Option<Message>

    function State(): ChatState
      reads this
    {
      ChatState(messages, input, isLoading, typingMessageId, selected)
    }

    constructor ()
      ensures State() == Initial()
    {
      messages := [Welcome];
      input := "";
      isLoading := false;
      typingMessageId := None;
      selected := None;
    }

    /** The text area's change handler. */
    method SetInput(text: string)
      modifies this
      ensures State() == old(State()).(input := text)
    {
      input := text;
    }

    /** `simulateTyping`: marks the message as being typed, then overwrites its
        content with ever longer space-joined prefixes of the words, then clears
        the mark. `frames` are the states the view sees after each step. */
    method SimulateTyping(text: string, messageId: Id) returns (ghost frames: seq<Frame>)
      modifies this
      ensures State() == old(State()).(messages := UpdateContent(old(messages), messageId, text), typingMessageId := None)
      ensures frames == TypingFrames(old(messages), old(isLoading), messageId, Split(text, ' '), |Split(text, ' ')|)
    {
      ghost var before := messages;
      typingMessageId := Some(messageId);
      var words := Split(text, ' ');
      frames := [];
      for i := 0 to |words|
        invariant typingMessageId == Some(messageId)
        invariant input == old(input) && isLoading == old(isLoading) && selected == old(selected)
        invariant frames == TypingFrames(before, old(isLoading), messageId, words, i)
        invariant messages == TypedSoFar(before, messageId, words, i)
      {
        TypingAdvance(before, old(isLoading), messageId, words, i);
        messages := UpdateContent(messages, messageId, Join(words[..i + 1], ' '));
        frames := frames + [Frame(messages, isLoading, typingMessageId)];
      }
      TypingEnds(before, messageId, text);
      typingMessageId := None;
    }

    /** `sendMessage` up to the request. */
    method Submit(userId: Id) returns (accepted: bool)
      modifies this
      ensures accepted == Accepts(old(State()))
      ensures State() == if accepted then Submitted(old(State()), userId) else old(State())
    {
      if Trim(input) == [] || isLoading {
        return false;
      }
      var userMessage := Message(userId, User, Trim(input), None);
      messages := messages + [userMessage];
      input := "";
      isLoading := true;
      return true;
    }

    /** `sendMessage` once the request has ended: the `try` block from the
        parsed reply on, and the `catch` block. */
    method ReceiveReply(replyId: Id, errorId: Id, reply: Reply, stringify: Value -> string)
      returns (ghost frames: seq<Frame>)
      modifies this
      ensures frames == ReplyFrames(Inline, old(messages), old(typingMessageId), replyId, reply, stringify)
      ensures State() == Resolved(old(State()), replyId, errorId, reply, stringify)
    {
      match reply {
        case Failed(_) =>
          frames := [];
          messages := messages + [ErrorMessage(Inline, errorId)];
          isLoading := false;
        case Answered(data) =>
          messages := messages + [Placeholder(Inline, replyId, data)];
          isLoading := false;
          frames := [Frame(messages, isLoading, typingMessageId)];
          var pick := InlineDisplay(data, stringify);
          if pick.Thrown? {
            messages := messages + [ErrorMessage(Inline, errorId)];
            isLoading := false;
          } else if pick.v.JString? {
            ghost var typed := SimulateTyping(pick.v.s, replyId);
            frames := frames + typed;
          } else {
            typingMessageId := Some(replyId);
            messages := messages + [ErrorMessage(Inline, errorId)];
            isLoading := false;
          }
      }
    }

    /** `sendMessage`, with the request's outcome supplied by the caller. */
    method SendMessage(userId: Id, replyId: Id, errorId: Id, reply: Reply, stringify: Value -> string)
      modifies this
      ensures State() == Sent(old(State()), userId, replyId, errorId, reply, stringify)
    {
      var accepted := Submit(userId);
      if accepted {
        ghost var frames := ReceiveReply(replyId, errorId, reply, stringify);
      }
    }

    /** The text area's key handler: Enter without Shift sends. */
    method HandleKeyPress(key: string, shiftKey: bool, userId: Id, replyId: Id, errorId: Id, reply: Reply,
                          stringify: Value -> string)
      modifies this
      ensures State() == if key == "Enter" && !shiftKey then Sent(old(State()), userId, replyId, errorId, reply, stringify)
                         else old(State())
    {
      if key == "Enter" && !shiftKey {
        SendMessage(userId, replyId, errorId, reply, stringify);
      }
    }

    /** The avatar's click handler for the `i`-th message. */
    method SelectMessage(i: nat)
      requires i < |messages|
      modifies this
      ensures State() == Selected(old(State()), i)
    {
      var message := messages[i];
      if message.role == Assistant && message.fullResponse.Some? && Truthy(message.fullResponse.value) {
        selected := Some(message);
      }
    }

    /** The backdrop's, the dialog's, the close icon's and the Close button's handler. */
    method CloseInspection()
      modifies this
      ensures State() == Closed(old(State()))
    {
      selected := None;
    }
  }
}

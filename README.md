# Chat session model

A Dafny model of the chat session behind the landing page's chat widget. The
logic exists twice: inline in the `ChatInterface` component and as the
`useChat` hook. Both keep an ordered list of messages, a loading flag and the id
of the message being "typed". Each send is guarded, appends the user's trimmed
text and raises the loading flag. When the reply arrives, an empty assistant
message is appended and the display text chosen from the JSON reply is revealed
word by word. A failure appends a fixed error message instead. The component
also has an input box, a seeded greeting, and a dialog that shows the raw reply
of an assistant message.

Modules:

- `Wrappers`: the `Option` type.
- `Text`: `trim()` with the ECMAScript whitespace set, `split(' ')`, `join(' ')`, and their properties.
- `Json`: parsed JSON values, JavaScript truthiness, property access and `||`.
- `Normalizer`: the display-text rule of each copy, each proved equal to one reference rule, "the first truthy field in precedence order, else the serialisation".
- `Session`: the message record, the update-by-id used by the typing loop, and `Resolve`, which describes how a turn ends once the request is over (shared by both copies, parameterised by `Variant`).
- `ChatInterface`: the component's state `ChatState`, its transitions as functions, the lemmas about them, and the class `ChatSession`.
- `UseChat`: the hook's state `HookState`, its transitions, lemmas, and the class `ChatHook`.

Each class method changes the object's fields. Its `ensures` ties the new
`State()` to a transition function of the old state. The lemmas state what the
transitions promise. `sendMessage` is modelled as two methods that run back to
back: `Submit` is the part before `await fetch`, and `ReceiveReply` is the part
after it. `SendMessage` calls both.

Inputs the model takes as parameters:

- The request's outcome: `Reply`, either a parsed body or a failure with a cause.
- `JSON.stringify`: `stringify: Value -> string`.
- The message ids `userId`, `replyId` and `errorId`. The source builds them from `Date.now()`.
- Whether the hook was given an `onError` callback: `hasOnError`. The calls it receives are recorded in `reported`.

What the model shows about unusual replies, following the code:

- A `null` reply makes the field read throw after the empty assistant message was appended, so the turn ends with two assistant messages (`UntypableTurn`).
- A truthy display value that is not a string makes `split` throw after the typing id was set, and this turn never clears it. The next typed turn sets the id again and clears it at the end.
- Both copies of the chat logic behave this way.

Other behaviour of the code worth noting:

- The hook starts with an empty list, not with a greeting.
- The fallback serialisation uses no indentation (`ChatInterface.tsx:105`). Only the dialog pretty-prints.
- Ids are not guaranteed unique.
- The typing id does not always name the latest assistant message.
- The hook keeps no raw reply.

## Model

| member | source | states |
|---|---|---|
| Text.LeadingWhitespace | components/ChatInterface.tsx:64 | counts the leading characters `trim()` removes: all whitespace, followed by a non-whitespace character or the end |
| Text.TrailingWhitespace | components/ChatInterface.tsx:64 | counts the trailing characters `trim()` removes: all whitespace, preceded by a non-whitespace character or the start |
| Text.Trim | components/ChatInterface.tsx:64 | the definition of `trim()`: drops the leading and trailing whitespace counted above. Its properties are stated by `TrimIsInfix`, `TrimDropsOnlyWhitespace`, `TrimKeepsNoOuterWhitespace`, `BlankIffAllWhitespace` and `TrimIdempotent` |
| Text.TrimIsInfix | components/ChatInterface.tsx:64 | the trimmed text is the contiguous part of the input that starts after its leading whitespace |
| Text.TrimDropsOnlyWhitespace | components/ChatInterface.tsx:64 | everything `trim()` removes, on either side, is whitespace |
| Text.TrimKeepsNoOuterWhitespace | components/ChatInterface.tsx:64 | a non-empty trimmed text neither starts nor ends with whitespace |
| Text.BlankIffAllWhitespace | components/ChatInterface.tsx:59 | the guard `!input.trim()` holds exactly when every character of the input is whitespace (both directions) |
| Text.TrimIdempotent | hooks/useChat.ts:59 | trimming the stored content again changes nothing |
| Text.Split | components/ChatInterface.tsx:41 | `split(' ')` yields at least one piece and no piece contains a space |
| Text.Join | components/ChatInterface.tsx:49 | the definition of `join(' ')`. `JoinSplit` and `SplitJoin` state that it inverts `Split`; `JoinSplitsAt`, `NextTypingStep` and `TypingStepIsPrefix` state how prefixes join |
| Text.SplitLength | components/ChatInterface.tsx:41-43 | the loop runs once more than there are spaces in the text |
| Text.JoinSplit | components/ChatInterface.tsx:41-49 | joining all split pieces with single spaces gives back the text exactly |
| Text.SplitJoin | components/ChatInterface.tsx:41-49 | splitting a join of space-free pieces gives back the pieces (the inverse direction) |
| Text.JoinSplitsAt | components/ChatInterface.tsx:49 | a join is the join of its first `k` pieces, a space, and the join of the rest |
| Text.NextTypingStep | components/ChatInterface.tsx:43-49 | each typing step shows the previous step's text plus one space and the next word: no word skipped or reordered |
| Text.TypingStepIsPrefix | components/ChatInterface.tsx:49 | every intermediate text `words.slice(0, i + 1).join(' ')` is a prefix of the final text |
| Json.Or | components/ChatInterface.tsx:102-103 | `a \|\| b` is truthy iff either operand is, and is the left operand when that one is truthy, else the right one |
| Normalizer.FirstTruthy | components/ChatInterface.tsx:99-106 | finds the first key in precedence order whose field is truthy; all earlier keys are falsy, and `None` means none is truthy |
| Normalizer.InlineDisplay | components/ChatInterface.tsx:98-106 | the component's if/else chain equals the reference rule over `summary`, `answer`, `response`, `message`, with the serialisation as fallback and a throw on a `null` reply |
| Normalizer.HookDisplay | hooks/useChat.ts:90 | the hook's `\|\|` chain equals the reference rule over `answer`, `response`, `message`, without `summary` |
| Normalizer.DisplaysDifferOnlyBySummary | components/ChatInterface.tsx:100-106 | the two copies agree whenever `summary` is falsy or missing; otherwise the component shows the summary |
| Normalizer.PrecedenceExamples | components/ChatInterface.tsx:99-106 | a truthy summary wins, a `null` summary falls through to `answer`, an unknown shape shows the serialisation, and the hook ignores `summary` |
| Session.UpdateContent | components/ChatInterface.tsx:46-52 | the definition of `prev.map(...)` over the matching ids; the list keeps its length |
| Session.UpdateContentSpec | components/ChatInterface.tsx:46-52 | element by element, colliding ids included: only the content of messages carrying the id changes, to the new text; order, ids, roles and raw replies are kept |
| Session.UpdateContentOverwrites | components/ChatInterface.tsx:46-52 | a later overwrite of the same id replaces an earlier one entirely |
| Session.UpdateContentAbsent | hooks/useChat.ts:41-47 | an id no message carries leaves the list unchanged |
| Session.UpdateContentOfLast | components/ChatInterface.tsx:46-52 | overwriting a freshly appended message with a new id touches that message only |
| Session.TypingFrames | components/ChatInterface.tsx:43-53 | the views after the first `n` steps of the loop: one frame per step |
| Session.TypingFramesAt | components/ChatInterface.tsx:43-53 | frame `k` is the view after step `k`: the first `k + 1` words typed, the loading flag as it was, the mark on the id |
| Session.TypingFrameShowsPrefix | components/ChatInterface.tsx:40-52 | during the reveal the typing id is set, the loading flag is unchanged, the target messages show a prefix of the text, and every other message is unchanged |
| Session.TypingStep | components/ChatInterface.tsx:43-52 | one loop iteration takes the list from `k` words typed to `k + 1` |
| Session.TypingAdvance | components/ChatInterface.tsx:46-52 | one iteration, seen from outside: overwriting with one more word gives the list after `k + 1` steps and appends the next frame |
| Session.TypingEnds | components/ChatInterface.tsx:41-53 | after the last step the target messages hold exactly the text |
| Session.Resolve | components/ChatInterface.tsx:84-121 | the definition of how a turn ends once the request is over, in both copies (`useChat.ts:78-109` is the hook's). Its properties are stated by `ResolveAppendsAssistants`, `ResolveKeepsPayloads`, `TypedTurn` and `ReplyFramesEndInResolution` |
| Session.ResolveAppendsAssistants | components/ChatInterface.tsx:84-121 | a turn appends only assistant messages. It appends exactly one unless a parsed reply cannot be typed, and then two. An error is caught exactly when typing did not complete; the error message is then last and earlier messages are untouched |
| Session.ResolveKeepsPayloads | components/ChatInterface.tsx:88-93 | a turn keeps the earlier raw replies, and the hook's copy never attaches one |
| Session.ReplyFrames | components/ChatInterface.tsx:95-108 | the definition of the views from the parsed reply on: the list with the placeholder and loading off, then each typing step (`useChat.ts:87-91` in the hook). `ReplyFramesPlaceholderFirst` and `ReplyFramesEndInResolution` state its properties |
| Session.ReplyFramesPlaceholderFirst | components/ChatInterface.tsx:86-108 | a parsed reply produces at least one frame and a failed request none. Loading is off in every frame. The first frame shows the earlier messages plus one empty assistant message with the reply's id and, in the component, the raw reply; typing starts only after that |
| Session.ReplyFramesEndInResolution | components/ChatInterface.tsx:95-108 | a typed reply produces one frame per word after the placeholder frame. The last frame already shows the turn's final list, with the typing mark still on the reply |
| Session.TypedTurn | components/ChatInterface.tsx:86-108 | a typed reply with a new id adds one assistant message holding the whole display text and, in the component, the raw reply; the typing id is cleared |
| ChatInterface.SendGuard | components/ChatInterface.tsx:58-69 | `sendMessage` changes nothing when the trimmed input is empty or a request is outstanding, and otherwise appends at least two messages |
| ChatInterface.SubmitAppendsUserMessage | components/ChatInterface.tsx:61-69 | an accepted send appends exactly one user message with the trimmed input after the unchanged earlier messages, clears the input and raises the loading flag |
| ChatInterface.SuccessfulTurn | components/ChatInterface.tsx:84-108 | a successful turn adds exactly the user message and one assistant message with the display text and the raw reply; loading and typing are over |
| ChatInterface.FailedTurn | components/ChatInterface.tsx:110-121 | a failed request adds the user message and one fixed error message without a raw reply, and loading ends |
| ChatInterface.UntypableTurn | components/ChatInterface.tsx:95-120 | a reply that cannot be typed leaves the empty placeholder with its raw reply, followed by the error message. For a non-`null` reply the typing id stays set |
| ChatInterface.SelectionStaysValid | components/ChatInterface.tsx:177 | every operation keeps the selection either empty or on an assistant message with a truthy raw reply |
| ChatInterface.InspectionOnlyTouchesSelection | components/ChatInterface.tsx:177 | selecting and closing change only the selection; closing always clears it; a click selects exactly an inspectable message |
| ChatInterface.ChatSession.constructor | components/ChatInterface.tsx:17-28 | the session starts with the greeting (id "1"), an empty input, no loading, no typing and no selection |
| ChatInterface.ChatSession.SetInput | components/ChatInterface.tsx:262 | typing into the box replaces the input and nothing else |
| ChatInterface.ChatSession.SimulateTyping | components/ChatInterface.tsx:39-56 | sets the typing id, overwrites the target content word prefix by word prefix (the ghost `frames`), ends with the content equal to the text, and clears the typing id |
| ChatInterface.ChatSession.Submit | components/ChatInterface.tsx:58-69 | returns whether the guard accepts; if it does, the state becomes `Submitted`, otherwise it is unchanged |
| ChatInterface.ChatSession.ReceiveReply | components/ChatInterface.tsx:84-121 | the ghost `frames` it passes through are `ReplyFrames`: the placeholder with loading off, then each typing step. The state at the end is `Resolved` |
| ChatInterface.ChatSession.SendMessage | components/ChatInterface.tsx:58-122 | a whole call leaves the state `Sent` |
| ChatInterface.ChatSession.HandleKeyPress | components/ChatInterface.tsx:124-129 | Enter without Shift sends; any other key changes nothing |
| ChatInterface.ChatSession.SelectMessage | components/ChatInterface.tsx:177 | a click on an avatar selects that message only when it is an assistant message with a truthy raw reply |
| ChatInterface.ChatSession.CloseInspection | components/ChatInterface.tsx:295 | the close handlers (backdrop :295, dialog :305, close icon :323, Close button :348) clear the selection and nothing else |
| UseChat.SendGuard | hooks/useChat.ts:53-63 | `sendMessage(content)` is a no-op when the trimmed content is empty or a request is outstanding; otherwise it appends the trimmed user message after the earlier messages, then at least one reply |
| UseChat.OnErrorCalledOnce | hooks/useChat.ts:93-109 | `onError`, when given, is called exactly once per failed turn and never otherwise; a failed turn ends with the fixed error message; loading ends |
| UseChat.FailedTurn | hooks/useChat.ts:93-109 | a failed request adds the user message and one error message, and passes the request's error to `onError` |
| UseChat.SuccessfulTurn | hooks/useChat.ts:78-91 | a successful turn adds exactly the user message and one assistant message holding the display text; loading and typing are over |
| UseChat.NoPayloadsKept | hooks/useChat.ts:80-85 | the hook never attaches a raw reply to a message |
| UseChat.ChatHook.constructor | hooks/useChat.ts:18-23 | the hook starts with no messages, no loading, no typing id and no reported errors |
| UseChat.ChatHook.SetMessages | hooks/useChat.ts:118 | the exposed setter replaces the list and nothing else |
| UseChat.ChatHook.SimulateTyping | hooks/useChat.ts:34-51 | as in the component: word-prefix frames, the final content equal to the text, the typing id cleared |
| UseChat.ChatHook.Submit | hooks/useChat.ts:53-63 | returns whether the guard accepts and appends the trimmed user message with loading raised when it does |
| UseChat.ChatHook.Report | hooks/useChat.ts:97-99 | the error is recorded as passed to `onError` exactly when a callback was given |
| UseChat.ChatHook.ReceiveReply | hooks/useChat.ts:78-109 | the ghost `frames` are `ReplyFrames`: the placeholder with loading off (:87-88), then each typing step. The end state is `Resolved`, including the report to `onError` |
| UseChat.ChatHook.SendMessage | hooks/useChat.ts:53-110 | a whole call leaves the state `Sent` |

## Left out

- The request: `fetch`, the endpoint URL (`apiUrl`), the status check and `response.json()` are network I/O. Their outcome is the `Reply` parameter. A non-2xx status, a rejected `fetch` and an unparsable body all become `Failed`.
- The 30 ms delays and the asynchronous interleaving are not modelled, because they are a matter of scheduling: the animation is a plain loop. A new send can start while an earlier animation still runs, and the model does not cover that case.
- React's state batching and stale closures are not modelled; each operation sees the latest state.
- Clock-based ids are not modelled, because `Date.now()` cannot be modelled: the caller supplies them.
- `console.error`, `scrollIntoView` with its `useEffect`, and the clipboard copy are browser side effects and are left out.
- The dialog's pretty-printed JSON (`JSON.stringify(..., null, 2)`) and the exact output of `JSON.stringify` are left out; the serialiser is the opaque `stringify` parameter.
- All markup, animation, Markdown rendering and styling are presentation and are left out. This includes `preventDefault` in the key handler, `stopPropagation` inside the dialog and the unused `isTyping` field.
- JavaScript strings are UTF-16. The model works on Unicode scalar values, which makes no difference for the space separator or the whitespace set.
- The marketing components, the app layout and page, and the example server are not part of this model.
- UseChat.OnErrorCalledOnce: assumes `onError` returns normally. A callback that throws leaves the `catch` block before the error message is appended and loading ends (useChat.ts:98); the hook then stays loading and rejects every later send. That case is not modelled. The same holds for `UseChat.FailedTurn` and `UseChat.ChatHook.Report`.
- ChatInterface.SuccessfulTurn: states the two-message outcome only when no earlier message carries the reply id and the user id differs from it, because the source does not guarantee unique ids.
- UseChat.SuccessfulTurn: the same freshness condition on the reply id, for the same reason.

# DocuChat chat core, modelled in Dafny

DocuChat is a browser application. A user uploads a document. The page
extracts its text and keeps it in a chat session. Each question is answered
by a hosted language model from the document text alone. This project models
the parts of it that hold logic:

- the chat page's state machine (`src/app/page.tsx`). It holds the session
  history, the active session id, the loading flag and the error
  notifications. Its handlers create, select and delete sessions, send a
  message, and restore or save the history;
- the server action `getAIResponse` (`src/app/actions.ts`). It forwards the
  question, substitutes a fallback for an empty answer and maps every failure
  to one error;
- the two prompt builders (`src/ai/flows/*.ts`), with the model treated as an
  oracle.

Layout, one module per source file or component:

| file | module | models |
|---|---|---|
| `wrappers.dfy` | `Wrappers` | `Option` (JavaScript's `null`/`undefined`) and `Result` (a value or a thrown error) |
| `llm.dfy` | `Llm` | the model as an `Oracle`: a prompt in, `Ok(text)` or `Err(e)` out |
| `js_text.dfy` | `JsText` | `String.prototype.trim`, as the send guard uses it |
| `pieces.dfy` | `Pieces` | where each piece of a concatenation sits (used by both prompt templates) |
| `answer_questions_from_document.dfy` | `AnswerFlow` | the answer prompt and `answerQuestionsFromDocument` |
| `summarize_uploaded_document.dfy` | `SummarizeFlow` | the summary prompt with its optional clause, and `summarizeUploadedDocument` |
| `actions.dfy` | `Actions` | `getAIResponse` |
| `sessions.dfy` | `Sessions` | messages and sessions, and the pure list updates the page's handlers apply (`[newChat, ...prev]`, `find`, `map` with an append, `map` with `slice(0, -1)`, `filter`), the load and save decisions |
| `page.dfy` | `ChatPage` | the class `ChatController`: the page's state fields and one method per handler |

`handleSendMessage` has an `await` in the middle. It is split there into
three methods. `BeginSend` runs the guard, appends the question, sets the
loading flag and returns the active id it captured. `CompleteSend` and
`FailSend` end the send. Both address the session by that captured id, as
the source does, and not by position. `SendMessage` chains the three, with
`getAIResponse` in between.

Behaviours of the code a reader may not expect:
- Deleting removes every session with the id (it is a `filter`).
  `Sessions.RemoveUniqueSession` shows that this is exactly one session when
  ids are unique.
- The active id is always `null` or the id of a listed session
  (`Sessions.ActiveIsListed`). The sidebar offers only listed sessions
  (page.tsx:310-313), creating a session makes its new id active, and
  deleting the active session clears the id. Every handler but `Load` keeps
  this. `Load` does not check it: the page runs its load effect once at
  mount, with the active id still `null`, whereas the model's `Load` may run
  in any state. If the active id names no session, `ActiveChat()` is `None`
  and the send guard refuses the send.
- The rollback drops the last message of the session at the moment of the
  failure (`slice(0, -1)`), whatever that message is. On an empty message
  list it drops nothing.
- The save effect skips an empty history. So deleting the last session is
  never written back, and a reload restores it
  (`Sessions.DeletingLastSessionIsNotSaved`).
- `summarizeUploadedDocument` is never called by the page. It is modelled
  on its own.

## Model

| member | source | states |
|---|---|---|
| `JsText.TrimEmptyIffBlank` | src/app/page.tsx:162 | `!message.trim()` holds exactly when the message consists only of ECMAScript white space and line terminators |
| `AnswerFlow.AnswerPromptLayout` | src/ai/flows/answer-questions-from-document.ts:23-29 | the prompt is, piece by piece, the fixed chatbot header, `"\n\nDocument: "`, the document verbatim, `"\n\nQuestion: "`, the question verbatim, a blank line and the fixed "Based *only* on the document…" line; the length is the template's fixed length plus the two inputs' lengths (no truncation) |
| `AnswerFlow.AnswerPromptDeterminesDocument` | src/ai/flows/answer-questions-from-document.ts:25 | for a fixed question, two documents giving the same prompt are equal |
| `AnswerFlow.AnswerPromptDeterminesQuestion` | src/ai/flows/answer-questions-from-document.ts:27 | for a fixed document, two questions giving the same prompt are equal |
| `AnswerFlow.AnswerPromptShift` | src/ai/flows/answer-questions-from-document.ts:25-27 | since nothing is escaped, a document ending in the question label plus `b`, asked `c`, gives the same prompt as the shorter document asked `b` plus the label plus `c` |
| `AnswerFlow.AnswerPromptIsAmbiguous` | src/ai/flows/answer-questions-from-document.ts:25-27 | there are two different (document, question) pairs with one and the same prompt |
| `AnswerFlow.AnswerQuestionsFromDocument` | src/ai/flows/answer-questions-from-document.ts:22-36 | the model receives exactly the answer prompt of the input; its text is returned unchanged as `answer`; its failure propagates unchanged |
| `SummarizeFlow.QuestionClause` | src/ai/flows/summarize-uploaded-document.ts:29 | a present, non-empty question gives `"Considering the question: " + question`; the clause is empty exactly when the question is absent or empty |
| `SummarizeFlow.SummaryPromptLayout` | src/ai/flows/summarize-uploaded-document.ts:25-31 | the prompt is, piece by piece, the fixed summarizer header, `"\n\nDocument text: "`, the document verbatim, a blank line, the question clause, a blank line and the fixed "no more than 3 paragraphs" instruction; the length is fixed text plus document plus clause |
| `SummarizeFlow.EmptyQuestionIsNoQuestion` | src/ai/flows/summarize-uploaded-document.ts:29 | an empty question and an absent one give the same prompt |
| `SummarizeFlow.QuestionAppearsInPrompt` | src/ai/flows/summarize-uploaded-document.ts:29 | a non-empty question appears verbatim right after its lead |
| `SummarizeFlow.SummaryPromptDeterminesDocument` | src/ai/flows/summarize-uploaded-document.ts:27 | for a fixed question, two documents giving the same prompt are equal |
| `SummarizeFlow.SummarizeUploadedDocument` | src/ai/flows/summarize-uploaded-document.ts:22-38 | the model receives exactly the summary prompt of the input; its text is returned unchanged as `summary`; its failure propagates unchanged |
| `Actions.GetAIResponse` | src/app/actions.ts:8-21 | it fails exactly when the model fails on the answer prompt of the input, as it was given; it then fails with the fixed message `Failed to get response from AI. Please try again later.`; a non-empty answer is returned unchanged, an empty one becomes `I couldn't find an answer to that in the document.`; a returned answer is never empty |
| `Actions.FailureIsUniform` | src/app/actions.ts:17-20 | two models that fail with different errors give the caller the same error |
| `Actions.ResponseDependsOnlyOnReply` | src/app/actions.ts:11-16 | the response depends on the model only through its reply to this input's prompt |
| `Sessions.Greeting` | src/app/page.tsx:102 | the seed message is from the AI and reads `I've finished reading "`, the file name verbatim, then `". Ask me anything!` |
| `Sessions.NewSession` | src/app/page.tsx:97-104 | a new session carries the given id, file name and text, and the greeting as its only message |
| `Sessions.Find` | src/app/page.tsx:161 | `find` returns a session exactly when some session matches the id, and then it is the first match; a `null` id matches nothing |
| `Sessions.AppendMessage` | src/app/page.tsx:168-174 | the length and order of the history are kept; each session with the id gets the message at the end of its messages; every other session is unchanged |
| `Sessions.DropLast` | src/app/page.tsx:198 | `slice(0, -1)` gives a prefix, one shorter than a non-empty list and empty for an empty list |
| `Sessions.DropLastMessage` | src/app/page.tsx:195-201 | the length and order of the history are kept; each session with the id loses its last message; every other session is unchanged |
| `Sessions.RemoveSession` | src/app/page.tsx:208 | what remains is exactly the sessions with another id |
| `Sessions.RemoveSessionConcat` | src/app/page.tsx:208 | filtering distributes over concatenation, so the remaining sessions keep their relative order |
| `Sessions.RemoveAbsentSession` | src/app/page.tsx:208 | deleting an id no session has leaves the history unchanged |
| `Sessions.RemoveUniqueSession` | src/app/page.tsx:207-212 | with unique ids, deleting the session at position k gives exactly the sessions before and after it, in order, one fewer in all |
| `Sessions.RemoveKeepsIdsUnique` | src/app/page.tsx:208 | deleting keeps ids unique |
| `Sessions.PrependKeepsIdsUnique` | src/app/page.tsx:96-105 | prepending a session with a new id keeps ids unique |
| `Sessions.AppendKeepsIdsUnique` | src/app/page.tsx:168-174 | appending a message keeps ids unique |
| `Sessions.DropKeepsIdsUnique` | src/app/page.tsx:195-201 | rolling back a message keeps ids unique |
| `Sessions.AppendKeepsListed` | src/app/page.tsx:168-174 | appending a message neither adds nor removes an id, so the active id is listed afterwards exactly when it was before |
| `Sessions.DropKeepsListed` | src/app/page.tsx:195-201 | the rollback neither adds nor removes an id, so the active id is listed afterwards exactly when it was before |
| `Sessions.RemoveKeepsOtherIds` | src/app/page.tsx:208 | deleting one id leaves every other id present exactly when it was before |
| `Sessions.RollbackRestores` | src/app/page.tsx:168-201 | appending the question and then rolling back with `slice(0, -1)` restores the history exactly: a failed send is net zero for every session |
| `Sessions.SendThenAnswer` | src/app/page.tsx:166-188 | the question and then the answer grow each session with the id by exactly two messages, user then AI, keeping its id, file name and text; other sessions are unchanged |
| `Sessions.UploadThenAnswer` | src/app/page.tsx:95-188 | a new session that is asked a question and answered ends with greeting, question and answer, in that order |
| `Sessions.UploadThenFailure` | src/app/page.tsx:95-201 | a new session whose question fails ends with the greeting only |
| `Sessions.Restored` | src/app/page.tsx:54-66 | the stored history is taken exactly when something non-empty is stored and it parses as an array, and then it is the parsed array |
| `Sessions.ShouldSave` | src/app/page.tsx:69-73 | the history is written exactly when it is non-empty |
| `Sessions.DeletingLastSessionIsNotSaved` | src/app/page.tsx:69-73 | deleting the only session leaves a history that is not written back |
| `ChatPage.ChatController.constructor` | src/app/page.tsx:45-48 | the initial state is an empty history, no active id, not loading |
| `ChatPage.ChatController.ActiveChat` | src/app/page.tsx:214 | the active chat is the first session of the history carrying the active id (as `find` returns it, which matters when a loaded history repeats an id); when there is none, no session carries it |
| `ChatPage.ChatController.Load` | src/app/page.tsx:54-66 | the history becomes the stored one exactly in the `Restored` case and is otherwise unchanged; no other field changes |
| `ChatPage.ChatController.BeginUpload` | src/app/page.tsx:89-93 | choosing a file sets the loading flag and changes nothing else |
| `ChatPage.ChatController.CreateSession` | src/app/page.tsx:95-108 | exactly one session is prepended, the new one with its greeting; the old sessions follow unchanged and in order; it becomes the active chat; loading ends; unique ids stay unique; the active id is listed |
| `ChatPage.ChatController.FileError` | src/app/page.tsx:110-118 | history and active id are unchanged, loading ends, the file-error notification is shown |
| `ChatPage.ChatController.NewChat` | src/app/page.tsx:82-87 | the active id is cleared; the history is unchanged; the active id is listed (it is `null`) |
| `ChatPage.ChatController.Select` | src/app/page.tsx:310-313 | the active id becomes the chosen id; nothing else changes; it requires the id to be listed, as the sidebar only offers listed sessions, so the active id is listed |
| `ChatPage.ChatController.Delete` | src/app/page.tsx:207-212 | the history becomes the filtered one and no session with the id is left; the active id is cleared exactly when it was that id and is otherwise unchanged; unique ids stay unique; a listed active id stays listed |
| `ChatPage.ChatController.BeginSend` | src/app/page.tsx:155-176 | a blank message, or no session with the active id, changes nothing and returns `None`; otherwise the message, as typed, is appended as a user message to the sessions with the active id, loading starts, and the captured id is returned; unique ids stay unique; a listed active id stays listed |
| `ChatPage.ChatController.CompleteSend` | src/app/page.tsx:179-188 | the answer is appended as an AI message to the sessions with the captured id; loading ends; unique ids stay unique; a listed active id stays listed |
| `ChatPage.ChatController.FailSend` | src/app/page.tsx:189-204 | the sessions with the captured id drop their last message; loading ends; the send-error notification is shown; unique ids stay unique; a listed active id stays listed |
| `ChatPage.ChatController.SendMessage` | src/app/page.tsx:155-205 | a refused send changes nothing; when the model answers, the active session gains the question and the answer (or the fallback); when it fails, the history is exactly as before the send and one notification is added; loading ends either way; a listed active id stays listed |

## Left out

- Rendering: the JSX, the sidebar, the scroll effect (page.tsx:75-79), the loading placeholder (page.tsx:260), the view switch (page.tsx:345) and `src/components/chat-message.tsx`. They are presentation only.
- Text extraction: the pdf.js worker and page loop, the `FileReader` plumbing and `src/lib/docx-extractor.ts`. They wrap pdf.js, mammoth and browser I/O. The extracted text is a parameter of `CreateSession`, and a failed read is the call to `FileError`.
- localStorage and JSON: `Load` takes the stored text and the outcome of `JSON.parse` as parameters. A parsed array is taken to hold well-formed sessions. The source does not check the elements' shape either. Saving is modelled as the `ShouldSave` decision only. No JSON round trip is modelled.
- The model call (`model.generateContent`, `result.response`, `response.text()`) is the `Oracle` parameter.
- `Date.now()` is a clock read. The new session's id is a parameter that no existing session carries.
- `console.error` logging, and the `variant` of the toasts. Notifications are recorded as a sequence of title and description.
- `form.reset()` and clearing the file input in `handleNewChat` are DOM updates.
- Overlapping sends. The source prevents them only by disabling the input (page.tsx:272, 278). The model runs each send to its end before the next handler; interleavings are concurrent behaviour.
- `src/lib/download-code.ts` is fetch, JSZip and file-saver I/O with `Promise.all` parallelism.
- Strings: Dafny `string` is a sequence of Unicode scalar values, a JavaScript string one of UTF-16 code units; lone surrogates are not representable and `|s|` is not `.length`. Nothing in the core depends on it: every character `trim` removes is in the Basic Multilingual Plane, and concatenation lengths add up in either measure.
- SendMessage: does not model failures of the server-action call itself (a lost connection, a server timeout) separately from a model failure. The page's `catch` handles them alike, so they end as `BeginSend` followed by `FailSend`.
- GetAIResponse: models an empty answer but not a missing one. The flow always returns an object whose `answer` is a string, so `output?.answer` can only be falsy by being empty.
- BeginSend: assumes the form field is present, so the message is a string. The source casts `formData.get('message')` without a check.

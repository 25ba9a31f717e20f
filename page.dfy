/**
 * The chat page's state and handlers: the session history, the active session
 * id, the loading flag, and the error notifications shown to the user. Each
 * handler is one method; a send is split at its `await` into the part before
 * the model is asked and the two ways it can end.
 */
module ChatPage {
  import opened Wrappers
  import opened Llm
  import opened JsText
  import opened Sessions
  import opened AnswerFlow
  import opened Actions

  /** A destructive toast notification. */
  datatype Toast = Toast(title: string, description: string)

  const FileErrorToast: Toast := Toast("Error reading file",
    "There was a problem reading your document. Please try another file.")
  const SendErrorToast: Toast := Toast("An error occurred",
    "Sorry, I couldn't process that. Please try again.")

  class ChatController {
    var chatHistory: seq<ChatSession>
    var activeChatId: Option<string>
    var isLoading: bool
    /** The notifications shown so far, oldest first. */
    var toasts: seq<Toast>

    /** The first render: no history, no active session, not loading. */
    constructor ()
      ensures chatHistory == [] && activeChatId == None && !isLoading && toasts == []
    {
      chatHistory, activeChatId, isLoading, toasts := [], None, false, [];
    }

    /** The session the chat view shows: the first one with the active id. */
    function ActiveChat(): (r: Option<ChatSession>)
      reads this
      // A corollary of the first-match clause below, kept in the form callers use.
      ensures r.Some? ==> r.value in chatHistory && activeChatId == Some(r.value.id)
      ensures r.Some? ==> exists i :: 0 <= i < |chatHistory| && chatHistory[i] == r.value
                            && Matches(chatHistory[i], activeChatId)
                            && forall j :: 0 <= j < i ==> !Matches(chatHistory[j], activeChatId)
      ensures r.None? ==> forall s :: s in chatHistory ==> !Matches(s, activeChatId)
    {
      Find(chatHistory, activeChatId)
    }

    /**
     * The load effect: the stored history replaces the current one only when
     * something non-empty is stored and parses as an array.
     */
    method Load(raw: Option<string>, parsed: Parsed)
      modifies this
      ensures chatHistory == (if Restored(raw, parsed).Some? then parsed.sessions else old(chatHistory))
      ensures activeChatId == old(activeChatId) && isLoading == old(isLoading) && toasts == old(toasts)
    {
      var restored := Restored(raw, parsed);
      if restored.Some? {
        chatHistory := restored.value;
      }
    }

    /** A file was chosen: extraction starts and the page shows it is busy. */
    method BeginUpload()
      modifies this
      ensures isLoading
      ensures chatHistory == old(chatHistory) && activeChatId == old(activeChatId) && toasts == old(toasts)
    {
      isLoading := true;
    }

    /**
     * `processText`: the extracted text becomes a new session, put first and
     * made active. `id` stands for the clock reading the source uses, which
     * no existing session carries.
     */
    method CreateSession(id: string, fileName: string, text: string)
      requires !HasId(chatHistory, id)
      modifies this
      ensures |chatHistory| == |old(chatHistory)| + 1
      ensures chatHistory[0] == NewSession(id, fileName, text)
      ensures chatHistory[1..] == old(chatHistory)
      ensures activeChatId == Some(id) && !isLoading && toasts == old(toasts)
      ensures ActiveChat() == Some(NewSession(id, fileName, text))
      ensures old(UniqueIds(chatHistory)) ==> UniqueIds(chatHistory)
      ensures ActiveIsListed(chatHistory, activeChatId)
    {
      ghost var before := chatHistory;
      var session := NewSession(id, fileName, text);
      chatHistory := [session] + chatHistory;
      activeChatId := Some(id);
      isLoading := false;
      if UniqueIds(before) {
        PrependKeepsIdsUnique(session, before);
      }
    }

    /** `handleError`: reading the file failed; only a notification and the loading flag change. */
    method FileError()
      modifies this
      ensures chatHistory == old(chatHistory) && activeChatId == old(activeChatId)
      ensures !isLoading && toasts == old(toasts) + [FileErrorToast]
    {
      toasts := toasts + [FileErrorToast];
      isLoading := false;
    }

    /** `handleNewChat`: back to the upload view; no session is deleted. */
    method NewChat()
      modifies this
      ensures activeChatId == None
      ensures chatHistory == old(chatHistory) && isLoading == old(isLoading) && toasts == old(toasts)
      ensures ActiveIsListed(chatHistory, activeChatId)
    {
      activeChatId := None;
    }

    /** A click on a session in the sidebar, which lists only sessions of the history, makes it active. */
    method Select(id: string)
      requires HasId(chatHistory, id)
      modifies this
      ensures activeChatId == Some(id)
      ensures chatHistory == old(chatHistory) && isLoading == old(isLoading) && toasts == old(toasts)
      ensures ActiveIsListed(chatHistory, activeChatId)
    {
      activeChatId := Some(id);
    }

    /**
     * `handleDeleteChat`: every session with that id goes, the rest keep
     * their order; the active id is cleared exactly when it was this one.
     */
    method Delete(id: string)
      modifies this
      ensures chatHistory == RemoveSession(old(chatHistory), id)
      ensures activeChatId == if old(activeChatId) == Some(id) then None else old(activeChatId)
      ensures isLoading == old(isLoading) && toasts == old(toasts)
      ensures !HasId(chatHistory, id)
      ensures old(UniqueIds(chatHistory)) ==> UniqueIds(chatHistory)
      ensures old(ActiveIsListed(chatHistory, activeChatId)) ==> ActiveIsListed(chatHistory, activeChatId)
    {
      ghost var before := chatHistory;
      chatHistory := RemoveSession(chatHistory, id);
      if activeChatId == Some(id) {
        activeChatId := None;
      }
      if UniqueIds(before) {
        RemoveKeepsIdsUnique(before, id);
      }
      if activeChatId.Some? {
        RemoveKeepsOtherIds(before, id, activeChatId.value);
      }
      assert !HasId(chatHistory, id) by {
        forall i | 0 <= i < |chatHistory| ensures chatHistory[i].id != id {
          assert chatHistory[i] in chatHistory;
        }
      }
    }

    /**
     * The first half of `handleSendMessage`, up to the `await`. A blank
     * message, or no session with the active id, changes nothing and returns
     * `None`. Otherwise the message is appended, as typed, to the sessions
     * with the active id, the page starts loading, and that id is returned for
     * the second half.
     */
    method BeginSend(message: string) returns (sent: Option<string>)
      modifies this
      ensures Trim(message) == "" || old(ActiveChat()).None? ==>
        && sent == None
        && chatHistory == old(chatHistory) && activeChatId == old(activeChatId)
        && isLoading == old(isLoading) && toasts == old(toasts)
      ensures Trim(message) != "" && old(ActiveChat()).Some? ==>
        && sent == old(activeChatId) && sent.Some?
        && chatHistory == AppendMessage(old(chatHistory), sent.value, Message(User, message))
        && activeChatId == old(activeChatId) && isLoading && toasts == old(toasts)
      ensures old(UniqueIds(chatHistory)) ==> UniqueIds(chatHistory)
      ensures old(ActiveIsListed(chatHistory, activeChatId)) ==> ActiveIsListed(chatHistory, activeChatId)
    {
      var blank := Trim(message) == "";
      var activeChat := ActiveChat();
      if blank || activeChat.None? {
        return None;
      }
      sent := activeChatId;
      var before, asked := chatHistory, Message(User, message);
      if UniqueIds(before) {
        AppendKeepsIdsUnique(before, sent.value, asked);
      }
      AppendKeepsListed(before, sent.value, asked, activeChatId);
      chatHistory := AppendMessage(before, sent.value, asked);
      isLoading := true;
    }

    /** The model answered: the answer is appended to the sessions with the id captured at send time. */
    method CompleteSend(id: string, answer: string)
      modifies this
      ensures chatHistory == AppendMessage(old(chatHistory), id, Message(Ai, answer))
      ensures activeChatId == old(activeChatId) && !isLoading && toasts == old(toasts)
      ensures old(UniqueIds(chatHistory)) ==> UniqueIds(chatHistory)
      ensures old(ActiveIsListed(chatHistory, activeChatId)) ==> ActiveIsListed(chatHistory, activeChatId)
    {
      AppendKeepsListed(chatHistory, id, Message(Ai, answer), activeChatId);
      chatHistory := AppendMessage(chatHistory, id, Message(Ai, answer));
      isLoading := false;
    }

    /**
     * The model failed: a notification, and the sessions with the id captured
     * at send time drop their last message, the question just sent.
     */
    method FailSend(id: string)
      modifies this
      ensures chatHistory == DropLastMessage(old(chatHistory), id)
      ensures activeChatId == old(activeChatId) && !isLoading
      ensures toasts == old(toasts) + [SendErrorToast]
      ensures old(UniqueIds(chatHistory)) ==> UniqueIds(chatHistory)
      ensures old(ActiveIsListed(chatHistory, activeChatId)) ==> ActiveIsListed(chatHistory, activeChatId)
    {
      DropKeepsListed(chatHistory, id, activeChatId);
      toasts := toasts + [SendErrorToast];
      chatHistory := DropLastMessage(chatHistory, id);
      isLoading := false;
    }

    /**
     * `handleSendMessage` run to its end, the model's reply standing for the
     * `await`. On success the active session grows by the question and the
     * answer (or the fallback); on failure the history is back where it was
     * and a notification is shown; either way loading ends.
     */
    method SendMessage(message: string, llm: Oracle)
      modifies this
      ensures Trim(message) == "" || old(ActiveChat()).None? ==>
        && chatHistory == old(chatHistory) && activeChatId == old(activeChatId)
        && isLoading == old(isLoading) && toasts == old(toasts)
      ensures Trim(message) != "" && old(ActiveChat()).Some? ==>
        var id := old(activeChatId).value;
        var reply := GetAIResponse(AnswerInput(old(ActiveChat()).value.documentText, message), llm);
        && activeChatId == old(activeChatId) && !isLoading
        && (reply.Ok? ==>
              && chatHistory == AppendMessage(AppendMessage(old(chatHistory), id, Message(User, message)),
                                              id, Message(Ai, reply.value.answer))
              && toasts == old(toasts))
        && (reply.Err? ==> chatHistory == old(chatHistory) && toasts == old(toasts) + [SendErrorToast])
      ensures old(ActiveIsListed(chatHistory, activeChatId)) ==> ActiveIsListed(chatHistory, activeChatId)
    {
      var activeChat := ActiveChat();
      ghost var before := chatHistory;
      var sent := BeginSend(message);
      if sent.None? {
        return;
      }
      var response := GetAIResponse(AnswerInput(activeChat.value.documentText, message), llm);
      match response
      case Ok(output) =>
        CompleteSend(sent.value, output.answer);
      case Err(_) =>
        FailSend(sent.value);
        RollbackRestores(before, sent.value, Message(User, message));
    }
  }
}

/**
 * The chat sessions of the page and the pure list updates its handlers apply
 * to them: prepend, find by id, append a message to the sessions with an id,
 * drop their last message (`slice(0, -1)`), and filter a session out.
 */
module Sessions {
  import opened Wrappers

  datatype Role = User | Ai
  datatype Message = Message(role: Role, content: string)
  datatype ChatSession = ChatSession(id: string, fileName: string, documentText: string, messages: seq<Message>)

  /** `c.id === activeChatId`: a `null` active id matches no session. */
  predicate Matches(s: ChatSession, id: Option<string>) {
    id == Some(s.id)
  }

  /** Some session of `h` has this id. */
  predicate HasId(h: seq<ChatSession>, id: string) {
    exists i :: 0 <= i < |h| && h[i].id == id
  }

  /** No two sessions of `h` share an id. */
  predicate UniqueIds(h: seq<ChatSession>) {
    forall i, j :: 0 <= i < j < |h| ==> h[i].id != h[j].id
  }

  const GreetingPrefix: string := "I've finished reading \""
  const GreetingSuffix: string := "\". Ask me anything!"

  /** The seed message of a new session: the file name, quoted, inside a fixed sentence. */
  function Greeting(fileName: string): (m: Message)
    ensures m.role == Ai
    ensures |m.content| == |GreetingPrefix| + |fileName| + |GreetingSuffix|
    ensures m.content[..|GreetingPrefix|] == GreetingPrefix
    ensures m.content[|GreetingPrefix|..|GreetingPrefix| + |fileName|] == fileName
    ensures m.content[|GreetingPrefix| + |fileName|..] == GreetingSuffix
  {
    var c := GreetingPrefix + fileName + GreetingSuffix;
    assert c[..|GreetingPrefix|] == GreetingPrefix;
    assert c[|GreetingPrefix|..|GreetingPrefix| + |fileName|] == fileName;
    assert c[|GreetingPrefix| + |fileName|..] == GreetingSuffix;
    Message(Ai, c)
  }

  /** A session just read from a file: its text and the greeting, nothing else. */
  function NewSession(id: string, fileName: string, text: string): (s: ChatSession)
    ensures s.id == id && s.fileName == fileName && s.documentText == text
    ensures s.messages == [Greeting(fileName)]
  {
    ChatSession(id, fileName, text, [Greeting(fileName)])
  }

  /** `h.find(c => c.id === id)`: the first session with that id, if any. */
  function Find(h: seq<ChatSession>, id: Option<string>): (r: Option<ChatSession>)
    ensures r.Some? <==> exists i :: 0 <= i < |h| && Matches(h[i], id)
    ensures r.Some? ==> exists i :: 0 <= i < |h| && h[i] == r.value && Matches(h[i], id)
                                    && forall j :: 0 <= j < i ==> !Matches(h[j], id)
  {
    if h == [] then None
    else if Matches(h[0], id) then Some(h[0])
    else
      var r := Find(h[1..], id);
      assert forall i :: 1 <= i < |h| ==> h[i] == h[1..][i - 1];
      r
  }

  /**
   * `h.map(c => c.id === id ? { ...c, messages: [...c.messages, m] } : c)`:
   * every session with that id gets `m` at the end of its messages; every
   * other session, and the order, stay as they were.
   */
  function AppendMessage(h: seq<ChatSession>, id: string, m: Message): (r: seq<ChatSession>)
    ensures |r| == |h|
    ensures forall i :: 0 <= i < |h| && h[i].id != id ==> r[i] == h[i]
    ensures forall i :: 0 <= i < |h| && h[i].id == id ==> r[i] == h[i].(messages := h[i].messages + [m])
  {
    if h == [] then []
    else
      var head := if h[0].id == id then h[0].(messages := h[0].messages + [m]) else h[0];
      [head] + AppendMessage(h[1..], id, m)
  }

  /** `ms.slice(0, -1)`: all but the last message; on no messages, none. */
  function DropLast(ms: seq<Message>): (r: seq<Message>)
    ensures r <= ms
    ensures |r| == if ms == [] then 0 else |ms| - 1
  {
    if ms == [] then [] else ms[..|ms| - 1]
  }

  /**
   * `h.map(c => c.id === id ? { ...c, messages: c.messages.slice(0, -1) } : c)`:
   * every session with that id loses its last message; every other session,
   * and the order, stay as they were.
   */
  function DropLastMessage(h: seq<ChatSession>, id: string): (r: seq<ChatSession>)
    ensures |r| == |h|
    ensures forall i :: 0 <= i < |h| && h[i].id != id ==> r[i] == h[i]
    ensures forall i :: 0 <= i < |h| && h[i].id == id ==> r[i] == h[i].(messages := DropLast(h[i].messages))
  {
    if h == [] then []
    else
      var head := if h[0].id == id then h[0].(messages := DropLast(h[0].messages)) else h[0];
      [head] + DropLastMessage(h[1..], id)
  }

  /**
   * `h.filter(c => c.id !== id)`: what remains is exactly the sessions of `h`
   * with another id.
   */
  function RemoveSession(h: seq<ChatSession>, id: string): (r: seq<ChatSession>)
    ensures |r| <= |h|
    ensures forall s :: s in r <==> s in h && s.id != id
  {
    if h == [] then []
    else if h[0].id == id then RemoveSession(h[1..], id)
    else [h[0]] + RemoveSession(h[1..], id)
  }

  /** Filtering distributes over concatenation: the remaining sessions keep their relative order. */
  lemma {:induction false} RemoveSessionConcat(a: seq<ChatSession>, b: seq<ChatSession>, id: string)
    ensures RemoveSession(a + b, id) == RemoveSession(a, id) + RemoveSession(b, id)
  {
    if a == [] {
      assert a + b == b;
    } else {
      assert (a + b)[1..] == a[1..] + b;
      RemoveSessionConcat(a[1..], b, id);
    }
  }

  /** Removing an id that no session has changes nothing. */
  lemma {:induction false} RemoveAbsentSession(h: seq<ChatSession>, id: string)
    requires !HasId(h, id)
    ensures RemoveSession(h, id) == h
  {
    if h != [] {
      assert !HasId(h[1..], id) by {
        forall i | 0 <= i < |h[1..]| ensures h[1..][i].id != id {
          assert h[1..][i] == h[i + 1];
        }
      }
      RemoveAbsentSession(h[1..], id);
      assert [h[0]] + h[1..] == h;
    }
  }

  /**
   * With unique ids, deleting the session at position `k` removes exactly that
   * one entry: the sessions before it and after it stay, in order.
   */
  lemma RemoveUniqueSession(h: seq<ChatSession>, k: nat)
    requires UniqueIds(h) && k < |h|
    ensures RemoveSession(h, h[k].id) == h[..k] + h[k + 1..]
    ensures |RemoveSession(h, h[k].id)| == |h| - 1
  {
    var id := h[k].id;
    assert h == h[..k] + ([h[k]] + h[k + 1..]);
    RemoveSessionConcat(h[..k], [h[k]] + h[k + 1..], id);
    RemoveSessionConcat([h[k]], h[k + 1..], id);
    assert RemoveSession([h[k]], id) == [] by {
      assert [h[k]][1..] == [];
    }
    assert !HasId(h[..k], id) by {
      forall i | 0 <= i < k ensures h[..k][i].id != id { assert h[..k][i] == h[i]; }
    }
    var after := h[k + 1..];
    assert !HasId(after, id) by {
      forall i | 0 <= i < |after| ensures after[i].id != id {
        assert after[i] == h[k + 1 + i];
      }
    }
    RemoveAbsentSession(h[..k], id);
    RemoveAbsentSession(after, id);
  }

  /** Deleting keeps ids unique. */
  lemma {:induction false} RemoveKeepsIdsUnique(h: seq<ChatSession>, id: string)
    requires UniqueIds(h)
    ensures UniqueIds(RemoveSession(h, id))
  {
    if h != [] {
      var tail := h[1..];
      assert UniqueIds(tail) by {
        forall i, j | 0 <= i < j < |tail| ensures tail[i].id != tail[j].id {
          assert tail[i] == h[i + 1] && tail[j] == h[j + 1];
        }
      }
      RemoveKeepsIdsUnique(tail, id);
      var rest := RemoveSession(tail, id);
      if h[0].id != id {
        assert !HasId(rest, h[0].id) by {
          forall i | 0 <= i < |rest| ensures rest[i].id != h[0].id {
            assert rest[i] in rest;
            var t :| 0 <= t < |tail| && tail[t] == rest[i];
            assert h[t + 1] == rest[i];
          }
        }
        PrependKeepsIdsUnique(h[0], rest);
      }
    }
  }

  /** Prepending a session whose id is new keeps ids unique. */
  lemma PrependKeepsIdsUnique(s: ChatSession, h: seq<ChatSession>)
    requires UniqueIds(h) && !HasId(h, s.id)
    ensures UniqueIds([s] + h)
  {
    var r := [s] + h;
    forall i, j | 0 <= i < j < |r| ensures r[i].id != r[j].id {
      assert r[j] == h[j - 1];
      if i > 0 { assert r[i] == h[i - 1]; }
    }
  }

  /** A failed send leaves that session as it was before the send: `slice(0, -1)` undoes the append. */
  lemma {:induction false} RollbackRestores(h: seq<ChatSession>, id: string, m: Message)
    ensures DropLastMessage(AppendMessage(h, id, m), id) == h
  {
    if h != [] {
      var a := AppendMessage(h, id, m);
      assert a[1..] == AppendMessage(h[1..], id, m);
      RollbackRestores(h[1..], id, m);
      assert (h[0].messages + [m])[..|h[0].messages|] == h[0].messages;
      assert [h[0]] + h[1..] == h;
    }
  }

  /**
   * A successful send grows each session with that id by exactly two
   * messages, the question and then the answer; every other session is as it
   * was.
   */
  lemma SendThenAnswer(h: seq<ChatSession>, id: string, question: string, answer: string)
    ensures var r := AppendMessage(AppendMessage(h, id, Message(User, question)), id, Message(Ai, answer));
      && |r| == |h|
      && (forall i :: 0 <= i < |h| && h[i].id == id ==>
            && r[i].messages == h[i].messages + [Message(User, question), Message(Ai, answer)]
            && r[i].id == h[i].id && r[i].fileName == h[i].fileName
            && r[i].documentText == h[i].documentText)
      && (forall i :: 0 <= i < |h| && h[i].id != id ==> r[i] == h[i])
  {
    var u, a := Message(User, question), Message(Ai, answer);
    var r := AppendMessage(AppendMessage(h, id, u), id, a);
    forall i | 0 <= i < |h| && h[i].id == id
      ensures r[i].messages == h[i].messages + [u, a]
    {
      assert h[i].messages + [u] + [a] == h[i].messages + [u, a];
    }
  }

  /**
   * Upload, then a send the model answers: the new session ends with the
   * greeting, the question and the answer, in that order. Uploading
   * "notes.txt" holding "The sky is blue." and asking "What color is the
   * sky?" of a model that says "Blue." is one instance.
   */
  lemma UploadThenAnswer(id: string, fileName: string, text: string, question: string, answer: string)
    ensures AppendMessage(AppendMessage([NewSession(id, fileName, text)], id, Message(User, question)),
                          id, Message(Ai, answer))
         == [ChatSession(id, fileName, text, [Greeting(fileName), Message(User, question), Message(Ai, answer)])]
  {
    var s0 := NewSession(id, fileName, text);
    var s1 := s0.(messages := s0.messages + [Message(User, question)]);
    assert AppendMessage([s0], id, Message(User, question)) == [s1];
    assert AppendMessage([s1], id, Message(Ai, answer)) == [s1.(messages := s1.messages + [Message(Ai, answer)])];
    assert s1.messages + [Message(Ai, answer)] == [Greeting(fileName), Message(User, question), Message(Ai, answer)];
  }

  /** Upload, then a send the model fails: only the greeting is left. */
  lemma UploadThenFailure(id: string, fileName: string, text: string, question: string)
    ensures DropLastMessage(AppendMessage([NewSession(id, fileName, text)], id, Message(User, question)), id)
         == [ChatSession(id, fileName, text, [Greeting(fileName)])]
  {
    RollbackRestores([NewSession(id, fileName, text)], id, Message(User, question));
  }

  /** Appending to sessions keeps every id where it was. */
  lemma AppendKeepsIdsUnique(h: seq<ChatSession>, id: string, m: Message)
    requires UniqueIds(h)
    ensures UniqueIds(AppendMessage(h, id, m))
  {
  }

  /** Rolling back a message keeps every id where it was. */
  lemma DropKeepsIdsUnique(h: seq<ChatSession>, id: string)
    requires UniqueIds(h)
    ensures UniqueIds(DropLastMessage(h, id))
  {
  }

  /**
   * The active id is `null` or names a session of the history. The sidebar
   * offers only listed sessions, so every handler but the load effect keeps it.
   */
  predicate ActiveIsListed(h: seq<ChatSession>, active: Option<string>) {
    active.None? || HasId(h, active.value)
  }

  /** Appending a message neither adds nor removes an id, so the active id stays listed or unlisted. */
  lemma AppendKeepsListed(h: seq<ChatSession>, id: string, m: Message, active: Option<string>)
    ensures ActiveIsListed(AppendMessage(h, id, m), active) <==> ActiveIsListed(h, active)
  {
    var r := AppendMessage(h, id, m);
    assert forall i :: 0 <= i < |h| ==> r[i].id == h[i].id;
  }

  /** Rolling back a message neither adds nor removes an id, so the active id stays listed or unlisted. */
  lemma DropKeepsListed(h: seq<ChatSession>, id: string, active: Option<string>)
    ensures ActiveIsListed(DropLastMessage(h, id), active) <==> ActiveIsListed(h, active)
  {
    var r := DropLastMessage(h, id);
    assert forall i :: 0 <= i < |h| ==> r[i].id == h[i].id;
  }

  /** Deleting one id leaves every other id present exactly when it was before. */
  lemma RemoveKeepsOtherIds(h: seq<ChatSession>, id: string, x: string)
    requires x != id
    ensures HasId(RemoveSession(h, id), x) <==> HasId(h, x)
  {
    var r := RemoveSession(h, id);
    if HasId(h, x) {
      var i :| 0 <= i < |h| && h[i].id == x;
      assert h[i] in h;
      var k :| 0 <= k < |r| && r[k] == h[i];
    }
    if HasId(r, x) {
      var k :| 0 <= k < |r| && r[k].id == x;
      assert r[k] in r;
      var i :| 0 <= i < |h| && h[i] == r[k];
    }
  }

  /** What `JSON.parse` gave for the stored text: a thrown error, a non-array value, or an array. */
  datatype Parsed = SyntaxError | NotAnArray | AnArray(sessions: seq<ChatSession>)

  /**
   * The history restored at start-up, if any. `raw` is what
   * `localStorage.getItem` returned (`None` when nothing is stored), `parsed`
   * what parsing it gave. Only when something non-empty is stored and it
   * parses as an array is it taken. Otherwise the history is left alone,
   * with no error surfaced.
   */
  function Restored(raw: Option<string>, parsed: Parsed): (r: Option<seq<ChatSession>>)
    ensures r.Some? <==> raw.Some? && raw.value != "" && parsed.AnArray?
    ensures r.Some? ==> r.value == parsed.sessions
  {
    if raw.Some? && raw.value != "" && parsed.AnArray? then Some(parsed.sessions) else None
  }

  /** The save effect writes only a non-empty history. */
  function ShouldSave(h: seq<ChatSession>): (b: bool)
    ensures b <==> h != []
  {
    |h| > 0
  }

  /**
   * Deleting the last remaining session is never written back: the stored
   * history still holds it, so a reload brings it back.
   */
  lemma DeletingLastSessionIsNotSaved(s: ChatSession)
    ensures !ShouldSave(RemoveSession([s], s.id))
  {
    assert [s][1..] == [];
  }
}

/** The chat endpoints of backend/app/api/routes_chat.py: the chat turn,
    the conversation list and a conversation's message list. */
module ChatRoutes {
  import opened Results
  import opened Ordering
  import opened Models
  import opened RagChat

  /** Body of `POST /chat/`. */
  datatype ChatRequest = ChatRequest(conversationId: Option<int>, message: string)

  /** Response of `POST /chat/`. */
  datatype ChatResponse = ChatResponse(conversationId: int, answer: string)

  /** One element of `GET /chat/conversations/{id}/messages`. */
  datatype MessageView = MessageView(id: int, role: string, content: string, createdAt: int)

  /** An `HTTPException`: status code and detail text. */
  datatype HttpError = HttpError(status: int, detail: string)

  const ConversationNotFound: HttpError := HttpError(404, "Conversation not found")

  /** `POST /chat/`: runs one turn and answers with exactly the conversation
      id and answer the turn produced; a provider failure propagates with its
      kind. */
  method Chat(s: Store, request: ChatRequest, svc: Services, userElapsed: nat, assistantElapsed: nat)
    returns (s': Store, r: Result<ChatResponse, ChatError>)
    requires Valid(s)
    ensures svc.embed(request.message).None? ==> r.Failure? && r.error.EmbeddingFailed?
    ensures Valid(s')
    ensures var (s1, cid) := OpenTurn(s, request.conversationId, request.message, userElapsed);
            var t := TurnAnswer(s1, cid, request.message, svc);
            && (r.Success? <==> t.Success?)
            && (r.Success? ==> r.value == ChatResponse(cid, t.value))
            && (r.Failure? ==> r.error == t.error)
    ensures var (s1, cid) := OpenTurn(s, request.conversationId, request.message, userElapsed);
            && s'.titles == s1.titles && s'.chunks == s.chunks
            && |s'.messages| == |s.messages| + (if r.Success? then 2 else 1)
            && s'.messages[..|s1.messages|] == s1.messages
            && (forall d :: d != cid ==> MessagesOf(s'.messages, d) == MessagesOf(s.messages, d))
            && (r.Success? ==>
                  && s'.messages[|s1.messages|].role == "assistant"
                  && s'.messages[|s1.messages|].content == r.value.answer)
  {
    var reply;
    s', reply := ChatWithRag(s, request.conversationId, request.message, svc, userElapsed, assistantElapsed);
    match reply
    case Success(turn) =>
      r := Success(ChatResponse(turn.conversationId, turn.answer));
    case Failure(e) =>
      r := Failure(e);
  }

  /** `GET /chat/conversations`: one `(id, title)` entry per stored
      conversation, in no particular order (the query has no `ORDER BY`). */
  method ListConversations(s: Store) returns (r: seq<Conversation>)
    ensures |r| == |s.titles|
    ensures forall i :: 0 <= i < |r| ==> r[i].id in s.titles && r[i].title == s.titles[r[i].id]
    ensures forall id :: id in s.titles ==> exists i :: 0 <= i < |r| && r[i].id == id
    ensures forall i, j :: 0 <= i < j < |r| ==> r[i].id != r[j].id
  {
    var remaining := s.titles.Keys;
    r := [];
    while remaining != {}
      invariant remaining <= s.titles.Keys
      invariant forall i :: 0 <= i < |r| ==>
                  r[i].id in s.titles && r[i].id !in remaining && r[i].title == s.titles[r[i].id]
      invariant forall id :: id in s.titles && id !in remaining ==> exists i :: 0 <= i < |r| && r[i].id == id
      invariant forall i, j :: 0 <= i < j < |r| ==> r[i].id != r[j].id
      invariant |r| + |remaining| == |s.titles|
      decreases remaining
    {
      var id := PickKey(remaining);
      ghost var before := r;
      r := r + [Conversation(id, s.titles[id])];
      remaining := remaining - {id};
      forall d | d in s.titles && d !in remaining
        ensures exists i :: 0 <= i < |r| && r[i].id == d
      {
        if d == id {
          assert r[|r| - 1].id == d;
        } else {
          var i :| 0 <= i < |before| && before[i].id == d;
          assert r[i].id == d;
        }
      }
    }
  }

  /** Some element of a non-empty set of ids; which one is left open. */
  method PickKey(ks: set<int>) returns (k: int)
    requires ks != {}
    ensures k in ks
  {
    if forall k :: k !in ks {
      assert false;
    }
    k :| k in ks;
  }

  /** The fields of a message row the list endpoint returns. */
  function View(m: Message): MessageView {
    MessageView(m.id, m.role, m.content, m.createdAt)
  }

  function Views(ms: seq<Message>): (vs: seq<MessageView>)
    ensures |vs| == |ms|
    ensures forall i :: 0 <= i < |ms| ==> vs[i] == View(ms[i])
    decreases |ms|
  {
    if |ms| == 0 then [] else [View(ms[0])] + Views(ms[1..])
  }

  /** `GET /chat/conversations/{id}/messages`: 404 for an unknown id;
      otherwise every message of that conversation and no other, each with
      its stored fields, ascending by `(created_at, id)`. Nothing is
      written. */
  function ListMessages(s: Store, cid: int): (r: Result<seq<MessageView>, HttpError>)
    ensures r.Failure? <==> cid !in s.titles
    ensures r.Failure? ==> r.error == ConversationNotFound
    ensures r.Success? ==> |r.value| == |MessagesOf(s.messages, cid)|
    ensures r.Success? ==> forall i :: 0 <= i < |r.value| ==>
              exists m :: m in s.messages && m.conversationId == cid && r.value[i] == View(m)
    ensures r.Success? ==> forall m :: m in s.messages && m.conversationId == cid ==> View(m) in r.value
    ensures r.Success? ==> forall i, j :: 0 <= i < j < |r.value| ==>
              KeyLe(Key(r.value[i].createdAt, r.value[i].id), Key(r.value[j].createdAt, r.value[j].id))
  {
    if cid !in s.titles then Failure(ConversationNotFound)
    else
      var h := History(s, cid);
      HistorySize(s, cid);
      ViewsOnly(h);
      ViewsAll(h);
      ViewsSorted(h);
      Success(Views(h))
  }

  lemma HistorySize(s: Store, cid: int)
    ensures |History(s, cid)| == |MessagesOf(s.messages, cid)|
  {
    var h := History(s, cid);
    assert |multiset(h)| == |multiset(MessagesOf(s.messages, cid))|;
  }

  lemma ViewsOnly(ms: seq<Message>)
    ensures forall i :: 0 <= i < |ms| ==> ms[i] in ms && Views(ms)[i] == View(ms[i])
  {
  }

  lemma ViewsAll(ms: seq<Message>)
    ensures forall m :: m in ms ==> View(m) in Views(ms)
  {
    forall m | m in ms ensures View(m) in Views(ms) {
      var k :| 0 <= k < |ms| && ms[k] == m;
      assert Views(ms)[k] == View(m);
    }
  }

  lemma ViewsSorted(ms: seq<Message>)
    requires SortedBy(ms, MessageKey)
    ensures var vs := Views(ms);
            forall i, j :: 0 <= i < j < |vs| ==>
              KeyLe(Key(vs[i].createdAt, vs[i].id), Key(vs[j].createdAt, vs[j].id))
  {
    var vs := Views(ms);
    forall i, j | 0 <= i < j < |vs|
      ensures KeyLe(Key(vs[i].createdAt, vs[i].id), Key(vs[j].createdAt, vs[j].id))
    {
      assert KeyLe(MessageKey(ms[i]), MessageKey(ms[j]));
    }
  }
}

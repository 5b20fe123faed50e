/** Retrieval and the chat turn of backend/app/services/rag_chat.py. The
    embedding provider, the completion provider and pgvector's distance are
    uninterpreted functions supplied by the caller; the database is the
    abstract Store. */
module RagChat {
  import opened Results
  import opened Text
  import opened Ordering
  import opened Models
  import opened Prompt

  /** `top_k` of `search_relevant_chunks`. */
  const DefaultTopK: nat := 5

  /** Title of a conversation that a chat turn creates. */
  const NewConversationTitle: string := "New Conversation"

  /** What a completion request yields: a provider failure, or the first
      choice, whose content may be null. */
  datatype Completion = CallFailed | Answered(content: Option<string>)

  /** The remote collaborators and the vector distance. `embed` answers
      `None` when the embedding provider fails. */
  datatype Services = Services(
    embed: string -> Option<Vector>,
    complete: string -> Completion,
    distance: (Vector, Vector) -> int)

  /** The exceptions a chat turn can raise after it has started writing. */
  datatype ChatError = EmbeddingFailed | CompletionFailed

  /** `(answer, convo.id)`. */
  datatype ChatReply = ChatReply(answer: string, conversationId: int)

  /** `ORDER BY embedding <-> query`, ties broken by row id. */
  function DistanceKey(distance: (Vector, Vector) -> int, query: Vector): DocumentChunk -> Key {
    (c: DocumentChunk) => Key(distance(query, c.embedding), c.id)
  }

  /** The conversation's chunks, nearest to `query` first: exactly those
      chunks, each as often as stored, in ascending distance order. */
  function Ranked(s: Store, cid: int, distance: (Vector, Vector) -> int, query: Vector)
    : (r: seq<DocumentChunk>)
    ensures forall c :: c in r <==> c in s.chunks && c.conversationId == cid
    ensures multiset(r) == multiset(ChunksOf(s.chunks, cid))
    ensures forall i, j :: 0 <= i < j < |r| ==>
              distance(query, r[i].embedding) <= distance(query, r[j].embedding)
  {
    var own := ChunksOf(s.chunks, cid);
    var r := SortBy(own, DistanceKey(distance, query));
    assert forall c :: c in r <==> c in own by {
      forall c ensures c in r <==> c in own {
        assert c in r <==> c in multiset(r);
        assert c in own <==> c in multiset(own);
      }
    }
    forall i, j | 0 <= i < j < |r|
      ensures distance(query, r[i].embedding) <= distance(query, r[j].embedding)
    {
      assert KeyLe(DistanceKey(distance, query)(r[i]), DistanceKey(distance, query)(r[j]));
    }
    r
  }

  /** `search_relevant_chunks`: embeds the query (failing when the provider
      fails) and returns the texts of the conversation's `top_k` nearest
      chunks, nearest first; all of them when there are fewer. */
  function SearchRelevantChunks(s: Store, cid: int, query: string, svc: Services, topK: nat)
    : (r: Result<seq<string>, ChatError>)
    ensures r.Failure? <==> svc.embed(query).None?
    ensures r.Failure? ==> r.error == EmbeddingFailed
    ensures r.Success? ==>
              var ranked := Ranked(s, cid, svc.distance, svc.embed(query).value);
              && |r.value| == (if topK < |ranked| then topK else |ranked|)
              && forall i :: 0 <= i < |r.value| ==> r.value[i] == ranked[i].chunk
  {
    match svc.embed(query)
    case None => Failure(EmbeddingFailed)
    case Some(q) =>
      var top := Take(Ranked(s, cid, svc.distance, q), topK);
      Success(ChunkTexts(top))
  }

  function ChunkTexts(cs: seq<DocumentChunk>): (texts: seq<string>)
    ensures |texts| == |cs|
    ensures forall i :: 0 <= i < |cs| ==> texts[i] == cs[i].chunk
    decreases |cs|
  {
    if |cs| == 0 then [] else [cs[0].chunk] + ChunkTexts(cs[1..])
  }

  /** Retrieval never leaks and never passes over a nearer chunk: every
      returned text is that of a chunk of the conversation, and any chunk of
      the conversation left out is at least as far from the query as every
      chunk returned. */
  lemma SearchIsScopedAndNearest(s: Store, cid: int, query: string, svc: Services, topK: nat)
    requires svc.embed(query).Some?
    ensures var q := svc.embed(query).value;
            var ranked := Ranked(s, cid, svc.distance, q);
            var texts := SearchRelevantChunks(s, cid, query, svc, topK).value;
            && (forall i :: 0 <= i < |texts| ==>
                  ranked[i] in s.chunks && ranked[i].conversationId == cid && texts[i] == ranked[i].chunk)
            && (forall c :: c in s.chunks && c.conversationId == cid && c !in ranked[..|texts|] ==>
                  forall i :: 0 <= i < |texts| ==>
                    svc.distance(q, ranked[i].embedding) <= svc.distance(q, c.embedding))
  {
    var q := svc.embed(query).value;
    var ranked := Ranked(s, cid, svc.distance, q);
    var texts := SearchRelevantChunks(s, cid, query, svc, topK).value;
    var k := |texts|;
    forall c | c in s.chunks && c.conversationId == cid && c !in ranked[..k]
      ensures forall i :: 0 <= i < k ==> svc.distance(q, ranked[i].embedding) <= svc.distance(q, c.embedding)
    {
      assert c in ranked;
      var j :| 0 <= j < |ranked| && ranked[j] == c;
    }
  }

  /** The first two states of a turn, ResolveConversation and
      PersistUserMessage: find or create the conversation (titled
      "New Conversation" when created), then append the user's message. */
  function OpenTurn(s: Store, conversationId: Option<int>, userMessage: string, elapsed: nat)
    : (r: (Store, int))
    requires Valid(s)
    ensures Valid(r.0) && r.1 in r.0.titles
    ensures conversationId.Some? && conversationId.value in s.titles ==>
              r.1 == conversationId.value && r.0.titles == s.titles
    ensures !(conversationId.Some? && conversationId.value in s.titles) ==>
              r.1 !in s.titles && r.0.titles == s.titles[r.1 := Some(NewConversationTitle)]
    ensures |r.0.messages| == |s.messages| + 1 && r.0.messages[..|s.messages|] == s.messages
    ensures var m := r.0.messages[|s.messages|];
              m.conversationId == r.1 && m.role == "user" && m.content == userMessage
    ensures forall d :: d != r.1 ==> MessagesOf(r.0.messages, d) == MessagesOf(s.messages, d)
    ensures r.0.chunks == s.chunks
  {
    var (s0, cid) := ResolveConversation(s, conversationId, Some(NewConversationTitle));
    (AppendMessage(s0, cid, "user", userMessage, elapsed), cid)
  }

  /** The history a turn hands to the prompt builder is loaded after the
      user's message is stored: it ends with that message, so the recency
      window always shows the question as its last line. */
  lemma TurnHistoryEndsWithQuestion(s: Store, conversationId: Option<int>, userMessage: string, elapsed: nat)
    requires Valid(s)
    ensures var (s1, cid) := OpenTurn(s, conversationId, userMessage, elapsed);
            var h := History(s1, cid);
            var lines := HistoryLines(h);
            && |h| > 0 && h[|h| - 1] == s1.messages[|s.messages|]
            && |lines| > 0 && lines[|lines| - 1] == "User: " + userMessage
  {
    var (s0, cid) := ResolveConversation(s, conversationId, Some(NewConversationTitle));
    NewMessageClosesHistory(s0, cid, "user", userMessage, elapsed);
    var s1 := AppendMessage(s0, cid, "user", userMessage, elapsed);
    assert OpenTurn(s, conversationId, userMessage, elapsed) == (s1, cid);
    var h := History(s1, cid);
    LastHistoryLine(h);
  }

  /** The answer a turn produces once the user's message is stored: the
      history is loaded, the chunks retrieved and the prompt built from both;
      a failed retrieval or a failed completion call is an error, and a
      completion's content is the answer, "" when it is null. This is the
      reference `ChatWithRag` is stated against; `TurnPrompt` describes the
      prompt it sends. */
  function TurnAnswer(s: Store, cid: int, userMessage: string, svc: Services): Result<string, ChatError> {
    var search := SearchRelevantChunks(s, cid, userMessage, svc, DefaultTopK);
    if search.Failure? then Failure(EmbeddingFailed)
    else
      match svc.complete(BuildPrompt(History(s, cid), search.value, userMessage))
      case CallFailed => Failure(CompletionFailed)
      case Answered(content) => Success(content.OrElse(""))
  }

  /** The prompt of a turn whose retrieval succeeds, and so reaches the
      completion provider: the template through `USER: ` followed by the
      question without trailing whitespace (a blank question also drops the
      space after `USER:`); its history section ends with the question as
      `User: ` plus the message; its context holds at most five texts, each
      of a chunk of this conversation. */
  lemma TurnPrompt(s: Store, conversationId: Option<int>, userMessage: string, svc: Services, elapsed: nat,
                    s1: Store, cid: int)
    requires Valid(s) && svc.embed(userMessage).Some?
    requires (s1, cid) == OpenTurn(s, conversationId, userMessage, elapsed)
    ensures var h := History(s1, cid);
            var ctx := SearchRelevantChunks(s1, cid, userMessage, svc, DefaultTopK).value;
            var head := Head(h, ctx, userMessage);
            var prompt := BuildPrompt(h, ctx, userMessage);
            && (HasNonSpace(userMessage) ==> prompt == head + TrimRight(userMessage))
            && (!HasNonSpace(userMessage) ==> |head| >= 1 && prompt == head[..|head| - 1])
    ensures var lines := HistoryLines(History(s1, cid));
            |lines| > 0 && lines[|lines| - 1] == "User: " + userMessage
    ensures var ctx := SearchRelevantChunks(s1, cid, userMessage, svc, DefaultTopK).value;
            && |ctx| <= DefaultTopK
            && forall i :: 0 <= i < |ctx| ==>
                 exists c :: c in s.chunks && c.conversationId == cid && ctx[i] == c.chunk
    ensures var ctx := SearchRelevantChunks(s1, cid, userMessage, svc, DefaultTopK).value;
            var c := svc.complete(BuildPrompt(History(s1, cid), ctx, userMessage));
            && (c.CallFailed? ==> TurnAnswer(s1, cid, userMessage, svc) == Failure(CompletionFailed))
            && (c.Answered? ==> TurnAnswer(s1, cid, userMessage, svc) == Success(c.content.OrElse("")))
  {
    assert s1.chunks == s.chunks;
    TurnHistoryEndsWithQuestion(s, conversationId, userMessage, elapsed);
    ContextIsOwnChunks(s1, cid, userMessage, svc);
  }

  /** Every retrieved text is that of one of the conversation's chunks, and
      there are at most `top_k` of them. */
  lemma ContextIsOwnChunks(s: Store, cid: int, userMessage: string, svc: Services)
    requires svc.embed(userMessage).Some?
    ensures var ctx := SearchRelevantChunks(s, cid, userMessage, svc, DefaultTopK).value;
            && |ctx| <= DefaultTopK
            && forall i :: 0 <= i < |ctx| ==>
                 exists c :: c in s.chunks && c.conversationId == cid && ctx[i] == c.chunk
  {
    SearchIsScopedAndNearest(s, cid, userMessage, svc, DefaultTopK);
    var ranked := Ranked(s, cid, svc.distance, svc.embed(userMessage).value);
    var ctx := SearchRelevantChunks(s, cid, userMessage, svc, DefaultTopK).value;
    forall i | 0 <= i < |ctx|
      ensures exists c :: c in s.chunks && c.conversationId == cid && ctx[i] == c.chunk
    {
      assert ranked[i] in s.chunks && ranked[i].conversationId == cid && ctx[i] == ranked[i].chunk;
    }
  }

  /** `chat_with_rag`: one sequential turn. The user's message is stored
      before retrieval and stays stored when the embedding or the completion
      provider fails; a failed query embedding fails the turn before any
      completion call; only a completed call appends the assistant's message,
      whose text is the turn's answer. */
  method ChatWithRag(s: Store, conversationId: Option<int>, userMessage: string, svc: Services,
                     userElapsed: nat, assistantElapsed: nat)
    returns (s': Store, r: Result<ChatReply, ChatError>)
    requires Valid(s)
    ensures svc.embed(userMessage).None? ==> r.Failure? && r.error.EmbeddingFailed?
    ensures Valid(s')
    ensures var (s1, cid) := OpenTurn(s, conversationId, userMessage, userElapsed);
            && s'.titles == s1.titles && s'.chunks == s.chunks
            && |s'.messages| == |s1.messages| + (if r.Success? then 1 else 0)
            && s'.messages[..|s1.messages|] == s1.messages
            && (forall d :: d != cid ==> MessagesOf(s'.messages, d) == MessagesOf(s.messages, d))
            && (r.Success? ==>
                  && r.value.conversationId == cid
                  && var a := s'.messages[|s1.messages|];
                     a.conversationId == cid && a.role == "assistant" && a.content == r.value.answer)
    ensures var (s1, cid) := OpenTurn(s, conversationId, userMessage, userElapsed);
            var t := TurnAnswer(s1, cid, userMessage, svc);
            && (t.Failure? ==> r == Failure(t.error))
            && (t.Success? ==> r == Success(ChatReply(t.value, cid)))
  {
    var (s1, cid) := OpenTurn(s, conversationId, userMessage, userElapsed);
    var t := TurnAnswer(s1, cid, userMessage, svc);
    s', r := StoreAnswer(s1, cid, t, assistantElapsed);
  }

  /** The last write of a turn: an answer is stored as the assistant's
      message of conversation `cid`; an error stores nothing. */
  method StoreAnswer(s: Store, cid: int, t: Result<string, ChatError>, elapsed: nat)
    returns (s': Store, r: Result<ChatReply, ChatError>)
    requires Valid(s) && cid in s.titles
    ensures Valid(s')
    ensures && s'.titles == s.titles && s'.chunks == s.chunks
            && |s'.messages| == |s.messages| + (if r.Success? then 1 else 0)
            && s'.messages[..|s.messages|] == s.messages
            && (forall d :: d != cid ==> MessagesOf(s'.messages, d) == MessagesOf(s.messages, d))
    ensures t.Failure? ==> r == Failure(t.error)
    ensures t.Success? ==> r == Success(ChatReply(t.value, cid))
    ensures r.Success? ==>
              var a := s'.messages[|s.messages|];
              a.conversationId == cid && a.role == "assistant" && a.content == r.value.answer
  {
    if t.Failure? {
      return s, Failure(t.error);
    }
    s' := AppendMessage(s, cid, "assistant", t.value, elapsed);
    r := Success(ChatReply(t.value, cid));
  }
}

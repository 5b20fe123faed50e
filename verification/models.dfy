/** The persisted entities of backend/app/models/models.py and the store that
    holds them: conversations own an ordered history of messages and a bag of
    embedded document chunks. Row ids are assigned by autoincrement and a
    message's `created_at` by the store at insert time. */
module Models {
  import opened Results
  import opened Ordering

  /** Dimension of the `embedding` column (`Vector(1024)`). */
  const EmbeddingDim: nat := 1024

  /** An embedding as returned by the provider; its numeric contents are
      never inspected by the model, only its length and a distance. */
  type Vector = seq<real>

  /** One row of `conversations`; the title is nullable. */
  datatype Conversation = Conversation(id: int, title: Option<string>)

  /** One row of `messages`: every column but the key is non-nullable. */
  datatype Message = Message(id: int, conversationId: int, role: string, content: string, createdAt: int)

  /** One row of `document_chunks`. */
  datatype DocumentChunk = DocumentChunk(id: int, conversationId: int, chunk: string, embedding: Vector)

  /** The three tables, the next autoincrement value of each key, and the
      store clock that stamps `created_at`. */
  datatype Store = Store(
    titles: map<int, Option<string>>,
    messages: seq<Message>,
    chunks: seq<DocumentChunk>,
    nextConversationId: int,
    nextMessageId: int,
    nextChunkId: int,
    clock: int)

  /** A message row that the schema accepts: its foreign key resolves, its
      id was handed out already, its timestamp is not in the future. */
  predicate MessageOk(s: Store, m: Message) {
    m.conversationId in s.titles && m.id < s.nextMessageId && m.createdAt <= s.clock
  }

  /** A chunk row that the schema accepts: its foreign key resolves, its id
      was handed out already, its vector has the column's dimension. */
  predicate ChunkOk(s: Store, c: DocumentChunk) {
    c.conversationId in s.titles && c.id < s.nextChunkId && |c.embedding| == EmbeddingDim
  }

  function MessageId(m: Message): int { m.id }

  function ChunkId(c: DocumentChunk): int { c.id }

  /** The store invariant: every row satisfies the schema, and primary keys
      are unique (increasing in insertion order, as autoincrement gives). */
  predicate Valid(s: Store) {
    && (forall id :: id in s.titles ==> id < s.nextConversationId)
    && (forall i :: 0 <= i < |s.messages| ==> MessageOk(s, s.messages[i]))
    && IncreasingBy(s.messages, MessageId)
    && (forall i :: 0 <= i < |s.chunks| ==> ChunkOk(s, s.chunks[i]))
    && IncreasingBy(s.chunks, ChunkId)
  }

  /** The store right after `init_db`: three empty tables. */
  function EmptyStore(): (s: Store)
    ensures Valid(s)
    ensures s.titles == map[] && s.messages == [] && s.chunks == []
  {
    Store(map[], [], [], 1, 1, 1, 0)
  }

  // ---------------------------------------------------------------------
  // Queries

  function InConversation(cid: int): Message -> bool {
    (m: Message) => m.conversationId == cid
  }

  function OutsideConversation(cid: int): Message -> bool {
    (m: Message) => m.conversationId != cid
  }

  function ChunkInConversation(cid: int): DocumentChunk -> bool {
    (c: DocumentChunk) => c.conversationId == cid
  }

  function ChunkOutsideConversation(cid: int): DocumentChunk -> bool {
    (c: DocumentChunk) => c.conversationId != cid
  }

  /** `query(Message).filter(Message.conversation_id == cid)`. */
  function MessagesOf(ms: seq<Message>, cid: int): (r: seq<Message>)
    ensures forall m :: m in r <==> m in ms && m.conversationId == cid
  {
    Filter(ms, InConversation(cid))
  }

  /** `query(DocumentChunk).filter(DocumentChunk.conversation_id == cid)`. */
  function ChunksOf(cs: seq<DocumentChunk>, cid: int): (r: seq<DocumentChunk>)
    ensures forall c :: c in r <==> c in cs && c.conversationId == cid
  {
    Filter(cs, ChunkInConversation(cid))
  }

  /** The history sort key `(created_at, id)`. */
  function MessageKey(m: Message): Key {
    Key(m.createdAt, m.id)
  }

  /** `... .order_by(Message.created_at.asc(), Message.id.asc()).all()`:
      exactly the messages of the conversation, ascending by timestamp with
      the id breaking ties. */
  function History(s: Store, cid: int): (h: seq<Message>)
    ensures forall m :: m in h <==> m in s.messages && m.conversationId == cid
    ensures multiset(h) == multiset(MessagesOf(s.messages, cid))
    ensures SortedBy(h, MessageKey)
  {
    var own := MessagesOf(s.messages, cid);
    var h := SortBy(own, MessageKey);
    assert forall m :: m in h <==> m in own by {
      forall m ensures m in h <==> m in own {
        assert m in h <==> m in multiset(h);
        assert m in own <==> m in multiset(own);
      }
    }
    h
  }

  // ---------------------------------------------------------------------
  // Writes

  /** `INSERT INTO conversations (title)`: a new conversation with a fresh id
      and no messages or chunks yet. */
  function CreateConversation(s: Store, title: Option<string>): (r: (Store, int))
    requires Valid(s)
    ensures Valid(r.0)
    ensures r.1 !in s.titles && r.0.titles == s.titles[r.1 := title]
    ensures r.0.messages == s.messages && r.0.chunks == s.chunks
  {
    var id := s.nextConversationId;
    (s.(titles := s.titles[id := title], nextConversationId := id + 1), id)
  }

  /** The lookup-or-create step shared by the chat turn and the upload: an
      id that is supplied and names a stored conversation is used as is;
      otherwise (no id, or an unknown one) a new conversation is created with
      the caller's default title. */
  function ResolveConversation(s: Store, requested: Option<int>, defaultTitle: Option<string>)
    : (r: (Store, int))
    requires Valid(s)
    ensures Valid(r.0) && r.1 in r.0.titles
    ensures requested.Some? && requested.value in s.titles ==> r == (s, requested.value)
    ensures !(requested.Some? && requested.value in s.titles) ==>
              r.1 !in s.titles && r.0.titles == s.titles[r.1 := defaultTitle]
    ensures r.0.messages == s.messages && r.0.chunks == s.chunks
  {
    if requested.Some? && requested.value in s.titles then (s, requested.value)
    else CreateConversation(s, defaultTitle)
  }

  /** `INSERT INTO messages`: the row gets the next id and a `created_at`
      from the store clock, which first advances by `elapsed`. The new
      message sorts after every stored one, and no other conversation's
      messages change. */
  function AppendMessage(s: Store, cid: int, role: string, content: string, elapsed: nat): (s': Store)
    requires Valid(s) && cid in s.titles
    ensures Valid(s')
    ensures |s'.messages| == |s.messages| + 1 && s'.messages[..|s.messages|] == s.messages
    ensures var m := s'.messages[|s.messages|];
              m.conversationId == cid && m.role == role && m.content == content
    ensures forall x :: x in s.messages ==> KeyLt(MessageKey(x), MessageKey(s'.messages[|s.messages|]))
    ensures forall d :: d != cid ==> MessagesOf(s'.messages, d) == MessagesOf(s.messages, d)
    ensures s'.titles == s.titles && s'.chunks == s.chunks
  {
    var now := s.clock + elapsed;
    var m := Message(s.nextMessageId, cid, role, content, now);
    var s' := s.(messages := s.messages + [m], nextMessageId := s.nextMessageId + 1, clock := now);
    assert forall i :: 0 <= i < |s.messages| ==> s'.messages[i] == s.messages[i];
    forall d | d != cid ensures MessagesOf(s'.messages, d) == MessagesOf(s.messages, d) {
      FilterAppend(s.messages, [m], InConversation(d));
      assert Filter([m], InConversation(d)) == [];
    }
    s'
  }

  /** `INSERT INTO document_chunks`: the row gets the next id; the column
      accepts only vectors of the fixed dimension. No other conversation's
      chunks change. */
  function AppendChunk(s: Store, cid: int, text: string, embedding: Vector): (s': Store)
    requires Valid(s) && cid in s.titles && |embedding| == EmbeddingDim
    ensures Valid(s')
    ensures s'.chunks == s.chunks + [DocumentChunk(s.nextChunkId, cid, text, embedding)]
    ensures s'.nextChunkId == s.nextChunkId + 1
    ensures s'.titles == s.titles && s'.messages == s.messages
    ensures forall d :: d != cid ==> ChunksOf(s'.chunks, d) == ChunksOf(s.chunks, d)
  {
    var c := DocumentChunk(s.nextChunkId, cid, text, embedding);
    var s' := s.(chunks := s.chunks + [c], nextChunkId := s.nextChunkId + 1);
    assert forall i :: 0 <= i < |s.chunks| ==> s'.chunks[i] == s.chunks[i];
    forall d | d != cid ensures ChunksOf(s'.chunks, d) == ChunksOf(s.chunks, d) {
      FilterAppend(s.chunks, [c], ChunkInConversation(d));
      assert Filter([c], ChunkInConversation(d)) == [];
    }
    s'
  }

  /** Deleting a conversation cascades (`cascade="all, delete-orphan"`,
      `ondelete="CASCADE"`): its messages and chunks go with it, and every
      other conversation keeps exactly its own. */
  function DeleteConversation(s: Store, cid: int): (s': Store)
    requires Valid(s) && cid in s.titles
    ensures Valid(s')
    ensures s'.titles == s.titles - {cid}
    ensures MessagesOf(s'.messages, cid) == [] && ChunksOf(s'.chunks, cid) == []
    ensures forall d :: d != cid ==> MessagesOf(s'.messages, d) == MessagesOf(s.messages, d)
    ensures forall d :: d != cid ==> ChunksOf(s'.chunks, d) == ChunksOf(s.chunks, d)
  {
    var s' := s.(titles := s.titles - {cid},
                 messages := Filter(s.messages, OutsideConversation(cid)),
                 chunks := Filter(s.chunks, ChunkOutsideConversation(cid)));
    FilterKeepsIncreasing(s.messages, OutsideConversation(cid), MessageId);
    FilterKeepsIncreasing(s.chunks, ChunkOutsideConversation(cid), ChunkId);
    forall i | 0 <= i < |s'.messages| ensures MessageOk(s', s'.messages[i]) {
      assert s'.messages[i] in s.messages;
    }
    forall i | 0 <= i < |s'.chunks| ensures ChunkOk(s', s'.chunks[i]) {
      assert s'.chunks[i] in s.chunks;
    }
    FilterExcluded(s.messages, OutsideConversation(cid), InConversation(cid));
    FilterExcluded(s.chunks, ChunkOutsideConversation(cid), ChunkInConversation(cid));
    forall d | d != cid
      ensures MessagesOf(s'.messages, d) == MessagesOf(s.messages, d)
      ensures ChunksOf(s'.chunks, d) == ChunksOf(s.chunks, d)
    {
      FilterFilter(s.messages, OutsideConversation(cid), InConversation(d));
      FilterFilter(s.chunks, ChunkOutsideConversation(cid), ChunkInConversation(d));
    }
    s'
  }

  /** A message just appended is the last entry of its conversation's
      history: it sorts after everything stored before it. */
  lemma NewMessageClosesHistory(s: Store, cid: int, role: string, content: string, elapsed: nat)
    requires Valid(s) && cid in s.titles
    ensures var s' := AppendMessage(s, cid, role, content, elapsed);
            var h := History(s', cid);
            |h| > 0 && h[|h| - 1] == s'.messages[|s.messages|]
  {
    var s' := AppendMessage(s, cid, role, content, elapsed);
    var m := s'.messages[|s.messages|];
    assert s'.messages == s.messages + [m];
    var h := History(s', cid);
    assert m in h;
    forall y | y in h && y != m ensures KeyLt(MessageKey(y), MessageKey(m)) {
      assert y in s.messages;
    }
    LastOfSortedIsMax(h, MessageKey, m);
  }
}

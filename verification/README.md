# Retrieval-augmented chat backend, in Dafny

A model of the backend of a document-grounded chat service. A user uploads a
PDF into a conversation. Its text is cut into paragraph chunks and each chunk
is stored with an embedding vector. A chat turn then:

- stores the user's message;
- retrieves the conversation's nearest chunks;
- assembles a prompt from an instruction (with a language directive), the
  chunks, the recent history and the question;
- stores the completion provider's answer.

The model has these modules:

- `Text`: the Python `str` operations the code relies on (`isspace`,
  `strip`, `split` on one character, `join`), over code points.
- `Ordering`: keys ordered lexicographically, a sort and `Filter`/`Take`.
  These play the roles of `ORDER BY`, `WHERE` and `LIMIT`.
- `Chunking`: `chunk_text`, with a reference definition of greedy
  packing, `IsGreedyPacking`. The chunker is proved to compute the unique
  packing that meets it.
- `Models`: the three tables as one immutable `Store` value. It has
  conversation titles keyed by id, message rows, chunk rows, id counters
  and a clock. The `Valid` invariant covers foreign keys, unique
  increasing ids, timestamps from the clock and the vector dimension 1024.
  There are also the inserts and the cascading delete.
- `Prompt`: `is_amharic`, the ten-message recency window, the role labels
  and the stripped prompt template.
- `RagChat`: `search_relevant_chunks` and `chat_with_rag`. The embedding
  provider, the completion provider and the vector distance are functions
  the caller supplies.
- `ChatRoutes` and `DocumentRoutes`: the HTTP handlers as transitions of
  the store.

Facts about the code that the model keeps:

- The upload reply has only `conversation_id` and `num_chunks`.
- Page text comes only from `extract_text()`; there is no OCR step.
- Each chunk is embedded by its own `get_embedding` call.
- A PDF without extractable text is accepted and stores zero chunks.
- A message role is any string. Every role other than `"user"` is labelled
  `Assistant`.

One behaviour the model makes explicit: the history a turn loads already ends
with the user's new message. So the question appears twice in the prompt, as
the last history line and after `USER:` (`RagChat.TurnHistoryEndsWithQuestion`).

## Model

| member | source | states |
|---|---|---|
| Text.Strip | backend/app/services/chunking.py:3 | `strip()` removes exactly a leading and a trailing whitespace run, using Python's `isspace` set. The result is empty iff the input has no non-space character, and an already stripped string is unchanged |
| Text.Split | backend/app/services/chunking.py:3 | `split("\n")` gives at least one piece. No piece contains the separator, and joining the pieces with it restores the input |
| Text.SplitJoin | backend/app/services/chunking.py:3 | splitting a newline-join of separator-free lines gives back exactly those lines |
| Text.SplitAppend | backend/app/services/chunking.py:3 | splitting two strings joined by the separator gives the pieces of the first followed by those of the second |
| Text.JoinShape | backend/app/services/chunking.py:10 | `sep.join(parts)` is empty for no parts; otherwise it starts with the first part and is one separator shorter than the parts' lengths plus one separator each. The same `join` is used at chunking.py:18, rag_chat.py:34 and 51, and routes_documents.py:23 |
| Text.JoinAppend | backend/app/services/chunking.py:10 | joining two non-empty lists puts exactly one separator between the join of the first and the join of the second |
| Chunking.StripNonBlank | backend/app/services/chunking.py:3 | every kept line is a stripped, non-empty paragraph. There are no more of them than input lines, and none at all iff every line is blank |
| Chunking.StripNonBlankAppend | backend/app/services/chunking.py:3 | the comprehension works line by line: the result for two runs of lines is the result for the first followed by the result for the second |
| Chunking.StripNonBlankLine | backend/app/services/chunking.py:3 | one line gives `[line.strip()]` when it has a non-space character and nothing when it is blank. With `StripNonBlankAppend` this fixes the result: the stripped non-blank lines, in order |
| Chunking.Paragraphs | backend/app/services/chunking.py:3 | every paragraph is non-empty, stripped and free of newlines |
| Chunking.ParagraphsAppend | backend/app/services/chunking.py:3 | the paragraphs of `a + "\n" + b` are those of `a` followed by those of `b` |
| Chunking.ParagraphsOfLine | backend/app/services/chunking.py:3 | a single line is one paragraph, its stripped text, or none when it is blank |
| Chunking.PackFrom | backend/app/services/chunking.py:8-18 | the loop, continued from any buffer that respects the budget, yields a greedy packing of the buffer followed by the remaining paragraphs: in order, nothing lost, no empty group, multi-paragraph groups within `max_chars`, each next group's first paragraph overflowing its predecessor |
| Chunking.Pack | backend/app/services/chunking.py:4-18 | packing from an empty buffer meets the reference definition of a greedy packing |
| Chunking.ChunkText | backend/app/services/chunking.py:1-20 | the chunks are non-empty. Split back into lines, they give exactly the paragraphs in order. A chunk with several paragraphs is shorter than `max_chars`. The next chunk's first line would have overflowed the previous chunk. There are no more chunks than paragraphs, and none iff the text is blank |
| Chunking.ChunkTextUnique | backend/app/services/chunking.py:8-18 | any grouping that meets the greedy-packing definition joins to exactly the chunks `chunk_text` returns |
| Chunking.ChunkTextIsGreedy | backend/app/services/chunking.py:9-18 | the line groups of the returned chunks form a greedy packing of the paragraphs |
| Chunking.OversizedParagraphStandsAlone | backend/app/services/chunking.py:9-15 | a paragraph with `len + 1 > max_chars` is never split and is returned as a chunk of its own |
| Chunking.ChunkTextIdempotent | backend/app/services/chunking.py:3-18 | re-chunking the newline-join of the chunks gives the same chunks |
| Ordering.SortBy | backend/app/api/routes_chat.py:45-46 | `order_by` on a key gives an ascending permutation of its input |
| Ordering.Filter | backend/app/api/routes_chat.py:44 | `filter` keeps exactly the elements satisfying the predicate and never more than the input. A single row is kept iff it satisfies the predicate |
| Ordering.FilterAppend | backend/app/api/routes_chat.py:44 | filtering distributes over concatenation. With the single-row case of `Filter` this fixes the result: the satisfying rows in their original order, each as often as it occurs |
| Ordering.Take | backend/app/services/rag_chat.py:21 | `LIMIT k` gives the first `min(k, n)` rows |
| Models.EmptyStore | backend/app/models/models.py:8-41 | the empty database meets the schema invariant |
| Models.History | backend/app/services/rag_chat.py:73-78 | a conversation's history holds exactly its messages, each as often as stored, ascending by `(created_at, id)` |
| Models.CreateConversation | backend/app/services/rag_chat.py:63-67 | inserting a conversation adds one fresh id with the given title and keeps all rows and the invariant |
| Models.ResolveConversation | backend/app/services/rag_chat.py:59-67 | an existing requested id is reused with nothing written. Otherwise a fresh conversation with the default title is created |
| Models.AppendMessage | backend/app/services/rag_chat.py:69-71 | the new message is appended with its conversation, role and content. It sorts after every stored message, and no other conversation's messages change |
| Models.AppendChunk | backend/app/models/models.py:38-41 | a chunk row is appended under its conversation, only with a 1024-dimensional vector. No other conversation's chunks change |
| Models.DeleteConversation | backend/app/models/models.py:14-19 | deleting a conversation removes its messages and chunks and keeps every other conversation's exactly |
| Models.NewMessageClosesHistory | backend/app/services/rag_chat.py:69-78 | a message just appended is the last entry of its conversation's ordered history |
| Prompt.IsAmharic | backend/app/services/rag_chat.py:28-29 | true iff some character's code point is in U+1200 to U+137F |
| Prompt.Directive | backend/app/services/rag_chat.py:35-37 | the directive is "Respond in Amharic. " iff the message is Amharic, and "Respond in the user's language. " otherwise |
| Prompt.RenderLine | backend/app/services/rag_chat.py:41-42 | a history line ends with the message content and starts with `User: ` exactly when the role is `"user"` |
| Prompt.HistoryLines | backend/app/services/rag_chat.py:33-42 | exactly the last `min(10, n)` messages are rendered, in their given order, each with its role label |
| Prompt.LastHistoryLine | backend/app/services/rag_chat.py:40-42 | the last line reads `User: ` plus the content for role `"user"`, and `Assistant: ` plus the content for any other role |
| Prompt.BuildPrompt | backend/app/services/rag_chat.py:32-55 | the prompt is the template through `USER: ` (preamble, directive, instruction, joined context, joined history), followed by the message with its trailing whitespace removed. A blank message also loses the space after `USER:`. The prompt is non-empty and has no outer whitespace |
| Prompt.StripTemplate | backend/app/services/rag_chat.py:44-55 | stripping the newline-framed template removes the framing newlines and the message's trailing whitespace; when the message is blank it also removes the space after `USER:` |
| RagChat.Ranked | backend/app/services/rag_chat.py:17-20 | the ranked rows are exactly the conversation's chunks, each as often as stored, in non-decreasing distance |
| RagChat.SearchRelevantChunks | backend/app/services/rag_chat.py:13-25 | the search fails iff the query cannot be embedded. Otherwise it returns the texts of the first `min(top_k, n)` ranked chunks |
| RagChat.ChunkTexts | backend/app/services/rag_chat.py:25 | one text per fetched row, in row order: the row's `chunk` column |
| RagChat.SearchIsScopedAndNearest | backend/app/services/rag_chat.py:17-21 | every result comes from the conversation, and every chunk left out is at least as far from the query as every chunk returned |
| RagChat.OpenTurn | backend/app/services/rag_chat.py:59-71 | resolves the conversation (creating "New Conversation" when needed) and appends the user message. Other conversations and chunks are untouched |
| RagChat.TurnHistoryEndsWithQuestion | backend/app/services/rag_chat.py:69-81 | the history handed to the prompt ends with the stored user message, rendered `User: ` plus the question |
| RagChat.TurnPrompt | backend/app/services/rag_chat.py:73-87 | when retrieval succeeds, the prompt sent to the completion provider is the template through `USER: ` followed by the question without trailing whitespace; a blank question also drops the space after `USER:`. The history section ends with `User: ` plus the question. The context holds at most five texts, each from a chunk of this conversation. The turn's answer is the completion's content, or "" when it is null, and a failed call is an error |
| RagChat.ContextIsOwnChunks | backend/app/services/rag_chat.py:13-25 | the retrieved context has at most `top_k` texts, each the text of a chunk of the conversation |
| RagChat.StoreAnswer | backend/app/services/rag_chat.py:87-93 | an answer is appended as the conversation's assistant message and returned with the conversation id. An error writes nothing. Other conversations are unchanged |
| RagChat.ChatWithRag | backend/app/services/rag_chat.py:58-93 | the user message stays stored on every path. A failed query embedding fails the turn with the embedding error. The turn fails exactly as its answer does, with nothing more written. Otherwise one assistant message carrying the answer is appended, and the answer is returned with the conversation id. Other conversations and chunks are unchanged |
| ChatRoutes.Chat | backend/app/api/routes_chat.py:24-27 | the route succeeds iff the turn does, and then answers with exactly the turn's conversation id and answer. A failure carries the turn's error and leaves only the user message added; a failed query embedding is such a failure. Chunks and other conversations' messages are unchanged |
| ChatRoutes.ListConversations | backend/app/api/routes_chat.py:30-33 | exactly one `(id, title)` entry per stored conversation, with no duplicates and no others |
| ChatRoutes.Views | backend/app/api/routes_chat.py:48-56 | one view per message, in order, holding that message's id, role, content and `created_at` |
| ChatRoutes.ListMessages | backend/app/api/routes_chat.py:36-56 | 404 "Conversation not found" iff the id is unknown. Otherwise every message of that conversation and no other, with stored fields unchanged, ascending by `(created_at, id)` |
| DocumentRoutes.PageTexts | backend/app/api/routes_documents.py:23 | a page without extractable text contributes "" |
| DocumentRoutes.FullText | backend/app/api/routes_documents.py:23 | the joined page text has a non-space character iff some page's text has one. A single page's text is kept unchanged. With DocumentRoutes.FullTextCons this fixes the text; DocumentRoutes.FullTextParagraphs fixes the paragraphs the chunker sees |
| DocumentRoutes.FullTextCons | backend/app/api/routes_documents.py:23 | no pages give "", and two or more give the first page's text, one newline, then the join of the rest |
| DocumentRoutes.FullTextParagraphs | backend/app/api/routes_documents.py:23 | the paragraphs the chunker sees in the joined text are each page's paragraphs, page after page; a page's last line never merges with the next page's first line |
| DocumentRoutes.JoinParagraphs | backend/app/api/routes_documents.py:23 | the paragraphs of a newline-join of texts are the texts' paragraphs concatenated in order |
| DocumentRoutes.JoinDistributes | backend/app/api/routes_documents.py:23 | any map that sends "" to nothing and splits at a newline sends a newline-join to the concatenation of its images |
| DocumentRoutes.UploadDocument | backend/app/api/routes_documents.py:13-47 | a content type outside the three accepted ones gives 400 with nothing written, and the 400 rejection happens for no other reason. Otherwise the conversation is resolved or created with the file name as title and the chunks of the joined page text are ingested. Blank text stores nothing and reports zero chunks |
| DocumentRoutes.Ingest | backend/app/api/routes_documents.py:35-47 | success iff every chunk embeds to a 1024-vector. Then one row per chunk, in order, tagged with the conversation, and the count returned. Otherwise no row is stored. The error is an embedding failure iff some call failed, and the commit's dimension error otherwise, never the 400 rejection. Other conversations' chunks never change |
| DocumentRoutes.EmbedAll | backend/app/api/routes_documents.py:36-37 | one embedding per chunk, in order, or failure iff some chunk's embedding fails |
| DocumentRoutes.StoreChunks | backend/app/api/routes_documents.py:36-45 | appends one row per chunk, in order, with that chunk's text and vector, under the conversation, leaving other conversations' chunks unchanged |

## Left out

- Reading the PDF: page texts are an input (`None` for a page without text), and the PDF library is not modelled.
- The HTTP framework: request validation errors, serialization and the dependency-injected session. Exceptions become `Failure` values carrying the status and detail where the code sets them.
- The embedding and completion providers: they are caller-supplied functions. A provider exception is `None` or `CallFailed`, and a response without choices counts as `CallFailed`.
- Vector distance: pgvector's floating-point `<->` becomes an integer-valued function. Ties are broken by chunk id, where the SQL query leaves them to the database.
- Timestamps: `created_at` is the store clock, advanced by a caller-supplied non-negative amount at each insert. Time zones and wall-clock time are not modelled.
- Concurrency: each turn and each upload is one sequential transition. Commit mechanics are folded in: the conversation and the user message stay stored when later steps fail, and upload rows are all-or-nothing.
- RagChat.SearchRelevantChunks: a query vector whose dimension differs from the column's is not an error here, though the database would reject it.
- ChatRoutes.ListConversations: states the set of entries, not their order, because the query has no `ORDER BY`.
- Application start-up, CORS, settings and table creation: configuration and I/O.
- The web front end.

/** The upload endpoint of backend/app/api/routes_documents.py: content-type
    gate, page-text join, lookup-or-create of the conversation, chunking, one
    embedded row per chunk and a single commit. */
module DocumentRoutes {
  import opened Results
  import opened Text
  import opened Models
  import opened Chunking

  /** The content types the endpoint accepts. */
  const AcceptedContentTypes: set<string> := {"application/pdf", "application/x-pdf", "application/octet-stream"}

  /** Why an upload fails: the 400 rejection, a failing embedding provider, or
      a vector the `Vector(1024)` column refuses at commit. */
  datatype UploadError = Rejected(status: int, detail: string) | EmbeddingFailed | DimensionMismatch

  const NotPdf: UploadError := Rejected(400, "Only PDF files are supported.")

  /** `{"conversation_id": ..., "num_chunks": ...}`. */
  datatype UploadReply = UploadReply(conversationId: int, numChunks: int)

  predicate Accepted(contentType: Option<string>) {
    contentType.Some? && contentType.value in AcceptedContentTypes
  }

  /** `page.extract_text() or ""` for every page. */
  function PageTexts(pages: seq<Option<string>>): (texts: seq<string>)
    ensures |texts| == |pages|
    ensures forall i :: 0 <= i < |pages| ==> texts[i] == pages[i].OrElse("")
    decreases |pages|
  {
    if |pages| == 0 then [] else [pages[0].OrElse("")] + PageTexts(pages[1..])
  }

  /** The document text: the page texts joined with newlines, a page without
      text counting as empty. It has a non-space character exactly when some
      page's text has one, and a single page's text is kept as it is. */
  function FullText(pages: seq<Option<string>>): (text: string)
    ensures HasNonSpace(text) <==> exists i :: 0 <= i < |pages| && HasNonSpace(pages[i].OrElse(""))
    ensures |pages| == 1 ==> text == pages[0].OrElse("")
  {
    var texts := PageTexts(pages);
    BlankLines(texts);
    AllBlankIff(texts);
    Join(texts, "\n")
  }

  /** The page texts are joined with exactly one newline between two pages:
      no pages give "", and otherwise the first page's text, a newline and
      the rest. With the one-page case of `FullText` this fixes the text. */
  lemma FullTextCons(pages: seq<Option<string>>)
    ensures |pages| == 0 ==> FullText(pages) == ""
    ensures |pages| >= 2 ==> FullText(pages) == pages[0].OrElse("") + "\n" + FullText(pages[1..])
  {
    if |pages| >= 2 {
      var texts := PageTexts(pages);
      assert texts[1..] == PageTexts(pages[1..]);
      assert FullText(pages) == Join(texts, "\n");
      assert FullText(pages[1..]) == Join(texts[1..], "\n");
    }
  }

  /** The paragraphs of the joined text are each page's paragraphs, page after
      page: the newline between two pages keeps the last line of one and the
      first line of the next in separate paragraphs. */
  lemma FullTextParagraphs(pages: seq<Option<string>>)
    ensures Paragraphs(FullText(pages))
            == Flatten(seq(|pages|, i requires 0 <= i < |pages| => Paragraphs(pages[i].OrElse(""))))
  {
    var texts := PageTexts(pages);
    assert FullText(pages) == Join(texts, "\n");
    JoinParagraphs(texts);
    PageImages(pages, texts);
  }

  /** Each page's paragraphs are the paragraphs of its text. */
  lemma PageImages(pages: seq<Option<string>>, texts: seq<string>)
    requires |texts| == |pages|
    requires forall i :: 0 <= i < |pages| ==> texts[i] == pages[i].OrElse("")
    ensures seq(|texts|, i requires 0 <= i < |texts| => Paragraphs(texts[i]))
            == seq(|pages|, i requires 0 <= i < |pages| => Paragraphs(pages[i].OrElse("")))
  {
    var each := seq(|texts|, i requires 0 <= i < |texts| => Paragraphs(texts[i]));
    var perPage := seq(|pages|, i requires 0 <= i < |pages| => Paragraphs(pages[i].OrElse("")));
    assert forall k :: 0 <= k < |each| ==> each[k] == perPage[k];
  }

  /** Joining texts with newlines concatenates their paragraphs in order. */
  lemma JoinParagraphs(texts: seq<string>)
    ensures Paragraphs(Join(texts, "\n")) == Flatten(seq(|texts|, i requires 0 <= i < |texts| => Paragraphs(texts[i])))
  {
    var f: string -> seq<string> := Paragraphs;
    assert f(Join(texts, "\n")) == Flatten(seq(|texts|, i requires 0 <= i < |texts| => f(texts[i]))) by {
      ParagraphsSeam(f);
      JoinDistributes(f, texts);
    }
    SameImages(f, texts);
  }

  /** `Paragraphs` sends "" to nothing and a newline to a seam. */
  lemma ParagraphsSeam(f: string -> seq<string>)
    requires f == Paragraphs
    ensures f("") == []
    ensures forall a, b :: f(a + "\n" + b) == f(a) + f(b)
  {
    assert f("") == [] by { ParagraphsOfLine(""); }
    forall a, b ensures f(a + "\n" + b) == f(a) + f(b) {
      ParagraphsAppend(a, b);
    }
  }

  /** The images of `texts` under the function value `Paragraphs` are its
      paragraphs. */
  lemma SameImages(f: string -> seq<string>, texts: seq<string>)
    requires f == Paragraphs
    ensures seq(|texts|, i requires 0 <= i < |texts| => f(texts[i]))
            == seq(|texts|, i requires 0 <= i < |texts| => Paragraphs(texts[i]))
  {
  }

  /** A map that sends "" to nothing and a newline to a seam between its two
      sides sends a newline-join of texts to the concatenation of its images. */
  lemma {:induction false} JoinDistributes(f: string -> seq<string>, texts: seq<string>)
    requires f("") == []
    requires forall a, b :: f(a + "\n" + b) == f(a) + f(b)
    ensures f(Join(texts, "\n")) == Flatten(seq(|texts|, i requires 0 <= i < |texts| => f(texts[i])))
    decreases |texts|
  {
    var each := seq(|texts|, i requires 0 <= i < |texts| => f(texts[i]));
    if |texts| == 1 {
      assert Flatten(each) == each[0] + Flatten([]);
    } else if |texts| > 1 {
      var rest := texts[1..];
      var tail := seq(|rest|, i requires 0 <= i < |rest| => f(rest[i]));
      assert each[1..] == tail;
      JoinDistributes(f, rest);
      assert Join(texts, "\n") == texts[0] + "\n" + Join(rest, "\n");
      assert Flatten(each) == each[0] + Flatten(tail);
    }
  }

  /** A vector the embedding column stores. */
  predicate Storable(v: Vector) {
    |v| == EmbeddingDim
  }

  /** `POST /documents/upload`. A content type outside the accepted set is
      rejected before anything is written. Otherwise the conversation is
      resolved or created (titled with the file name) and stays committed;
      then the text is chunked and the chunks are ingested as `Ingest`
      states. */
  method UploadDocument(s: Store, contentType: Option<string>, filename: Option<string>,
                        pages: seq<Option<string>>, conversationId: Option<int>,
                        embed: string -> Option<Vector>)
    returns (s': Store, r: Result<UploadReply, UploadError>)
    requires Valid(s)
    ensures Valid(s')
    ensures !Accepted(contentType) ==> s' == s && r == Failure(NotPdf)
    ensures r == Failure(NotPdf) <==> !Accepted(contentType)
    ensures Accepted(contentType) ==>
              var (s1, cid) := ResolveConversation(s, conversationId, filename);
              IngestOutcome(s1, cid, ChunkText(FullText(pages), DefaultMaxChars), embed, s', r)
    ensures Accepted(contentType) && !HasNonSpace(FullText(pages)) ==>
              r.Success? && r.value.numChunks == 0 && s'.chunks == s.chunks
  {
    if !Accepted(contentType) {
      return s, Failure(NotPdf);
    }
    var text := FullText(pages);
    var (s1, cid) := ResolveConversation(s, conversationId, filename);
    var chunks := ChunkText(text, DefaultMaxChars);
    s', r := Ingest(s1, cid, chunks, embed);
  }

  /** What ingesting `chunks` into conversation `cid` of `s` leads to: the
      titles and messages are untouched; the upload succeeds exactly when
      every chunk's embedding succeeds and fits the column, and then exactly
      one row per chunk is added, in order, under `cid`, and the reply counts
      them; otherwise no chunk is stored, and the error names an embedding
      failure exactly when some embedding call failed and a refused vector
      otherwise. */
  ghost predicate IngestOutcome(s: Store, cid: int, chunks: seq<string>, embed: string -> Option<Vector>,
                                s': Store, r: Result<UploadReply, UploadError>)
  {
    && s'.titles == s.titles && s'.messages == s.messages
    && (forall d :: d != cid ==> ChunksOf(s'.chunks, d) == ChunksOf(s.chunks, d))
    && (r.Success? <==> forall i :: 0 <= i < |chunks| ==>
                          embed(chunks[i]).Some? && Storable(embed(chunks[i]).value))
    && (r.Failure? ==> s' == s)
    && (r.Failure? && r != Failure(EmbeddingFailed) ==> r == Failure(DimensionMismatch))
    && (r == Failure(EmbeddingFailed) <==> exists i :: 0 <= i < |chunks| && embed(chunks[i]).None?)
    && (r.Success? ==>
          && r.value == UploadReply(cid, |chunks|)
          && |s'.chunks| == |s.chunks| + |chunks|
          && s'.chunks[..|s.chunks|] == s.chunks
          && forall k :: |s.chunks| <= k < |s'.chunks| ==>
               var c := chunks[k - |s.chunks|];
               RowIs(s'.chunks[k], cid, c, embed(c).OrElse([])))
  }

  /** A stored row holds `text` and `embedding` under conversation `cid`. */
  predicate RowIs(row: DocumentChunk, cid: int, text: string, embedding: Vector) {
    row.conversationId == cid && row.chunk == text && row.embedding == embedding
  }

  /** Embeds every chunk, then commits one row per chunk in a single
      transaction; a failed embedding or a refused vector leaves `s` as it
      was. */
  method Ingest(s: Store, cid: int, chunks: seq<string>, embed: string -> Option<Vector>)
    returns (s': Store, r: Result<UploadReply, UploadError>)
    requires Valid(s) && cid in s.titles
    ensures Valid(s')
    ensures IngestOutcome(s, cid, chunks, embed, s', r)
  {
    var vectors := EmbedAll(chunks, embed);
    if vectors.None? {
      return s, Failure(EmbeddingFailed);
    }
    // The commit writes all rows or, if one vector is refused, none.
    if exists k :: 0 <= k < |vectors.value| && !Storable(vectors.value[k]) {
      return s, Failure(DimensionMismatch);
    }
    s' := StoreChunks(s, cid, chunks, vectors.value);
    r := Success(UploadReply(cid, |chunks|));
  }

  /** One `get_embedding` call per chunk, in order; the first failure aborts
      and yields no vectors. */
  method EmbedAll(chunks: seq<string>, embed: string -> Option<Vector>) returns (vectors: Option<seq<Vector>>)
    ensures vectors.None? <==> exists i :: 0 <= i < |chunks| && embed(chunks[i]).None?
    ensures vectors.Some? ==> |vectors.value| == |chunks|
    ensures vectors.Some? ==> forall i :: 0 <= i < |chunks| ==> embed(chunks[i]) == Some(vectors.value[i])
  {
    var vs: seq<Vector> := [];
    var i := 0;
    while i < |chunks|
      invariant 0 <= i <= |chunks| && |vs| == i
      invariant forall k :: 0 <= k < i ==> embed(chunks[k]) == Some(vs[k])
    {
      var e := embed(chunks[i]);
      if e.None? {
        return None;
      }
      vs := vs + [e.value];
      i := i + 1;
    }
    vectors := Some(vs);
  }

  /** Adds one row per chunk, in order, under conversation `cid`. */
  method StoreChunks(s: Store, cid: int, chunks: seq<string>, vectors: seq<Vector>) returns (s': Store)
    requires Valid(s) && cid in s.titles
    requires |vectors| == |chunks|
    requires forall k :: 0 <= k < |vectors| ==> Storable(vectors[k])
    ensures Valid(s') && s'.titles == s.titles && s'.messages == s.messages
    ensures |s'.chunks| == |s.chunks| + |chunks| && s'.chunks[..|s.chunks|] == s.chunks
    ensures forall d :: d != cid ==> ChunksOf(s'.chunks, d) == ChunksOf(s.chunks, d)
    ensures forall k :: |s.chunks| <= k < |s'.chunks| ==>
              RowIs(s'.chunks[k], cid, chunks[k - |s.chunks|], vectors[k - |s.chunks|])
  {
    s' := s;
    var j := 0;
    while j < |chunks|
      invariant 0 <= j <= |chunks|
      invariant Valid(s') && cid in s'.titles && s'.titles == s.titles && s'.messages == s.messages
      invariant |s'.chunks| == |s.chunks| + j && s'.chunks[..|s.chunks|] == s.chunks
      invariant forall d :: d != cid ==> ChunksOf(s'.chunks, d) == ChunksOf(s.chunks, d)
      invariant forall k :: |s.chunks| <= k < |s'.chunks| ==>
                  RowIs(s'.chunks[k], cid, chunks[k - |s.chunks|], vectors[k - |s.chunks|])
    {
      ghost var prev := s'.chunks;
      s' := AppendChunk(s', cid, chunks[j], vectors[j]);
      assert forall k :: 0 <= k < |prev| ==> s'.chunks[k] == prev[k];
      j := j + 1;
    }
  }
}

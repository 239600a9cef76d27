/** `MultiModalRetriever` (mdb_toolkit/MultiModalRetriever.py, copied in
    scripts/MultiModalRetriever.py): every input file is preprocessed into images, the images
    are embedded by the multimodal model, and one document per vector is stored through the
    client. */
module Retriever {
  import opened Wrappers
  import opened Strings
  import opened Documents
  import opened InputHandlers
  import opened Search
  import opened MongoClient

  /** The four keys of a stored embedding document. */
  const StoredKeys: set<string> := {"s3_full_path", "s3_bucket_name", "s3_key", "content_embedding"}

  /** The document `_store_embedding` inserts for one vector: the three metadata entries and
      the vector, nothing else. */
  function StoredDocument(md: Metadata, v: Vector): (d: Document)
    ensures d.Keys == StoredKeys
    ensures d["s3_full_path"] == Str(md.s3FullPath)
    ensures d["s3_bucket_name"] == Str(md.s3BucketName)
    ensures d["s3_key"] == Str(md.s3Key)
    ensures d["content_embedding"] == Vec(v)
  {
    map["s3_full_path" := Str(md.s3FullPath), "s3_bucket_name" := Str(md.s3BucketName),
        "s3_key" := Str(md.s3Key), "content_embedding" := Vec(v)]
  }

  /** The documents for a list of vectors, one each, in order. */
  function StoredDocuments(md: Metadata, vectors: seq<Vector>): (docs: seq<Document>)
    ensures |docs| == |vectors|
  {
    if vectors == [] then []
    else StoredDocuments(md, vectors[..|vectors| - 1]) + [StoredDocument(md, vectors[|vectors| - 1])]
  }

  /** The i-th stored document is the one for the i-th vector. */
  lemma {:induction false} StoredDocumentsAt(md: Metadata, vectors: seq<Vector>, i: nat)
    requires i < |vectors|
    ensures StoredDocuments(md, vectors)[i] == StoredDocument(md, vectors[i])
    decreases |vectors|
  {
    var init := vectors[..|vectors| - 1];
    if i < |init| {
      StoredDocumentsAt(md, init, i);
      assert init[i] == vectors[i];
    }
  }

  /** What one input of `mm_embed` adds to the collection: the handler the dispatch picks
      preprocesses it (which cannot fail, see DispatchedPreprocessSucceeds), the model embeds the
      images, and each vector is stored with the metadata. */
  function DocumentsFor(bucketName: string, s3: ObjectStore, embedImages: seq<Image> -> seq<Vector>, input: string): seq<Document>
  {
    DispatchedPreprocessSucceeds(bucketName, s3, input);
    var processed := Preprocess(CreateInputProcessor(bucketName, input), s3, input).value;
    StoredDocuments(processed.1, embedImages(processed.0))
  }

  /** The documents `f` gives for each element of `xs`, element after element. */
  function Concat<T>(f: T -> seq<Document>, xs: seq<T>): seq<Document>
    decreases |xs|
  {
    if xs == [] then [] else Concat(f, xs[..|xs| - 1]) + f(xs[|xs| - 1])
  }

  /** Concatenating over two lists in a row is concatenating over each in turn. */
  lemma {:induction false} ConcatAppend<T>(f: T -> seq<Document>, a: seq<T>, b: seq<T>)
    ensures Concat(f, a + b) == Concat(f, a) + Concat(f, b)
    decreases |b|
  {
    if b == [] {
      assert a + b == a;
    } else {
      var b' := b[..|b| - 1];
      assert (a + b)[..|a + b| - 1] == a + b';
      assert (a + b)[|a + b| - 1] == b[|b| - 1];
      assert Concat(f, a + b) == Concat(f, a + b') + f(b[|b| - 1]);
      ConcatAppend(f, a, b');
    }
  }

  /** What `mm_embed` adds for a list of inputs: each input's documents, input after input. */
  function EmbeddedDocuments(bucketName: string, s3: ObjectStore, embedImages: seq<Image> -> seq<Vector>, inputs: seq<string>): seq<Document>
  {
    Concat(input => DocumentsFor(bucketName, s3, embedImages, input), inputs)
  }

  /** Inputs are handled in list order and each input's documents stay together: what a list
      of inputs adds is what the first part adds followed by what the second part adds. */
  lemma EmbeddedDocumentsAppend(bucketName: string, s3: ObjectStore, embedImages: seq<Image> -> seq<Vector>, a: seq<string>, b: seq<string>)
    ensures EmbeddedDocuments(bucketName, s3, embedImages, a + b)
         == EmbeddedDocuments(bucketName, s3, embedImages, a) + EmbeddedDocuments(bucketName, s3, embedImages, b)
  {
    ConcatAppend(input => DocumentsFor(bucketName, s3, embedImages, input), a, b);
  }

  /** The documents stored for an s3:// input carry the input as their full path; those for a
      local file carry the retriever's bucket and the file name as their key. */
  lemma DocumentsForMetadata(bucketName: string, s3: ObjectStore, embedImages: seq<Image> -> seq<Vector>, input: string)
    requires '/' !in bucketName
    ensures var docs := DocumentsFor(bucketName, s3, embedImages, input);
            forall d :: d in docs ==>
              && d.Keys == StoredKeys
              && (StartsWith(input, "s3://") ==> d["s3_full_path"] == Str(input))
              && (!StartsWith(input, "s3://") ==>
                    d["s3_bucket_name"] == Str(bucketName) && d["s3_key"] == Str(LastSegment(input, '/')))
  {
    var h := CreateInputProcessor(bucketName, input);
    DispatchedPreprocessSucceeds(bucketName, s3, input);
    var processed := Preprocess(h, s3, input).value;
    var docs := StoredDocuments(processed.1, embedImages(processed.0));
    assert DocumentsFor(bucketName, s3, embedImages, input) == docs;
    if StartsWith(input, "s3://") {
      assert processed.1 == ParseMetadata(input).value;
    } else {
      LocalPreprocessMetadata(h, s3, input);
    }
    forall d | d in docs
      ensures && d.Keys == StoredKeys
              && (StartsWith(input, "s3://") ==> d["s3_full_path"] == Str(input))
              && (!StartsWith(input, "s3://") ==>
                    d["s3_bucket_name"] == Str(bucketName) && d["s3_key"] == Str(LastSegment(input, '/')))
    {
      var i :| 0 <= i < |docs| && docs[i] == d;
      StoredDocumentsAt(processed.1, embedImages(processed.0), i);
    }
  }

  /** One more vector stored by `insert_one`: the store after it holds the documents for one
      more vector. */
  lemma StoreStep(start: map<Namespace, seq<Document>>, current: map<Namespace, seq<Document>>,
                  ns: Namespace, md: Metadata, vectors: seq<Vector>, i: nat)
    requires i < |vectors|
    requires current == Appended(start, ns, StoredDocuments(md, vectors[..i]))
    ensures var doc := StoredDocument(md, vectors[i]);
            current[ns := (if ns in current then current[ns] else []) + [doc]]
            == Appended(start, ns, StoredDocuments(md, vectors[..i + 1]))
  {
    var doc := StoredDocument(md, vectors[i]);
    assert vectors[..i + 1][..i] == vectors[..i];
    assert StoredDocuments(md, vectors[..i + 1]) == StoredDocuments(md, vectors[..i]) + [doc];
    AppendedTwice(start, ns, StoredDocuments(md, vectors[..i]), [doc]);
  }

  class MultiModalRetriever {
    const client: CustomMongoClient
    /** The collection (`database_name`, `collection_name`) the embeddings go to. */
    const ns: Namespace
    const indexName: string
    const s3: ObjectStore
    const bucketName: string
    /** `_create_embedding`: the multimodal model, from images to vectors. */
    const embedImages: seq<Image> -> seq<Vector>

    constructor(client: CustomMongoClient, ns: Namespace, indexName: string, s3: ObjectStore,
                bucketName: string, embedImages: seq<Image> -> seq<Vector>)
      ensures this.client == client && this.ns == ns && this.indexName == indexName
      ensures this.s3 == s3 && this.bucketName == bucketName && this.embedImages == embedImages
    {
      this.client := client;
      this.ns := ns;
      this.indexName := indexName;
      this.s3 := s3;
      this.bucketName := bucketName;
      this.embedImages := embedImages;
    }

    /** `_store_embedding`: one `insert_one` per vector, in order; returns True. */
    method StoreEmbedding(vectors: seq<Vector>, md: Metadata) returns (ok: bool)
      modifies client
      ensures ok
      ensures client.collections == Appended(old(client.collections), ns, StoredDocuments(md, vectors))
      ensures client.searchIndexes == old(client.searchIndexes)
    {
      var i := 0;
      while i < |vectors|
        invariant 0 <= i <= |vectors|
        invariant client.collections == Appended(old(client.collections), ns, StoredDocuments(md, vectors[..i]))
        invariant client.searchIndexes == old(client.searchIndexes)
      {
        StoreStep(old(client.collections), client.collections, ns, md, vectors, i);
        client.InsertOne(ns, StoredDocument(md, vectors[i]));
        i := i + 1;
      }
      assert vectors[..i] == vectors;
      return true;
    }

    /** `mm_embed`: for each input in turn, dispatch, preprocess, embed and store; returns True. */
    method MmEmbed(inputs: seq<string>) returns (ok: bool)
      modifies client
      ensures ok
      ensures client.collections == Appended(old(client.collections), ns, EmbeddedDocuments(bucketName, s3, embedImages, inputs))
      ensures client.searchIndexes == old(client.searchIndexes)
    {
      var i := 0;
      while i < |inputs|
        invariant 0 <= i <= |inputs|
        invariant client.collections == Appended(old(client.collections), ns, EmbeddedDocuments(bucketName, s3, embedImages, inputs[..i]))
        invariant client.searchIndexes == old(client.searchIndexes)
      {
        var inputFile := inputs[i];
        assert inputs[..i + 1][..i] == inputs[..i] && inputs[..i + 1][i] == inputFile;
        var handler := CreateInputProcessor(bucketName, inputFile);
        DispatchedPreprocessSucceeds(bucketName, s3, inputFile);
        var processed := Preprocess(handler, s3, inputFile).value;
        var processedInputs, metadata := processed.0, processed.1;
        var documentVectors := embedImages(processedInputs);
        AppendedTwice(old(client.collections), ns, EmbeddedDocuments(bucketName, s3, embedImages, inputs[..i]),
                      StoredDocuments(metadata, documentVectors));
        var _ := StoreEmbedding(documentVectors, metadata);
        i := i + 1;
      }
      assert inputs[..i] == inputs;
      return true;
    }

    /** `mm_query` as written: it passes `embedding_field`, a keyword argument `vector_search`
        does not take, so every call raises a TypeError before any search. */
    function MmQueryAsWritten(query: string, k: int, ann: Vector -> seq<Hit>): (r: Result<seq<Hit>, Error>)
      ensures r == Err(TypeError)
    {
      Err(TypeError)
    }

    /** `mm_query` once `vector_search` takes `embedding_field` as its `$vectorSearch` path: the
        client's vector search for the query with limit `k`, so at most `k` results in the
        index's ranking order, none carrying `embedding`. The ranking oracle `ann` stands for the
        search over whatever path is given, so the path itself does not appear here. */
    function MmQuery(query: string, k: int, ann: Vector -> seq<Hit>): (r: Result<seq<Hit>, Error>)
      reads client
      ensures r.Err? <==> client.getEmbedding(Str(query)).Raised?
      ensures r.Ok? ==> |r.value| <= (if k <= 0 then 0 else k)
      ensures r.Ok? && |r.value| > 0 ==> client.getEmbedding(Str(query)).Embedded?
      ensures r.Ok? && client.getEmbedding(Str(query)).Embedded? ==>
                var ranked := ann(client.getEmbedding(Str(query)).vector);
                forall i :: 0 <= i < |r.value| ==>
                  i < |ranked| && r.value[i].score == ranked[i].score && r.value[i].doc == ranked[i].doc - {"embedding"}
    {
      client.VectorSearch(ns, indexName, query, k, ann)
    }
  }

  /** Where the corrected `mm_query` returns results, the code as written raises instead. */
  lemma MmQueryAsWrittenNeverSearches(r: MultiModalRetriever, query: string, k: int, ann: Vector -> seq<Hit>)
    requires r.client.IndexExistsOn(r.ns, r.indexName) && r.client.getEmbedding(Str(query)).Embedded?
    requires 0 < k && ann(r.client.getEmbedding(Str(query)).vector) != []
    ensures r.MmQuery(query, k, ann).Ok? && |r.MmQuery(query, k, ann).value| > 0
    ensures r.MmQueryAsWritten(query, k, ann) == Err(TypeError)
  {
  }
}

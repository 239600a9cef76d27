/** `CustomMongoClient` in its two copies (mdb_toolkit/core.py and mdb_toolkit.py), over an
    in-memory stand-in for the deployment it talks to: the documents of each collection in
    store order and the search-index listing of each collection. The embedding provider is the
    client's `get_embedding` (core.py takes it at construction; mdb_toolkit.py imports one at
    module level, and `_create_search_index` there takes it as an argument). */
module MongoClient {
  import opened Wrappers
  import opened Strings
  import opened Documents
  import opened SearchIndexes
  import opened Ingestion
  import opened Search

  /** The document `create_if_not_exists` inserts and deletes again to make the store create a
      collection. */
  function Placeholder(): Document
  {
    map["_id" := Num(0), "placeholder" := Bool(true)]
  }

  predicate HasField(d: Document, key: string, value: Value)
  {
    key in d && d[key] == value
  }

  /** `delete_one({key: value})` on a sequence of documents: the first document with `key`
      equal to `value` is removed. At most one document goes, and what is left keeps its
      order; the two lemmas below say which one. */
  function DeleteFirst(docs: seq<Document>, key: string, value: Value): (r: seq<Document>)
    ensures |docs| - 1 <= |r| <= |docs|
  {
    if docs == [] then []
    else if HasField(docs[0], key, value) then docs[1..]
    else [docs[0]] + DeleteFirst(docs[1..], key, value)
  }

  /** Without a matching document, `delete_one` changes nothing. */
  lemma {:induction false} DeleteFirstNoMatch(docs: seq<Document>, key: string, value: Value)
    requires forall i :: 0 <= i < |docs| ==> !HasField(docs[i], key, value)
    ensures DeleteFirst(docs, key, value) == docs
  {
    if docs != [] {
      DeleteFirstNoMatch(docs[1..], key, value);
      assert docs == [docs[0]] + docs[1..];
    }
  }

  /** With a first match at `i`, exactly that document is removed. */
  lemma {:induction false} DeleteFirstRemovesFirstMatch(docs: seq<Document>, key: string, value: Value, i: nat)
    requires i < |docs| && HasField(docs[i], key, value)
    requires forall j :: 0 <= j < i ==> !HasField(docs[j], key, value)
    ensures DeleteFirst(docs, key, value) == docs[..i] + docs[i + 1..]
    decreases i
  {
    if i > 0 {
      var t := docs[1..];
      assert !HasField(docs[0], key, value);
      forall j | 0 <= j < i - 1 ensures !HasField(t[j], key, value) {
        assert t[j] == docs[j + 1];
      }
      DeleteFirstRemovesFirstMatch(t, key, value, i - 1);
      assert t[..i - 1] == docs[1..i] && t[i..] == docs[i + 1..];
      assert [docs[0]] + (docs[1..i] + docs[i + 1..]) == docs[..i] + docs[i + 1..];
    }
  }

  /** The collections after `docs` were inserted one by one into `ns`: nothing happens for an
      empty list; otherwise the collection is created if needed and grows at its end. */
  function Appended(collections: map<Namespace, seq<Document>>, ns: Namespace, docs: seq<Document>): (r: map<Namespace, seq<Document>>)
    ensures docs == [] ==> r == collections
    ensures docs != [] ==> r.Keys == collections.Keys + {ns} && |r[ns]| >= |docs| && r[ns][|r[ns]| - |docs|..] == docs
    ensures forall other :: other in collections && other != ns ==> other in r && r[other] == collections[other]
  {
    if docs == [] then collections
    else
      var existing := if ns in collections then collections[ns] else [];
      assert (existing + docs)[|existing|..] == docs;
      collections[ns := existing + docs]
  }

  /** Inserting a list and then more documents is inserting their concatenation. */
  lemma AppendedTwice(collections: map<Namespace, seq<Document>>, ns: Namespace, a: seq<Document>, b: seq<Document>)
    ensures Appended(Appended(collections, ns, a), ns, b) == Appended(collections, ns, a + b)
  {
    if a == [] {
      assert a + b == b;
    } else if b == [] {
      assert a + b == a;
    } else {
      var existing := if ns in collections then collections[ns] else [];
      var once := collections[ns := existing + a];
      assert Appended(collections, ns, a) == once;
      assert Appended(once, ns, b) == once[ns := (existing + a) + b];
      assert existing + a + b == existing + (a + b);
      assert once[ns := (existing + a) + b] == collections[ns := existing + (a + b)];
    }
  }

  /** The two definition layouts: core.py's `mappings` with a `knnVector` field, and
      mdb_toolkit.py's `vectorSearch` index type with a `vector` field. */
  datatype Layout = KnnMappings | VectorSearchFields

  /** The field the index covers, its dimension count and its similarity. */
  function IndexedPath(d: IndexDefinition): string
  {
    match d
    case KnnVectorMapping(field, _, _) => field
    case VectorSearchField(path, _, _) => path
  }

  function Dimensions(d: IndexDefinition): nat
  {
    match d
    case KnnVectorMapping(_, dims, _) => dims
    case VectorSearchField(_, dims, _) => dims
  }

  function Similarity(d: IndexDefinition): string
  {
    match d
    case KnnVectorMapping(_, _, sim) => sim
    case VectorSearchField(_, _, sim) => sim
  }

  /** The definition `_create_search_index` sends: the `embedding` path, the dimension count
      measured on the sample embedding, and the requested metric. */
  function Definition(layout: Layout, dims: nat, metric: string): (d: IndexDefinition)
    ensures IndexedPath(d) == "embedding" && Dimensions(d) == dims && Similarity(d) == metric
    ensures d.KnnVectorMapping? <==> layout == KnnMappings
  {
    match layout
    case KnnMappings => KnnVectorMapping("embedding", dims, metric)
    case VectorSearchFields => VectorSearchField("embedding", dims, metric)
  }

  /** The entry the store lists for an index it has just accepted: not queryable yet. */
  function NewEntry(name: string, def: IndexDefinition): IndexEntry
  {
    IndexEntry(Some(name), Some("PENDING"), Some(def))
  }

  /** The text `_create_search_index` embeds to learn the dimension count. */
  const SampleText: string := "sample text"

  class CustomMongoClient {
    /** The collections of the deployment and their documents in store order; a namespace that
        is not a key has no collection. */
    var collections: map<Namespace, seq<Document>>
    /** The search indexes of each collection, in listing order. */
    var searchIndexes: map<Namespace, seq<IndexEntry>>
    /** `get_embedding`. */
    const getEmbedding: Embedder

    constructor(getEmbedding: Embedder, collections: map<Namespace, seq<Document>>, searchIndexes: map<Namespace, seq<IndexEntry>>)
      ensures this.getEmbedding == getEmbedding
      ensures this.collections == collections && this.searchIndexes == searchIndexes
    {
      this.getEmbedding := getEmbedding;
      this.collections := collections;
      this.searchIndexes := searchIndexes;
    }

    /** The documents of a collection; a missing collection reads as empty. */
    function Docs(ns: Namespace): seq<Document>
      reads this
    {
      if ns in collections then collections[ns] else []
    }

    function Entries(ns: Namespace): seq<IndexEntry>
      reads this
    {
      if ns in searchIndexes then searchIndexes[ns] else []
    }

    /** `database.list_collection_names()`. */
    function ListCollectionNames(database: string): (names: set<string>)
      reads this
      ensures forall c :: c in names <==> Namespace(database, c) in collections
    {
      set ns | ns in collections && ns.database == database :: ns.collection
    }

    /** `list(collection.list_search_indexes())`: fails for a collection that does not exist. */
    function ListSearchIndexes(ns: Namespace): (listing: Listing)
      reads this
      ensures listing.Ok? <==> ns in collections
      ensures listing.Ok? ==> listing.value == Entries(ns)
    {
      if ns in collections then Ok(Entries(ns)) else Err(NamespaceNotFound)
    }

    /** `collection.insert_one(doc)`, which creates the collection when needed. */
    method InsertOne(ns: Namespace, doc: Document)
      modifies this
      ensures collections == old(collections)[ns := old(Docs(ns)) + [doc]]
      ensures searchIndexes == old(searchIndexes)
    {
      collections := collections[ns := Docs(ns) + [doc]];
    }

    /** `collection.insert_many(docs)`; the driver refuses an empty list, which no caller passes. */
    method InsertMany(ns: Namespace, docs: seq<Document>)
      requires docs != []
      modifies this
      ensures collections == old(collections)[ns := old(Docs(ns)) + docs]
      ensures searchIndexes == old(searchIndexes)
    {
      collections := collections[ns := Docs(ns) + docs];
    }

    /** `collection.delete_one({key: value})`. */
    method DeleteOne(ns: Namespace, key: string, value: Value)
      modifies this
      ensures ns in old(collections) ==> collections == old(collections)[ns := DeleteFirst(old(Docs(ns)), key, value)]
      ensures ns !in old(collections) ==> collections == old(collections)
      ensures searchIndexes == old(searchIndexes)
    {
      if ns in collections {
        collections := collections[ns := DeleteFirst(collections[ns], key, value)];
      }
    }

    /** `collection.create_search_index(model)`: the store refuses a name already in use on the
        collection, and otherwise lists the new index as pending. */
    method SubmitSearchIndex(ns: Namespace, name: string, def: IndexDefinition) returns (r: Outcome<Error>)
      modifies this
      ensures collections == old(collections)
      ensures ns !in old(collections) ==> r == Fail(NamespaceNotFound) && searchIndexes == old(searchIndexes)
      ensures ns in old(collections) && old(FirstNamed(Entries(ns), name)).Some? ==>
                r == Fail(OperationFailure) && searchIndexes == old(searchIndexes)
      ensures ns in old(collections) && old(FirstNamed(Entries(ns), name)).None? ==>
                r == Pass && searchIndexes == old(searchIndexes)[ns := old(Entries(ns)) + [NewEntry(name, def)]]
    {
      if ns !in collections {
        return Fail(NamespaceNotFound);
      }
      if FirstNamed(Entries(ns), name).Some? {
        return Fail(OperationFailure);
      }
      searchIndexes := searchIndexes[ns := Entries(ns) + [NewEntry(name, def)]];
      return Pass;
    }

    /** `create_if_not_exists`: afterwards the collection exists; an existing one is left as it
        was, a new one is empty (the placeholder is inserted and deleted again). */
    method CreateIfNotExists(ns: Namespace)
      modifies this
      ensures ns in collections
      ensures old(ns in collections) ==> collections == old(collections)
      ensures old(ns !in collections) ==> collections == old(collections)[ns := []]
      ensures searchIndexes == old(searchIndexes)
    {
      if ns.collection !in ListCollectionNames(ns.database) {
        assert ns !in collections;
        InsertOne(ns, Placeholder());
        assert Docs(ns) == [Placeholder()];
        PlaceholderDeleted();
        DeleteOne(ns, "_id", Num(0));
      }
    }

    /** `_create_search_index`. `embed` is the provider used for the sample embedding (the
        client's own in core.py, the argument in mdb_toolkit.py), `layout` the copy's definition
        layout. An index already listed under the name makes the call return without further
        effect; a raising provider or a `None` sample is re-raised; otherwise the index is
        submitted with as many dimensions as the sample has components. */
    method CreateSearchIndex(ns: Namespace, indexName: string, metric: string, layout: Layout, embed: Embedder)
      returns (r: Outcome<Error>)
      modifies this
      ensures collections == old(collections)[ns := old(Docs(ns))]
      ensures var existed := ScanForName(old(Entries(ns)), indexName);
              var sample := embed(Str(SampleText));
              if existed then r == Pass && searchIndexes == old(searchIndexes)
              else if sample.Raised? then r == Fail(ProviderError) && searchIndexes == old(searchIndexes)
              else if sample.ReturnedNone? then r == Fail(TypeError) && searchIndexes == old(searchIndexes)
              else r == Pass &&
                   searchIndexes == old(searchIndexes)[ns := old(Entries(ns)) + [NewEntry(indexName, Definition(layout, |sample.vector|, metric))]]
    {
      CreateIfNotExists(ns);
      if IndexExists(ListSearchIndexes(ns), indexName) {
        return Pass;
      }
      var sample := embed(Str(SampleText));
      if sample.Raised? {
        return Fail(ProviderError);
      }
      if sample.ReturnedNone? {
        return Fail(TypeError);
      }
      var numDimensions := |sample.vector|;
      NoNameMeansNoEntry(Entries(ns), indexName);
      r := SubmitSearchIndex(ns, indexName, Definition(layout, numDimensions, metric));
    }

    /** Calling `_create_search_index` twice: once the first call succeeds the second one does,
        and between them at most one entry was added, the one carrying the name. */
    method CreateSearchIndexTwice(ns: Namespace, indexName: string, metric: string, layout: Layout, embed: Embedder)
      returns (first: Outcome<Error>, second: Outcome<Error>)
      modifies this
      ensures first.Pass? ==> second == Pass
      ensures first.Pass? ==>
                || searchIndexes == old(searchIndexes)
                || (&& |Entries(ns)| == |old(Entries(ns))| + 1
                    && Entries(ns)[..|old(Entries(ns))|] == old(Entries(ns))
                    && Entries(ns)[|old(Entries(ns))|].name == Some(indexName)
                    && forall other :: other != ns ==> Entries(other) == old(Entries(other)))
    {
      first := CreateSearchIndex(ns, indexName, metric, layout, embed);
      if first.Pass? {
        if !ScanForName(old(Entries(ns)), indexName) && embed(Str(SampleText)).Embedded? {
          var added := NewEntry(indexName, Definition(layout, |embed(Str(SampleText)).vector|, metric));
          assert Entries(ns) == old(Entries(ns)) + [added];
          assert NameOrEmpty(Entries(ns)[|Entries(ns)| - 1]) == indexName;
        }
      }
      second := CreateSearchIndex(ns, indexName, metric, layout, embed);
    }

    /** `index_exists` against the current listing. */
    function IndexExistsOn(ns: Namespace, indexName: string): (exists_: bool)
      reads this
      ensures exists_ <==> ns in collections && exists i :: 0 <= i < |Entries(ns)| && NameOrEmpty(Entries(ns)[i]) == indexName
    {
      IndexExists(ListSearchIndexes(ns), indexName)
    }

    /** The inner loop of `insert_documents` over the nominated fields of one document. */
    method EmbedFields(variant: Variant, doc: Document, fields: seq<string>) returns (out: Document, verdict: Verdict)
      ensures Processed(out, verdict) == EmbedDoc(variant, doc, fields, getEmbedding)
    {
      out := doc;
      var j := 0;
      while j < |fields|
        invariant 0 <= j <= |fields|
        invariant EmbedDoc(variant, out, fields[j..], getEmbedding) == EmbedDoc(variant, doc, fields, getEmbedding)
      {
        var field := fields[j];
        assert fields[j..][0] == field && fields[j..][1..] == fields[j + 1..];
        if field in out {
          var embedding := getEmbedding(out[field]);
          if embedding.Raised? {
            return out, Abort;
          }
          if embedding.ReturnedNone? {
            return out, Drop;
          }
          out := out[EmbeddingKey(field) := Vec(embedding.vector)];
        } else if variant == Strict {
          return out, Drop;
        }
        j := j + 1;
      }
      return out, Keep;
    }

    /** The outer loop of `insert_documents`: each document in turn gets its embeddings
        written in place; the loop stops at the first provider exception. Returns the documents
        selected for insertion and whether an exception ended the loop. */
    method EmbedBatch(variant: Variant, documents: array<Document>, fields: seq<string>) returns (toInsert: seq<Document>, aborted: bool)
      modifies documents
      ensures Ingest(variant, old(documents[..]), fields, getEmbedding) == Batch(documents[..], toInsert, aborted)
    {
      ghost var docs := documents[..];
      ghost var done: seq<Document> := [];
      toInsert := [];
      var i := 0;
      while i < documents.Length
        invariant 0 <= i <= documents.Length == |docs|
        invariant Ingest(variant, docs[..i], fields, getEmbedding) == Batch(done, toInsert, false)
        invariant documents[..] == done + docs[i..]
      {
        SpliceAt(documents[..], done, docs[i..]);
        var doc, verdict := EmbedFields(variant, documents[i], fields);
        BatchStep(variant, docs, i, fields, getEmbedding, done, toInsert, Processed(doc, verdict));
        ghost var before := documents[..];
        documents[i] := doc;
        SpliceWrite(before, documents[..], done, doc, docs[i..]);
        done := done + [doc];
        if verdict == Abort {
          return toInsert, true;
        }
        if verdict == Keep {
          toInsert := toInsert + [doc];
        }
        i := i + 1;
      }
      assert docs[..i] == docs;
      return toInsert, false;
    }

    /** The body of `insert_documents` shared by both copies. A collection that already holds
        documents is left alone. Otherwise every document the loop reaches gets its embeddings
        written into it in place, and the qualifying ones are inserted in one batch; a provider
        exception ends the loop, and nothing is inserted. */
    method InsertWith(variant: Variant, ns: Namespace, documents: array<Document>, fields: seq<string>)
      modifies this, documents
      ensures searchIndexes == old(searchIndexes)
      ensures old(|Docs(ns)|) > 0 ==> collections == old(collections) && documents[..] == old(documents[..])
      ensures old(|Docs(ns)|) == 0 ==>
                var b := Ingest(variant, old(documents[..]), fields, getEmbedding);
                && documents[..] == b.documents
                && collections == (if !b.aborted && b.toInsert != [] then old(collections)[ns := b.toInsert] else old(collections))
    {
      if |Docs(ns)| > 0 {
        return;
      }
      var toInsert, aborted := EmbedBatch(variant, documents, fields);
      if !aborted && toInsert != [] {
        assert Docs(ns) + toInsert == toInsert;
        InsertMany(ns, toInsert);
      }
    }

    /** `insert_documents` of core.py: a document missing a nominated field is dropped. */
    method InsertDocuments(ns: Namespace, documents: array<Document>, fields: seq<string>)
      modifies this, documents
      ensures searchIndexes == old(searchIndexes)
      ensures old(|Docs(ns)|) > 0 ==> collections == old(collections) && documents[..] == old(documents[..])
      ensures old(|Docs(ns)|) == 0 ==>
                var b := Ingest(Strict, old(documents[..]), fields, getEmbedding);
                && documents[..] == b.documents
                && collections == (if !b.aborted && b.toInsert != [] then old(collections)[ns := b.toInsert] else old(collections))
    {
      InsertWith(Strict, ns, documents, fields);
    }

    /** `insert_documents` of mdb_toolkit.py (`for ... else`): a missing field is passed over. */
    method InsertDocumentsForElse(ns: Namespace, documents: array<Document>, fields: seq<string>)
      modifies this, documents
      ensures searchIndexes == old(searchIndexes)
      ensures old(|Docs(ns)|) > 0 ==> collections == old(collections) && documents[..] == old(documents[..])
      ensures old(|Docs(ns)|) == 0 ==>
                var b := Ingest(Lenient, old(documents[..]), fields, getEmbedding);
                && documents[..] == b.documents
                && collections == (if !b.aborted && b.toInsert != [] then old(collections)[ns := b.toInsert] else old(collections))
    {
      InsertWith(Lenient, ns, documents, fields);
    }

    /** `vector_search` with the provider made explicit. `ann(v)` stands for the candidates the
        `$vectorSearch` stage ranks for the query vector `v`, best first. The query is embedded
        before anything else, so a raising provider raises out of the call; a missing index or a
        `None` embedding gives no results. */
    function VectorSearch(ns: Namespace, indexName: string, query: string, limit: int, ann: Vector -> seq<Hit>): (r: Result<seq<Hit>, Error>)
      reads this
      ensures r.Err? <==> getEmbedding(Str(query)).Raised?
      ensures r.Err? ==> r.error == ProviderError
      ensures r.Ok? && !IndexExistsOn(ns, indexName) ==> r.value == []
      ensures r.Ok? && getEmbedding(Str(query)).ReturnedNone? ==> r.value == []
      ensures r.Ok? && |r.value| > 0 ==> IndexExistsOn(ns, indexName) && getEmbedding(Str(query)).Embedded?
      ensures r.Ok? && IndexExistsOn(ns, indexName) && getEmbedding(Str(query)).Embedded? ==>
                r.value == VectorStage(ann(getEmbedding(Str(query)).vector), limit)
    {
      var queryEmbedding := getEmbedding(Str(query));
      if queryEmbedding.Raised? then Err(ProviderError)
      else if !IndexExistsOn(ns, indexName) then Ok([])
      else if queryEmbedding.ReturnedNone? then Ok([])
      else Ok(VectorStage(ann(queryEmbedding.vector), limit))
    }

    /** `vector_search` in core.py as written: it calls a module-level `get_embedding` that the
        module neither defines nor imports, so every call ends in a NameError before the index
        is even looked up. */
    function VectorSearchAsWritten(ns: Namespace, indexName: string, query: string, limit: int, ann: Vector -> seq<Hit>): (r: Result<seq<Hit>, Error>)
      reads this
      ensures r == Err(NameError)
    {
      Err(NameError)
    }

    /** `hybrid_search`: the same gate as `vector_search`, then the hybrid pipeline. */
    function HybridSearch(ns: Namespace, indexName: string, query: string, keyword: string, limit: int, ann: Vector -> seq<Hit>): (r: Result<seq<Hit>, Error>)
      reads this
      ensures r.Err? <==> getEmbedding(Str(query)).Raised?
      ensures r.Ok? && (!IndexExistsOn(ns, indexName) || getEmbedding(Str(query)).ReturnedNone?) ==> r.value == []
    {
      var queryEmbedding := getEmbedding(Str(query));
      if queryEmbedding.Raised? then Err(ProviderError)
      else if !IndexExistsOn(ns, indexName) then Ok([])
      else if queryEmbedding.ReturnedNone? then Ok([])
      else Ok(HybridPipeline(ann(queryEmbedding.vector), keyword, limit))
    }

    /** `keyword_search`: core.py drops `embedding`, mdb_toolkit.py keeps the four listed fields.
        A missing collection has no documents. */
    function KeywordSearch(ns: Namespace, query: string, limit: int, projection: Projection): (r: seq<Document>)
      reads this
      ensures |r| <= |FilterDocs(Docs(ns), query)|
      ensures limit != 0 ==> |r| <= (if limit < 0 then -limit else limit)
    {
      KeywordCursor(Docs(ns), query, limit, projection)
    }
  }

  /** Right after `_create_search_index` adds an index under a fresh name, `index_exists` sees
      it but `is_index_ready` does not: the store lists it as pending. */
  lemma NewIndexNotReady(entries: seq<IndexEntry>, name: string, def: IndexDefinition)
    requires FirstNamed(entries, name).None?
    ensures IndexExists(Ok(entries + [NewEntry(name, def)]), name)
    ensures !IsIndexReady(Ok(entries + [NewEntry(name, def)]), name)
  {
    var listed := entries + [NewEntry(name, def)];
    assert NameOrEmpty(listed[|entries|]) == name;
    FirstEntryDecides(listed, name, |entries|);
    assert Upper("PENDING") != "READY" by {
      assert Upper("PENDING")[0] == 'P';
    }
  }

  /** The element right after a prefix is the head of what follows it. */
  lemma SpliceAt(s: seq<Document>, pre: seq<Document>, rest: seq<Document>)
    requires s == pre + rest && rest != []
    ensures s[|pre|] == rest[0]
  {
  }

  /** Writing the element right after a prefix replaces the head of what follows it. */
  lemma SpliceWrite(before: seq<Document>, after: seq<Document>, pre: seq<Document>, x: Document, rest: seq<Document>)
    requires before == pre + rest && rest != []
    requires after == before[|pre| := x]
    ensures after == (pre + [x]) + rest[1..]
  {
    assert after == (pre + [x]) + rest[1..] by {
      forall k | 0 <= k < |after| ensures after[k] == ((pre + [x]) + rest[1..])[k] {
        if k > |pre| { assert after[k] == rest[k - |pre|]; }
      }
    }
  }

  /** One more document through the outer loop of `insert_documents`: after a provider
      exception the batch is complete, with the remaining documents untouched; otherwise the
      loop goes on with one more document done. */
  lemma BatchStep(variant: Variant, docs: seq<Document>, i: nat, fields: seq<string>, embed: Embedder,
                  done: seq<Document>, acc: seq<Document>, p: Processed)
    requires i < |docs|
    requires Ingest(variant, docs[..i], fields, embed) == Batch(done, acc, false)
    requires p == EmbedDoc(variant, docs[i], fields, embed)
    ensures p.verdict == Abort ==> Ingest(variant, docs, fields, embed) == Batch(done + [p.doc] + docs[i..][1..], acc, true)
    ensures p.verdict != Abort ==>
              Ingest(variant, docs[..i + 1], fields, embed) == Batch(done + [p.doc], acc + (if p.verdict == Keep then [p.doc] else []), false)
  {
    IngestStep(variant, docs, i, fields, embed, done, acc, p);
    if p.verdict == Abort {
      IngestAfterAbort(variant, docs, i + 1, fields, embed);
      assert docs[i..][1..] == docs[i + 1..];
    }
  }

  /** One more document through the outer loop of `insert_documents`. */
  lemma IngestStep(variant: Variant, docs: seq<Document>, i: nat, fields: seq<string>, embed: Embedder,
                    prefix: seq<Document>, acc: seq<Document>, p: Processed)
    requires i < |docs|
    requires Ingest(variant, docs[..i], fields, embed) == Batch(prefix, acc, false)
    requires p == EmbedDoc(variant, docs[i], fields, embed)
    ensures Ingest(variant, docs[..i + 1], fields, embed)
            == Batch(prefix + [p.doc], acc + (if p.verdict == Keep then [p.doc] else []), p.verdict == Abort)
  {
    assert docs[..i + 1][..i] == docs[..i];
  }

  /** No entry named `name` (with "" for a missing name) means no entry whose name key holds
      `name`. */
  lemma NoNameMeansNoEntry(entries: seq<IndexEntry>, name: string)
    requires !ScanForName(entries, name)
    ensures FirstNamed(entries, name).None?
  {
  }

  /** Deleting by `_id` 0 right after inserting the placeholder into an empty collection
      leaves it empty. */
  lemma PlaceholderDeleted()
    ensures DeleteFirst([Placeholder()], "_id", Num(0)) == []
  {
    assert HasField(Placeholder(), "_id", Num(0));
  }

  /** The fields mdb_toolkit.py's `keyword_search` returns. */
  const ListedFields: set<string> := {"_id", "name", "content", "meta_data"}

  /** `hybrid_search` narrows what `vector_search` returns for twice the limit: both succeed or
      raise together, and a hybrid result is drawn from the vector results, matches the keyword,
      is sorted by descending score, has min(limit, number of matching vector results) entries,
      and holds the best-scoring matching vector results. */
  lemma HybridWithinVectorSearch(c: CustomMongoClient, ns: Namespace, indexName: string, query: string, keyword: string, limit: int, ann: Vector -> seq<Hit>)
    ensures var h := c.HybridSearch(ns, indexName, query, keyword, limit, ann);
            var v := c.VectorSearch(ns, indexName, query, 2 * limit, ann);
            && (h.Ok? <==> v.Ok?)
            && (h.Ok? ==>
                  var matching := FilterHits(v.value, keyword);
                  && multiset(h.value) <= multiset(v.value)
                  && (forall x :: x in h.value ==> MatchesContent(x.doc, keyword))
                  && SortedDesc(h.value)
                  && |h.value| == (if limit <= 0 then 0 else Min(limit, |matching|))
                  && (forall x, y :: x in h.value && y in multiset(matching) - multiset(h.value) ==> y.score <= x.score))
  {
    var e := c.getEmbedding(Str(query));
    if !e.Raised? && c.IndexExistsOn(ns, indexName) && e.Embedded? {
      HybridPipelineProperties(ann(e.vector), keyword, limit);
    }
  }

  /** `keyword_search` in both copies: store order, the limit with 0 as "no limit", each result
      a matching document cut down to the projection's fields. */
  lemma KeywordSearchProperties(c: CustomMongoClient, ns: Namespace, query: string, limit: int, projection: Projection)
    requires projection == ExcludeEmbedding || projection == IncludeOnly(ListedFields)
    ensures var matching := FilterDocs(c.Docs(ns), query);
            var r := c.KeywordSearch(ns, query, limit, projection);
            && |r| == (if limit == 0 then |matching| else Min(if limit < 0 then -limit else limit, |matching|))
            && (forall i :: 0 <= i < |r| ==> r[i] == ApplyProjection(projection, matching[i]))
            && (forall i :: 0 <= i < |r| ==> MatchesContent(r[i], query))
            && (forall i :: 0 <= i < |r| ==> if projection == ExcludeEmbedding then "embedding" !in r[i] else r[i].Keys <= ListedFields)
  {
    KeywordCursorProperties(c.Docs(ns), query, limit, projection);
  }

  /** The corrected `vector_search` returns results whenever the index exists and the provider
      embeds the query, while the code as written never does. */
  lemma VectorSearchAsWrittenNeverSearches(c: CustomMongoClient, ns: Namespace, indexName: string, query: string, limit: int, ann: Vector -> seq<Hit>)
    requires c.IndexExistsOn(ns, indexName) && c.getEmbedding(Str(query)).Embedded?
    requires 0 < limit && ann(c.getEmbedding(Str(query)).vector) != []
    ensures c.VectorSearch(ns, indexName, query, limit, ann).Ok?
    ensures |c.VectorSearch(ns, indexName, query, limit, ann).value| > 0
    ensures c.VectorSearchAsWritten(ns, indexName, query, limit, ann).Err?
  {
  }
}

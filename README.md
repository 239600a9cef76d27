# mdb_toolkit in Dafny

A model of the MongoDB toolkit `mdb_toolkit` and proofs about it. The toolkit has two parts.

The first is `CustomMongoClient`, which exists in two copies: `mdb_toolkit/core.py` and the older `mdb_toolkit.py`. It wraps the driver with:
- search-index management: create the collection if it is missing, create a vector index, check that an index exists, check that it is READY, and poll until it is;
- document ingestion that writes `<field>_embedding` keys into the caller's dictionaries;
- keyword, vector and hybrid search pipelines.

The second is the multimodal retriever (`mdb_toolkit/InputHandler.py` and `mdb_toolkit/MultiModalRetriever.py`, copied in `scripts/MultiModalRetriever.py`). It does three things:
- parses S3 URIs;
- rewrites local files to S3 URIs;
- picks one of four input handlers, then stores one document per embedding vector.

The deployment is an in-memory store held in the fields of the client class:
- the documents of each collection, in store order;
- the search-index listing of each collection.

Pure code is written as functions with lemmas. Code that changes state is written as methods of classes:
- `CustomMongoClient`, whose methods change `collections` and `searchIndexes`;
- `MultiModalRetriever`, which calls the client's `insert_one`;
- `insert_documents`, which also writes into the caller's documents, modelled as an `array`.

Several calls go to code outside the model. Each is replaced by a parameter:
- The embedding provider is a function `Value -> EmbedOutcome`. Its result is `Embedded(v)`, `ReturnedNone` or `Raised`.
- The `$vectorSearch` stage is an oracle `ann: Vector -> seq<Hit>`. It returns the ranked candidates with integer scores.
- The S3 reads and PDF rendering are an `ObjectStore` of functions.
- The multimodal model is a function from images to vectors.
- The store's asynchronous index status is `observe: nat -> Listing`, the listing seen at each probe.

Files:
- `wrappers.dfy`: Option, Result, Outcome.
- `strings.dfy`: Python `split`, `join`, `startswith`, `endswith`, `[-1]`, ASCII `upper` and `lower`, case-insensitive containment.
- `documents.dfy`: values, documents, namespaces, index entries and definitions.
- `search_indexes.dfy`: `index_exists`, `is_index_ready`, `wait_for_index_ready`.
- `ingestion.dfy`: the decisions of `insert_documents` as functions.
- `search.dfy`: the search pipelines.
- `client.dfy`: the client class.
- `input_handler.dfy`: the handlers.
- `retriever.dfy`: the retriever class.

Where the two client copies share code, one member models both. The table cites one copy and names the other in the third column.

Points where the code behaves in a way worth knowing:
- Both copies search as soon as `index_exists` holds, whatever the index's status (core.py:269, mdb_toolkit.py:220). A PENDING index is searched too.
- The pipelines search the path `embedding`, but `insert_documents` stores `<field>_embedding` (core.py:285 vs 238) and the retriever stores `content_embedding`. The model keeps the paths as written. The oracle `ann` stands for whatever the store ranks.
- `vector_search` ignores its `filters` parameter. `hybrid_search` ignores its `distance_metric` parameter. The model has neither.

## Model

| member | source | states |
|---|---|---|
| Strings.Split | mdb_toolkit/InputHandler.py:32 | `str.split("/")` has one more piece than there are separators. |
| Strings.SplitPiecesFree | mdb_toolkit/InputHandler.py:32 | No piece of a split contains the separator. |
| Strings.SplitAfterPiece | mdb_toolkit/InputHandler.py:32 | A separator-free piece followed by the separator splits off as the first piece, ahead of the pieces of the rest. |
| Strings.JoinSplit | mdb_toolkit/InputHandler.py:33 | Joining the pieces of a split with the separator gives back the string. |
| Strings.SplitJoin | mdb_toolkit/InputHandler.py:33 | Splitting the join of separator-free pieces gives back the pieces. |
| Strings.LastSegment | mdb_toolkit/InputHandler.py:92 | `input.split("/")[-1]` is a suffix of the input without `/`, and a `/` precedes it unless it is the whole input. |
| Strings.LastSegmentIsLastPiece | mdb_toolkit/InputHandler.py:102 | That suffix is the last element of the split. |
| Strings.EndsWithLastSegment | mdb_toolkit/MultiModalRetriever.py:31 | A `.pdf` suffix ends a path exactly when it ends the path's last segment. |
| Strings.UpperCharIff | mdb_toolkit/core.py:155-157 | ASCII `upper` maps a character to a given capital exactly when it is that capital or its lower-case letter. |
| Strings.UpperIsReady | mdb_toolkit/core.py:155-157 | `status.upper() == "READY"` holds exactly for the five-letter spellings of "ready" in any case. |
| Documents.EmbeddingKeyInjective | mdb_toolkit/core.py:238 | Distinct fields get distinct `f"{field}_embedding"` keys. |
| SearchIndexes.ScanForName | mdb_toolkit/core.py:123-131 | The loop finds an entry exactly when some entry's `get("name", "")` equals the index name. |
| SearchIndexes.IndexExists | mdb_toolkit/core.py:117-138 | `index_exists` is true iff the listing succeeds and some entry has the name. An empty listing or any error gives false. Same code at mdb_toolkit.py:93-114. |
| SearchIndexes.FirstNamed | mdb_toolkit/core.py:153-154 | Gives the first entry whose `get("name")` equals the name, or says that no entry has it. |
| SearchIndexes.StatusIsReady | mdb_toolkit/core.py:155-157 | The status test `status.get("status", "").upper() == "READY"`. StatusIsReadyIff and UpperIsReady state what it accepts. |
| SearchIndexes.StatusIsReadyIff | mdb_toolkit/core.py:155-157 | The status test is a case-insensitive comparison with READY. A missing status (`get("status", "")`) fails it. |
| SearchIndexes.IsIndexReady | mdb_toolkit/core.py:149-171 | `is_index_ready` is true iff the listing succeeds and the first entry with the name has a READY status. No match or an error gives false. Same code at mdb_toolkit.py:120-142. |
| SearchIndexes.FirstEntryDecides | mdb_toolkit/core.py:153-161 | The first entry with the name decides. A later READY entry with the same name does not count. |
| SearchIndexes.ReadyImpliesExists | mdb_toolkit/core.py:149-171 | An index that `is_index_ready` accepts also passes `index_exists`. |
| SearchIndexes.WaitForIndexReady | mdb_toolkit/core.py:191-200 | Returns true iff some probe among the first `max_attempts` is READY. It stops at the first such probe, after as many sleeps as failed probes. Otherwise it makes exactly `max_attempts` probes and sleeps, and none for `max_attempts <= 0`. Same code at mdb_toolkit.py:155-164. |
| Ingestion.EmbedDocStrict | mdb_toolkit/core.py:229-245 | core.py's inner loop over the nominated fields: a missing field or a `None` embedding drops the document, a raise ends the outer loop, and each vector is written in place. Its properties are in EmbedDocFrame, EmbedDocKeepIff, EmbedDocNoAbort, EmbedDocKeptValues and StrictKeptHasEmbeddings. |
| Ingestion.EmbedDocLenient | mdb_toolkit.py:187-196 | mdb_toolkit.py's `for ... else` inner loop: a missing field is passed over, a `None` embedding drops the document, a raise ends the outer loop. Its properties are in EmbedDocFrame, EmbedDocKeepIff, EmbedDocNoAbort, EmbedDocKeptValues and LenientKeptHasEmbeddings. |
| Ingestion.EmbedDoc | mdb_toolkit/core.py:229-245 | Picks core.py's inner loop or mdb_toolkit.py's (lines 187-196). The lemmas below are stated for both through it. |
| Ingestion.EmbedDocWritesVectors | mdb_toolkit/core.py:229-243 | Whatever the verdict, every value the inner loop adds or changes is a vector. |
| Ingestion.EmbedDocFrame | mdb_toolkit/core.py:229-243 | The inner loop only adds keys. Every added key is the embedding key of a nominated field and holds a vector, also in a dropped or aborted document. Every other key keeps its value. |
| Ingestion.StrictKeptHasEmbeddings | mdb_toolkit/core.py:229-245 | A document that core.py keeps has every nominated field and a vector under each embedding key. |
| Ingestion.LenientKeptHasEmbeddings | mdb_toolkit.py:187-196 | A document that the for/else copy keeps has a vector under the embedding key of every nominated field it has. |
| Ingestion.EmbedDocKeepIff | mdb_toolkit/core.py:229-245 | Without key clashes, a document is kept iff it qualifies: in core.py every field is present and embeds to non-None, in mdb_toolkit.py (lines 187-196) every present field embeds to non-None. |
| Ingestion.EmbedDocNoAbort | mdb_toolkit/core.py:229-243 | A provider that never raises on the document's fields never ends the loop. |
| Ingestion.EmbedDocKeptValues | mdb_toolkit/core.py:229-245 | A kept document holds, under each embedding key, the vector the provider returned for that original field. |
| Ingestion.EmbedDocDecides | mdb_toolkit/core.py:227-245 | Without key clashes: a document is kept iff it qualifies. In core.py that means every field is present and embeds to non-None. In mdb_toolkit.py (lines 187-196) it means every present field embeds to non-None. A provider that never raises never ends the loop. A kept document holds the embedding of each original field. |
| Ingestion.Step | mdb_toolkit/core.py:227-246 | One pass of the outer loop adds exactly one dictionary to the caller's list, untouched once an exception has ended the loop. |
| Ingestion.Ingest | mdb_toolkit/core.py:226-246 | The outer loop yields one dictionary per input document, in order. The lemmas below state what it selects. |
| Ingestion.IngestSnoc | mdb_toolkit/core.py:227-246 | Ingesting one more document is one more pass of the loop over the earlier result. |
| Ingestion.StepAfterPrefix | mdb_toolkit/core.py:227-246 | After a prefix that has not raised, a pass behaves as it would without that prefix, its results appended to the prefix's. |
| Ingestion.EmbedEachAppend | mdb_toolkit/core.py:227-246 | Embedding documents one at a time distributes over concatenation. |
| Ingestion.IngestSelectsQualifying | mdb_toolkit/core.py:226-251 | When the provider never raises, `documents_to_insert` is exactly the qualifying documents in input order, each with its embeddings. Same for mdb_toolkit.py:186-199. |
| Ingestion.IngestAppend | mdb_toolkit/core.py:227-246 | Documents are judged independently: when `a` raises nothing, ingesting `a + c` gives the dictionaries and the selection for `a` followed by those for `c`, and raises iff `c` does. |
| Ingestion.IngestAbortedIff | mdb_toolkit/core.py:218-254 | The loop ends with an exception iff some document's inner loop raises. |
| Ingestion.IngestAbortsAt | mdb_toolkit/core.py:241-243 | A document whose inner loop raises ends the loop with that document. |
| Ingestion.IngestAbortStopsLoop | mdb_toolkit/core.py:218-254 | The caller's documents after the first one that raises are untouched. |
| Ingestion.IngestAfterAbort | mdb_toolkit/core.py:253-254 | Once a prefix has raised, the remaining documents are passed over and nothing more is selected. |
| Search.Take | mdb_toolkit/core.py:364 | `$limit n` keeps the first min(n, length) elements, and none for n <= 0. |
| Search.MatchesContent | mdb_toolkit/core.py:317 | The filter `{"content": {"$regex": ..., "$options": "i"}}`, also the `$match` stage at line 362: `content` is a string containing the keyword, ignoring case. The three lemmas below state its behaviour. |
| Search.MatchesContentFoldsCase | mdb_toolkit/core.py:317 | With the `i` option a keyword matches exactly when its lower-case spelling does. |
| Search.MatchesContentSubstring | mdb_toolkit/core.py:317 | A `content` string that contains the keyword verbatim matches it. |
| Search.MatchesContentEmpty | mdb_toolkit/core.py:317 | An empty keyword matches every document whose `content` is a string, and no other document. |
| Search.FilterHits | mdb_toolkit/core.py:362 | `$match` on `content` keeps exactly the matching candidates, with their multiplicities. |
| Search.FilterDocs | mdb_toolkit/core.py:316-318 | The `find` filter keeps exactly the matching documents, with their multiplicities. |
| Search.FilterDocsAppend | mdb_toolkit/core.py:316-318 | The filter keeps store order: filtering a concatenation filters each part in turn. |
| Search.InsertDesc | mdb_toolkit/core.py:363 | Inserting into a descending sequence keeps it sorted and adds exactly that element. |
| Search.SortDesc | mdb_toolkit/core.py:363 | `$sort {"score": -1}` returns a permutation of its input sorted by descending score. |
| Search.ProjectAll | mdb_toolkit/core.py:365 | `$project {"embedding": 0}` maps each candidate to itself without `embedding`. |
| Search.VectorStage | mdb_toolkit/core.py:278-290 | The vector pipeline returns min(limit, candidates) results. The i-th result is the i-th ranked candidate with its score and without `embedding`. Same pipeline at mdb_toolkit.py:229-241. |
| Search.FilterProjectCommute | mdb_toolkit/core.py:362-365 | Dropping `embedding` commutes with the `content` match. |
| Search.ProjectAllSorted | mdb_toolkit/core.py:363-365 | Dropping `embedding` keeps the score order. |
| Search.InsertProjectCommute | mdb_toolkit/core.py:363-365 | Dropping `embedding` commutes with sorted insertion. |
| Search.SortProjectCommute | mdb_toolkit/core.py:363-365 | Dropping `embedding` commutes with the `$sort` stage. |
| Search.TakeProjectCommute | mdb_toolkit/core.py:364-365 | Dropping `embedding` commutes with `$limit`. |
| Search.HybridPipeline | mdb_toolkit/core.py:351-366 | The hybrid aggregation stages after `$vectorSearch`: limit to twice the limit, `$match`, `$sort`, `$limit`, `$project`. HybridOverVectorStage and HybridPipelineProperties state what it returns. Same stages at mdb_toolkit.py:296-311. |
| Search.HybridOverVectorStage | mdb_toolkit/core.py:351-366 | The hybrid pipeline equals take, sort and filter applied to the vector pipeline's output for twice the limit. |
| Search.LeftBehind | mdb_toolkit/core.py:364 | What `$limit` leaves out of `a + b`, once `a` is kept, lies in `b`. |
| Search.TakeSortedKeepsBest | mdb_toolkit/core.py:363-364 | A prefix of a sorted sequence holds its best elements: no element after the prefix scores higher than a kept one. |
| Search.KeptAreBest | mdb_toolkit/core.py:363-364 | The first n of a sorted permutation of a sequence outscore everything of that sequence they leave out. |
| Search.TakePrefix | mdb_toolkit/core.py:363-364 | A prefix of a sorted sequence is sorted and drawn from it. |
| Search.TopMatches | mdb_toolkit/core.py:362-364 | Match, sort and limit give sorted results drawn from the matching candidates, min(limit, matching) of them, none outscored by a matching candidate left out. |
| Search.DrawnFromMatching | mdb_toolkit/core.py:362 | Anything drawn from the `$match` output is drawn from its input and matches the keyword. |
| Search.VectorStageDropsEmbedding | mdb_toolkit/core.py:278-290 | No result of the vector pipeline has `embedding`. |
| Search.HybridPipelineProperties | mdb_toolkit/core.py:351-366 | The hybrid results are drawn from the `2*limit` vector candidates and all match the keyword. They are sorted by descending score and number min(limit, matching candidates). They are the best-scoring matches, and none has `embedding`. Same pipeline at mdb_toolkit.py:296-311. |
| Search.ApplyProjection | mdb_toolkit.py:263 | A projection keeps the document's own values. `{"embedding": 0}` removes exactly that key, and an inclusion projection keeps only the listed keys. |
| Search.CursorLimit | mdb_toolkit/core.py:319 | `.limit(n)` keeps all elements for 0 and the first min(abs(n), length) otherwise. |
| Search.ProjectDocs | mdb_toolkit/core.py:318 | The projection is applied to each result in order. |
| Search.KeywordCursor | mdb_toolkit/core.py:316-319 | `find(filter, projection).limit(limit)` over the collection in store order, with core.py's projection or mdb_toolkit.py's (lines 259-270). KeywordCursorProperties states what it returns. |
| Search.KeywordCursorProperties | mdb_toolkit/core.py:314-325 | The keyword results are the first `limit` matching documents in store order (all of them for 0), each projected. Each still matches when `content` is kept. Each has only the allowed keys, and none has `embedding` in core.py. |
| MongoClient.DeleteFirst | mdb_toolkit/core.py:49 | `delete_one` removes at most one document. |
| MongoClient.DeleteFirstNoMatch | mdb_toolkit/core.py:49 | Without a matching document `delete_one` changes nothing. |
| MongoClient.DeleteFirstRemovesFirstMatch | mdb_toolkit/core.py:49 | `delete_one` removes exactly the first matching document and keeps the others in order. |
| MongoClient.Appended | mdb_toolkit/MultiModalRetriever.py:50-56 | Inserting documents one by one appends them to the collection and creates it if needed. An empty list changes nothing. |
| MongoClient.AppendedTwice | mdb_toolkit/MultiModalRetriever.py:64-68 | Two rounds of insertion equal one insertion of the concatenation. |
| MongoClient.Definition | mdb_toolkit/core.py:81-95 | The index definition covers path `embedding` with the measured dimension count and the requested similarity, in core.py's knnVector layout or mdb_toolkit.py's (lines 62-74) vector layout. |
| MongoClient.CustomMongoClient.ListCollectionNames | mdb_toolkit/core.py:41 | `list_collection_names()` lists exactly the collections of the database. |
| MongoClient.CustomMongoClient.ListSearchIndexes | mdb_toolkit/core.py:120 | The listing succeeds iff the collection exists, and then it is the collection's entries. |
| MongoClient.CustomMongoClient.InsertOne | mdb_toolkit/core.py:48 | `insert_one` appends the document to the collection and creates it if needed. Indexes are untouched. |
| MongoClient.CustomMongoClient.InsertMany | mdb_toolkit/core.py:248 | `insert_many` appends the batch in order. The driver refuses an empty batch, and the caller guards against it. |
| MongoClient.CustomMongoClient.DeleteOne | mdb_toolkit/core.py:49 | `delete_one` removes the first matching document of an existing collection. A missing collection stays missing. |
| MongoClient.CustomMongoClient.SubmitSearchIndex | mdb_toolkit/core.py:98 | `create_search_index` fails for a missing collection or a name already in use. Otherwise it appends one PENDING entry. |
| MongoClient.CustomMongoClient.CreateIfNotExists | mdb_toolkit/core.py:40-53 | Afterwards the collection exists. An existing one is unchanged. A new one is empty, because the placeholder is inserted and `_id` 0 is deleted. Indexes are untouched. Same code at mdb_toolkit.py:26-39. |
| MongoClient.CustomMongoClient.CreateSearchIndex | mdb_toolkit/core.py:70-106 | The collection exists afterwards. If the name is already listed, the call returns without consulting the provider. Otherwise a raising provider or a `None` sample is re-raised. Otherwise one PENDING entry is added, with dimension `len(get_embedding("sample text"))` and the requested metric. Same code at mdb_toolkit.py:52-87, where the provider is an argument. |
| MongoClient.CustomMongoClient.CreateSearchIndexTwice | mdb_toolkit/core.py:73-75 | Once a first call succeeds, a second call succeeds too, and at most one entry, carrying the name, was added in total. |
| MongoClient.CustomMongoClient.IndexExistsOn | mdb_toolkit/core.py:117-138 | `index_exists` on the current store: the collection exists and one of its entries has the name. |
| MongoClient.CustomMongoClient.EmbedFields | mdb_toolkit/core.py:229-243 | The inner `for field in fields_to_embed` loop gives the same dictionary and verdict as the specification function EmbedDoc. |
| MongoClient.CustomMongoClient.EmbedBatch | mdb_toolkit/core.py:227-245 | The outer loop leaves the caller's documents, the selected batch and the exception flag exactly as Ingest describes. |
| MongoClient.CustomMongoClient.InsertWith | mdb_toolkit/core.py:218-254 | The body shared by both `insert_documents`. A non-empty collection leaves everything unchanged. Otherwise the documents are embedded in place as Ingest describes. A non-empty batch is inserted unless an exception ended the loop. |
| MongoClient.CustomMongoClient.InsertDocuments | mdb_toolkit/core.py:218-254 | core.py's `insert_documents`, with missing fields dropping the document, stated by Ingest(Strict, ...). |
| MongoClient.CustomMongoClient.InsertDocumentsForElse | mdb_toolkit.py:177-205 | mdb_toolkit.py's `insert_documents`, with missing fields passed over, stated by Ingest(Lenient, ...). |
| MongoClient.CustomMongoClient.VectorSearch | mdb_toolkit.py:219-247 | The query is embedded first, and a raising provider raises out of the call. A missing index or a `None` embedding gives []. Otherwise the result is the vector pipeline over the oracle's ranking. This is mdb_toolkit.py's version, and core.py's once corrected. |
| MongoClient.CustomMongoClient.VectorSearchAsWritten | mdb_toolkit/core.py:268 | core.py's `vector_search` always ends in a NameError. |
| MongoClient.CustomMongoClient.HybridSearch | mdb_toolkit/core.py:341-372 | A raising provider raises. A missing index or a `None` embedding gives []. Same code at mdb_toolkit.py:286-317. |
| MongoClient.CustomMongoClient.KeywordSearch | mdb_toolkit/core.py:314-325 | At most `limit` results (for a non-zero limit), and no more than the matching documents of the collection. |
| MongoClient.NoNameMeansNoEntry | mdb_toolkit/core.py:73-75 | If `index_exists` finds no entry, no entry has the name key, so the store accepts the new index. |
| MongoClient.PlaceholderDeleted | mdb_toolkit/core.py:48-49 | Deleting `_id` 0 removes the placeholder just inserted. |
| MongoClient.NewIndexNotReady | mdb_toolkit/core.py:98 | Right after creation the index exists but is not ready, because the store lists it as pending. |
| MongoClient.IngestStep | mdb_toolkit/core.py:227-245 | One more pass of the outer loop extends the batch by one document's outcome. |
| MongoClient.BatchStep | mdb_toolkit/core.py:227-245 | After a pass that raises, the whole loop's result is the documents so far with the rest untouched. After any other pass, the batch is extended by that document's outcome. |
| MongoClient.HybridWithinVectorSearch | mdb_toolkit/core.py:341-366 | `hybrid_search` succeeds iff `vector_search` with twice the limit does. Its results are drawn from those vector results, match the keyword, and are sorted descending. They number min(limit, matching vector results) and are the best-scoring matches. |
| MongoClient.KeywordSearchProperties | mdb_toolkit.py:259-270 | In both copies, keyword results are the first `limit` matching documents (0 means all) in store order and still match. They have only `_id`, `name`, `content` and `meta_data` in mdb_toolkit.py, and no `embedding` in core.py. |
| MongoClient.VectorSearchAsWrittenNeverSearches | mdb_toolkit/core.py:268 | Where the corrected search returns results, core.py's as written raises. |
| InputHandlers.ParseMetadata | mdb_toolkit/InputHandler.py:30-38 | `s3_full_path` is the input. The bucket is piece [2] of the split and has no `/`. The key is pieces [3:] joined with `/`. Input that is too short fails with an index error. Same code at scripts/MultiModalRetriever.py:35-43. |
| InputHandlers.ParseTwoSlashes | mdb_toolkit/InputHandler.py:32-34 | With exactly two slashes the bucket is everything after the second slash and the key is empty, so `s3://b` names bucket `b` and key "". |
| InputHandlers.ParseFailsIff | mdb_toolkit/InputHandler.py:32 | Parsing fails exactly when the input has fewer than two slashes. |
| InputHandlers.ParseRoundTrip | mdb_toolkit/InputHandler.py:32-35 | With at least three slashes, the bucket is piece [2] and the key is pieces [3:] joined by `/`. The first three pieces, `/` and the key give back the input. Same code at scripts/MultiModalRetriever.py:37-40. |
| InputHandlers.SplitS3Uri | mdb_toolkit/InputHandler.py:32 | `s3://rest` splits into "s3:", "" and the pieces of rest. |
| InputHandlers.ParseS3Uri | mdb_toolkit/InputHandler.py:32-37 | `s3://bucket/key` parses into that bucket and that key when the bucket has no `/`. |
| InputHandlers.S3UriParses | mdb_toolkit/InputHandler.py:32 | Every `s3://` URI parses. |
| InputHandlers.LocalS3Uri | mdb_toolkit/InputHandler.py:92-94 | The rewritten path is an `s3://` URI. |
| InputHandlers.LocalS3UriParses | mdb_toolkit/InputHandler.py:101-104 | The rewritten URI parses into the handler's bucket and the input's last `/` segment. Same code at scripts/MultiModalRetriever.py:96-99 and 106-109. |
| InputHandlers.CreateInputProcessor | mdb_toolkit/MultiModalRetriever.py:23-34 | The dispatch picks each of the four handlers under exactly one combination of prefix and suffix. Same code at scripts/MultiModalRetriever.py:131-142. |
| InputHandlers.UpperCasePdfIsImage | mdb_toolkit/MultiModalRetriever.py:26 | The suffix test is case-sensitive, so `.PDF` goes to an image handler. |
| InputHandlers.PrefixTakesPrecedence | mdb_toolkit/MultiModalRetriever.py:25-29 | An `s3://` input gets an S3 handler whatever its suffix. |
| InputHandlers.RedispatchKeepsKind | mdb_toolkit/InputHandler.py:91-104 | A local file rewritten to its S3 URI goes to the S3 handler of the same kind. |
| InputHandlers.S3PdfPreprocess | mdb_toolkit/InputHandler.py:66-70 | The S3 PDF handler returns the page images of the parsed object with the parsed metadata. It fails iff parsing does. |
| InputHandlers.S3ImagePreprocess | mdb_toolkit/InputHandler.py:80-84 | The S3 image handler returns a one-element image list with the parsed metadata. Same code at scripts/MultiModalRetriever.py:85-89. |
| InputHandlers.Preprocess | mdb_toolkit/InputHandler.py:66-104 | The four handlers' `preprocess`. The local ones hand the rewritten URI to the S3 handler they extend. S3PdfPreprocess, S3ImagePreprocess, LocalPreprocessMetadata and DispatchedPreprocessSucceeds state what it returns. |
| InputHandlers.LocalPreprocessMetadata | mdb_toolkit/InputHandler.py:91-104 | A local handler reports its bucket and the file name as the object read, with one image for an image and the pages for a PDF. |
| InputHandlers.DispatchedPreprocessSucceeds | mdb_toolkit/MultiModalRetriever.py:65-66 | The handler that the dispatch picks never fails to parse its input. |
| Retriever.StoredDocument | mdb_toolkit/MultiModalRetriever.py:51-56 | A stored document has exactly the keys `s3_full_path`, `s3_bucket_name`, `s3_key` and `content_embedding`, copied from the metadata and the vector. |
| Retriever.StoredDocuments | mdb_toolkit/MultiModalRetriever.py:50-56 | One document per vector. |
| Retriever.StoredDocumentsAt | mdb_toolkit/MultiModalRetriever.py:50-56 | The i-th stored document is built from the i-th vector, so the order is kept. |
| Retriever.ConcatAppend | mdb_toolkit/MultiModalRetriever.py:64-68 | Collecting per-element documents distributes over concatenation of the elements. |
| Retriever.StoreStep | mdb_toolkit/MultiModalRetriever.py:50-56 | One more `insert_one` extends the appended documents by the next vector's document. |
| Retriever.EmbeddedDocumentsAppend | mdb_toolkit/MultiModalRetriever.py:64-68 | Inputs are handled in list order and each input's documents stay together. |
| Retriever.DocumentsForMetadata | mdb_toolkit/MultiModalRetriever.py:64-68 | Documents for an `s3://` input carry the input as full path. Those for a local file carry the retriever's bucket and the file name. |
| Retriever.MultiModalRetriever.StoreEmbedding | mdb_toolkit/MultiModalRetriever.py:47-57 | One `insert_one` per vector, in order, then True. Nothing else changes. Same code at scripts/MultiModalRetriever.py:155-165. |
| Retriever.MultiModalRetriever.MmEmbed | mdb_toolkit/MultiModalRetriever.py:59-70 | Every input's documents are appended in input order, then True. Same code at scripts/MultiModalRetriever.py:167-178. |
| Retriever.MultiModalRetriever.MmQueryAsWritten | mdb_toolkit/MultiModalRetriever.py:76-83 | `mm_query` as written always raises a TypeError. |
| Retriever.MultiModalRetriever.MmQuery | mdb_toolkit/MultiModalRetriever.py:73-84 | Corrected `mm_query`: at most `k` results in ranking order, without `embedding`. It raises iff the provider does. |
| Retriever.MmQueryAsWrittenNeverSearches | mdb_toolkit/MultiModalRetriever.py:76-83 | Where the corrected `mm_query` returns results, the code as written raises. |

## Left out

- The driver connection, authentication and wire protocol are left out. The store is an in-memory map.
- `$vectorSearch` ranking and `$meta` scores are left out. The ranking is an oracle, and scores are integers rather than floats. The oracle gives one ranking per query vector whatever the limit. The source asks for `numCandidates` equal to `limit` in `vector_search` (core.py:283) and `limit * 2` in `hybrid_search` (core.py:356), and an approximate search may rank differently for the two. `MongoClient.HybridWithinVectorSearch` relies on the single ranking.
- Key clashes are left out of the keep conditions. `Ingestion.EmbedDocKeepIff`, `EmbedDocNoAbort`, `EmbedDocKeptValues`, `EmbedDocDecides` and `IngestSelectsQualifying` assume `NoKeyClash`. Nothing is stated about which documents are kept when a nominated field is named like another nominated field's `<field>_embedding` key, where a written embedding changes what a later field reads. `EmbedDocFrame` and `EmbedDocWritesVectors` hold without that assumption.
- `$regex` semantics are left out. A pattern is matched as a literal substring, with ASCII case folding.
- `str.upper()` covers ASCII letters only.
- The tie order of `$sort` among equal scores is left out. The model fixes one order, and the properties use only sortedness and permutation.
- Search.CursorLimit: a negative `.limit(n)`, which the driver turns into one batch of at most abs(n), is taken as a limit of abs(n).
- MongoClient.CustomMongoClient.KeywordSearch: its own contract states only bounds. KeywordSearchProperties states the rest.
- MongoClient.DeleteFirst: its own contract states only the length. DeleteFirstNoMatch and DeleteFirstRemovesFirstMatch state which document goes.
- Retriever.StoredDocuments: its own contract states only the length. StoredDocumentsAt states the order.
- Strings.Split: its own contract states only the number of pieces. SplitPiecesFree and JoinSplit state the rest.
- Store-side errors other than a missing collection and a duplicate index name are left out: network errors, an `insert_many` failure, limits. These are the errors the `except` clauses swallow.
- Generation of `_id` on insert is left out.
- The scripts/MultiModalRetriever.py copy is modelled by the same members as mdb_toolkit's. Its code is identical.
- `upload_to_s3` (mdb_toolkit/InputHandler.py:9-22) is S3 I/O. The local handlers' upload is not modelled, and its result is ignored by the source as well.
- `_pdf_to_screenshots` and `_open_s3_image` (PDF rendering and image decoding) are oracles of the `ObjectStore`.
- `_create_embedding` (the voyage client) and the numpy conversion are an oracle from images to vectors.
- Logging and the length of `time.sleep` are left out. Only the numbers of probes and sleeps are modelled.
- `main()` in mdb_toolkit.py (line 320 on) is demo wiring and is left out.
- Python aliasing is left out. The same dictionary passed twice in `documents` is two array cells here.
- The `_id` and `score` keys that `$set` adds to result documents are left out. A hit's score is kept beside its document.

## Findings

| source | as written | input that shows it | evidently intended | confidence | as-written member | corrected member |
|---|---|---|---|---|---|---|
| mdb_toolkit/core.py:268 | `vector_search` calls a global `get_embedding` that core.py neither defines nor imports, so every call raises NameError. | any call, e.g. `vector_search("q", 5, "db", "c", "idx")` with an existing index and a working provider | use the client's `self.get_embedding`, as `hybrid_search` does at line 341 | high, not executed | MongoClient.CustomMongoClient.VectorSearchAsWritten, MongoClient.VectorSearchAsWrittenNeverSearches | MongoClient.CustomMongoClient.VectorSearch |
| mdb_toolkit/MultiModalRetriever.py:82 | `mm_query` passes `embedding_field=`, which neither `vector_search` accepts, so every call raises TypeError. The same line is at scripts/MultiModalRetriever.py:190. | any call, e.g. `mm_query("cat", 5)` | `vector_search` takes `embedding_field` as its `$vectorSearch` path, as the demos call it (scripts/demo_voyageai-multimodal.py:61 and 112, scripts/demo_voyageai.py:49 and 106), so the retriever's `content_embedding` documents are searched. The oracle `ann` ranks whatever path is searched, so MmQuery does not depend on the path. | high, not executed | Retriever.MultiModalRetriever.MmQueryAsWritten, Retriever.MmQueryAsWrittenNeverSearches | Retriever.MultiModalRetriever.MmQuery |

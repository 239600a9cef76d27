/** The values the client exchanges with the document store: documents (string-keyed maps),
    embedding vectors, search-index listing entries and index definitions. */
module Documents {
  import opened Wrappers

  /** An embedding vector; components are kept as integers, not floats. */
  type Vector = seq<int>

  /** A field value of a stored document. `Other` stands for every BSON value the client never
      inspects (nested documents, lists of tags, object ids, ...). */
  datatype Value = Str(text: string) | Num(n: int) | Bool(b: bool) | Vec(components: Vector) | Other(tag: nat)

  /** A document: a dictionary from field names to values. */
  type Document = map<string, Value>

  /** A collection, addressed by database name and collection name. */
  datatype Namespace = Namespace(database: string, collection: string)

  /** The definition sent with `create_search_index`, in the two layouts the two copies of the
      client use. */
  datatype IndexDefinition =
    | KnnVectorMapping(field: string, dimensions: nat, similarity: string)
    | VectorSearchField(path: string, numDimensions: nat, similarity: string)

  /** One entry of `list_search_indexes()`: the `name` and `status` keys may each be absent. */
  datatype IndexEntry = IndexEntry(name: Option<string>, status: Option<string>, definition: Option<IndexDefinition>)

  /** Errors the model distinguishes; each stands for a Python exception. */
  datatype Error =
    | NamespaceNotFound   // the store has no such collection
    | OperationFailure    // the store rejected an operation
    | ProviderError       // the embedding provider raised
    | TypeError           // len(None) on a failed probe embedding
    | IndexOutOfRange     // list index out of range
    | NameError           // a name that is not defined

  /** What one call of the embedding provider produces: a vector, `None`, or an exception. */
  datatype EmbedOutcome = Embedded(vector: Vector) | ReturnedNone | Raised

  /** The embedding provider `get_embedding`, applied to a field value or a query. */
  type Embedder = Value -> EmbedOutcome

  /** The field under which the embedding of `field` is stored: f"{field}_embedding". */
  function EmbeddingKey(field: string): (k: string)
    ensures |k| == |field| + 10 && k[..|field|] == field
  {
    field + "_embedding"
  }

  /** Different fields have different embedding keys. */
  lemma EmbeddingKeyInjective(f: string, g: string)
    ensures EmbeddingKey(f) == EmbeddingKey(g) ==> f == g
  {
    if EmbeddingKey(f) == EmbeddingKey(g) {
      assert f == EmbeddingKey(f)[..|f|];
      assert g == EmbeddingKey(g)[..|g|];
    }
  }
}

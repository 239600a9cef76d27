/** The per-document decisions of `insert_documents`, in its two versions:
    - Strict (mdb_toolkit/core.py): a missing nominated field or a `None` embedding drops the
      document;
    - Lenient (mdb_toolkit.py, the `for ... else` loop): a missing field is passed over, only a
      `None` embedding drops the document.
    In both, an exception from the provider leaves the whole loop (it is caught around the
    whole call), and embeddings are written into the caller's dictionary as they are computed,
    so a dropped document may keep the embeddings of its earlier fields. */
module Ingestion {
  import opened Documents

  datatype Variant = Strict | Lenient

  /** What the inner loop decided for one document. */
  datatype Verdict = Keep | Drop | Abort

  /** One document after the inner loop: the dictionary with the keys written so far, and the
      verdict. */
  datatype Processed = Processed(doc: Document, verdict: Verdict)

  /** The inner loop of mdb_toolkit/core.py, fields taken in order. */
  function EmbedDocStrict(doc: Document, fields: seq<string>, embed: Embedder): Processed
    decreases fields
  {
    if fields == [] then Processed(doc, Keep)
    else if fields[0] !in doc then Processed(doc, Drop)
    else
      match embed(doc[fields[0]])
      case Raised => Processed(doc, Abort)
      case ReturnedNone => Processed(doc, Drop)
      case Embedded(v) => EmbedDocStrict(doc[EmbeddingKey(fields[0]) := Vec(v)], fields[1..], embed)
  }

  /** The inner `for ... else` loop of mdb_toolkit.py: an absent field is simply passed over. */
  function EmbedDocLenient(doc: Document, fields: seq<string>, embed: Embedder): Processed
    decreases fields
  {
    if fields == [] then Processed(doc, Keep)
    else if fields[0] !in doc then EmbedDocLenient(doc, fields[1..], embed)
    else
      match embed(doc[fields[0]])
      case Raised => Processed(doc, Abort)
      case ReturnedNone => Processed(doc, Drop)
      case Embedded(v) => EmbedDocLenient(doc[EmbeddingKey(fields[0]) := Vec(v)], fields[1..], embed)
  }

  function EmbedDoc(variant: Variant, doc: Document, fields: seq<string>, embed: Embedder): Processed
  {
    match variant
    case Strict => EmbedDocStrict(doc, fields, embed)
    case Lenient => EmbedDocLenient(doc, fields, embed)
  }

  /** Every value the inner loop leaves changed or adds is a vector: the loop writes nothing else,
      whatever its verdict. */
  lemma {:induction false} EmbedDocWritesVectors(variant: Variant, doc: Document, fields: seq<string>, embed: Embedder)
    ensures var p := EmbedDoc(variant, doc, fields, embed);
            forall k :: k in p.doc ==> (k in doc && p.doc[k] == doc[k]) || p.doc[k].Vec?
    decreases fields
  {
    if fields != [] {
      var f0 := fields[0];
      if f0 !in doc && variant == Lenient {
        EmbedDocWritesVectors(variant, doc, fields[1..], embed);
      } else if f0 in doc && embed(doc[f0]).Embedded? {
        var doc' := doc[EmbeddingKey(f0) := Vec(embed(doc[f0]).vector)];
        EmbedDocWritesVectors(variant, doc', fields[1..], embed);
        assert EmbedDoc(variant, doc', fields[1..], embed) == EmbedDoc(variant, doc, fields, embed);
      }
    }
  }

  /** The inner loop only adds keys, and every key it writes is the embedding key of a
      nominated field and receives a vector; all other keys keep their values. */
  lemma {:induction false} EmbedDocFrame(variant: Variant, doc: Document, fields: seq<string>, embed: Embedder)
    ensures var p := EmbedDoc(variant, doc, fields, embed);
            && doc.Keys <= p.doc.Keys
            && (forall k :: k in p.doc && k !in doc ==> p.doc[k].Vec?)
            && (forall k :: k in p.doc && k !in doc ==> exists f :: f in fields && k == EmbeddingKey(f))
            && (forall k :: k in doc && (forall f :: f in fields ==> k != EmbeddingKey(f)) ==> p.doc[k] == doc[k])
            && (forall f :: f in fields && EmbeddingKey(f) in doc && doc[EmbeddingKey(f)].Vec? ==> p.doc[EmbeddingKey(f)].Vec?)
    decreases fields
  {
    EmbedDocWritesVectors(variant, doc, fields, embed);
    if fields != [] {
      var f0 := fields[0];
      var skip := f0 !in doc && variant == Lenient;
      if skip {
        EmbedDocFrame(variant, doc, fields[1..], embed);
      } else if f0 in doc && embed(doc[f0]).Embedded? {
        var doc' := doc[EmbeddingKey(f0) := Vec(embed(doc[f0]).vector)];
        EmbedDocFrame(variant, doc', fields[1..], embed);
        var p := EmbedDoc(variant, doc', fields[1..], embed);
        assert p == EmbedDoc(variant, doc, fields, embed);
        forall f | f in fields && EmbeddingKey(f) in doc && doc[EmbeddingKey(f)].Vec?
          ensures p.doc[EmbeddingKey(f)].Vec?
        {
          if f != f0 {
            EmbeddingKeyInjective(f, f0);
            assert f in fields[1..];
          } else if f0 !in fields[1..] {
            assert forall g :: g in fields[1..] ==> EmbeddingKey(f0) != EmbeddingKey(g) by {
              forall g | g in fields[1..] ensures EmbeddingKey(f0) != EmbeddingKey(g) {
                EmbeddingKeyInjective(f0, g);
              }
            }
          }
        }
        forall k | k in p.doc && k !in doc ensures exists f :: f in fields && k == EmbeddingKey(f) {
          if k == EmbeddingKey(f0) {
            assert f0 in fields;
          } else {
            var f :| f in fields[1..] && k == EmbeddingKey(f);
            assert f in fields;
          }
        }
      }
    }
  }

  /** Every nominated field of a document the core copy keeps is present, and its embedding key
      holds a vector. */
  lemma {:induction false} StrictKeptHasEmbeddings(doc: Document, fields: seq<string>, embed: Embedder)
    ensures var p := EmbedDocStrict(doc, fields, embed);
            p.verdict == Keep ==>
              forall f :: f in fields ==> f in p.doc && EmbeddingKey(f) in p.doc && p.doc[EmbeddingKey(f)].Vec?
    decreases fields
  {
    var p := EmbedDocStrict(doc, fields, embed);
    if fields != [] && p.verdict == Keep {
      var f0 := fields[0];
      var doc' := doc[EmbeddingKey(f0) := Vec(embed(doc[f0]).vector)];
      StrictKeptHasEmbeddings(doc', fields[1..], embed);
      EmbedDocFrame(Strict, doc', fields[1..], embed);
      assert p == EmbedDocStrict(doc', fields[1..], embed);
      forall f | f in fields ensures f in p.doc && EmbeddingKey(f) in p.doc && p.doc[EmbeddingKey(f)].Vec? {
        if f != f0 { assert f in fields[1..]; }
      }
    }
  }

  /** Every nominated field that the original document of the for/else copy has, is embedded in
      a document it keeps. */
  lemma {:induction false} LenientKeptHasEmbeddings(doc: Document, fields: seq<string>, embed: Embedder)
    ensures var p := EmbedDocLenient(doc, fields, embed);
            p.verdict == Keep ==>
              forall f :: f in fields && f in doc ==> EmbeddingKey(f) in p.doc && p.doc[EmbeddingKey(f)].Vec?
    decreases fields
  {
    var p := EmbedDocLenient(doc, fields, embed);
    if fields != [] && p.verdict == Keep {
      var f0 := fields[0];
      if f0 !in doc {
        LenientKeptHasEmbeddings(doc, fields[1..], embed);
        forall f | f in fields && f in doc ensures EmbeddingKey(f) in p.doc && p.doc[EmbeddingKey(f)].Vec? {
          assert f in fields[1..];
        }
      } else {
        var doc' := doc[EmbeddingKey(f0) := Vec(embed(doc[f0]).vector)];
        LenientKeptHasEmbeddings(doc', fields[1..], embed);
        EmbedDocFrame(Lenient, doc', fields[1..], embed);
        assert p == EmbedDocLenient(doc', fields[1..], embed);
        forall f | f in fields && f in doc ensures EmbeddingKey(f) in p.doc && p.doc[EmbeddingKey(f)].Vec? {
          if f != f0 { assert f in fields[1..]; }
        }
      }
    }
  }

  /** No nominated field is itself the embedding key of a nominated field, so writing an
      embedding never changes what a later field reads. */
  predicate NoKeyClash(fields: seq<string>)
  {
    forall f, g :: f in fields && g in fields ==> f != EmbeddingKey(g)
  }

  /** The clean keep condition of the core copy: every field present and embeddable. */
  predicate StrictQualifies(doc: Document, fields: seq<string>, embed: Embedder)
  {
    forall f :: f in fields ==> f in doc && embed(doc[f]).Embedded?
  }

  /** The clean keep condition of the for/else copy: every present field embeddable. */
  predicate LenientQualifies(doc: Document, fields: seq<string>, embed: Embedder)
  {
    forall f :: f in fields && f in doc ==> embed(doc[f]).Embedded?
  }

  predicate Qualifies(variant: Variant, doc: Document, fields: seq<string>, embed: Embedder)
  {
    match variant
    case Strict => StrictQualifies(doc, fields, embed)
    case Lenient => LenientQualifies(doc, fields, embed)
  }

  /** The provider raises for none of the document's nominated, present fields. */
  predicate NeverRaises(doc: Document, fields: seq<string>, embed: Embedder)
  {
    forall f :: f in fields && f in doc ==> !embed(doc[f]).Raised?
  }

  /** The later fields clash no more than all of them. */
  lemma TailNoClash(fields: seq<string>)
    requires fields != [] && NoKeyClash(fields)
    ensures NoKeyClash(fields[1..])
  {
    assert forall x :: x in fields[1..] ==> x in fields;
  }

  /** Without key clashes, writing the embedding of the first field changes nothing that the
      later fields read. */
  lemma WriteKeepsLaterFields(doc: Document, fields: seq<string>, v: Value)
    requires fields != [] && NoKeyClash(fields)
    ensures NoKeyClash(fields[1..])
    ensures var doc' := doc[EmbeddingKey(fields[0]) := v];
            forall f :: f in fields[1..] ==> (f in doc' <==> f in doc) && (f in doc ==> doc'[f] == doc[f])
  {
    assert forall x :: x in fields[1..] ==> x in fields;
    assert fields[0] in fields;
  }

  /** Without key clashes the inner loop keeps a document exactly when it qualifies. */
  lemma {:induction false} EmbedDocKeepIff(variant: Variant, doc: Document, fields: seq<string>, embed: Embedder)
    requires NoKeyClash(fields)
    ensures EmbedDoc(variant, doc, fields, embed).verdict == Keep <==> Qualifies(variant, doc, fields, embed)
    decreases fields
  {
    if fields != [] {
      var f0 := fields[0];
      assert forall f :: f in fields ==> f == f0 || f in fields[1..];
      TailNoClash(fields);
      if f0 !in doc && variant == Lenient {
        EmbedDocKeepIff(variant, doc, fields[1..], embed);
      } else if f0 in doc && embed(doc[f0]).Embedded? {
        var doc' := doc[EmbeddingKey(f0) := Vec(embed(doc[f0]).vector)];
        WriteKeepsLaterFields(doc, fields, Vec(embed(doc[f0]).vector));
        EmbedDocKeepIff(variant, doc', fields[1..], embed);
        assert EmbedDoc(variant, doc', fields[1..], embed) == EmbedDoc(variant, doc, fields, embed);
      }
    }
  }

  /** Without key clashes, a provider that never raises on the document's fields never makes
      the inner loop leave with an exception. */
  lemma {:induction false} EmbedDocNoAbort(variant: Variant, doc: Document, fields: seq<string>, embed: Embedder)
    requires NoKeyClash(fields)
    requires NeverRaises(doc, fields, embed)
    ensures EmbedDoc(variant, doc, fields, embed).verdict != Abort
    decreases fields
  {
    if fields != [] {
      var f0 := fields[0];
      assert forall f :: f in fields[1..] ==> f in fields;
      if f0 !in doc && variant == Lenient {
        EmbedDocNoAbort(variant, doc, fields[1..], embed);
      } else if f0 in doc && embed(doc[f0]).Embedded? {
        var doc' := doc[EmbeddingKey(f0) := Vec(embed(doc[f0]).vector)];
        WriteKeepsLaterFields(doc, fields, Vec(embed(doc[f0]).vector));
        EmbedDocNoAbort(variant, doc', fields[1..], embed);
        assert EmbedDoc(variant, doc', fields[1..], embed) == EmbedDoc(variant, doc, fields, embed);
      }
    }
  }

  /** Without key clashes a kept document carries, under each embedding key, the embedding of
      the original field. */
  lemma {:induction false} EmbedDocKeptValues(variant: Variant, doc: Document, fields: seq<string>, embed: Embedder)
    requires NoKeyClash(fields)
    ensures var p := EmbedDoc(variant, doc, fields, embed);
            p.verdict == Keep ==>
              forall f :: f in fields && f in doc ==>
                EmbeddingKey(f) in p.doc && embed(doc[f]).Embedded? && p.doc[EmbeddingKey(f)] == Vec(embed(doc[f]).vector)
    decreases fields
  {
    var p := EmbedDoc(variant, doc, fields, embed);
    if fields != [] && p.verdict == Keep {
      var f0 := fields[0];
      if f0 !in doc && variant == Lenient {
        TailNoClash(fields);
        EmbedDocKeptValues(variant, doc, fields[1..], embed);
        forall f | f in fields && f in doc
          ensures EmbeddingKey(f) in p.doc && embed(doc[f]).Embedded? && p.doc[EmbeddingKey(f)] == Vec(embed(doc[f]).vector)
        {
          assert f in fields[1..];
        }
      } else {
        var doc' := doc[EmbeddingKey(f0) := Vec(embed(doc[f0]).vector)];
        WriteKeepsLaterFields(doc, fields, Vec(embed(doc[f0]).vector));
        EmbedDocKeptValues(variant, doc', fields[1..], embed);
        EmbedDocFrame(variant, doc', fields[1..], embed);
        assert p == EmbedDoc(variant, doc', fields[1..], embed);
        forall f | f in fields && f in doc
          ensures EmbeddingKey(f) in p.doc && embed(doc[f]).Embedded? && p.doc[EmbeddingKey(f)] == Vec(embed(doc[f]).vector)
        {
          if f != f0 {
            assert f in fields[1..];
          } else if f0 !in fields[1..] {
            forall g | g in fields[1..] ensures EmbeddingKey(f0) != EmbeddingKey(g) {
              EmbeddingKeyInjective(f0, g);
            }
          } else {
            assert f0 in doc';
          }
        }
      }
    }
  }

  /** Without key clashes the inner loop keeps a document exactly when it qualifies; it leaves
      the loop with an exception only when the provider raises on a field it reaches; and the
      kept document carries, under each embedding key, the embedding of the original field. */
  lemma EmbedDocDecides(variant: Variant, doc: Document, fields: seq<string>, embed: Embedder)
    requires NoKeyClash(fields)
    ensures var p := EmbedDoc(variant, doc, fields, embed);
            && (p.verdict == Keep <==> Qualifies(variant, doc, fields, embed))
            && (NeverRaises(doc, fields, embed) ==> p.verdict != Abort)
            && (p.verdict == Keep ==>
                  forall f :: f in fields && f in doc ==>
                    EmbeddingKey(f) in p.doc && p.doc[EmbeddingKey(f)] == Vec(embed(doc[f]).vector))
  {
    EmbedDocKeepIff(variant, doc, fields, embed);
    if NeverRaises(doc, fields, embed) {
      EmbedDocNoAbort(variant, doc, fields, embed);
    }
    EmbedDocKeptValues(variant, doc, fields, embed);
  }

  /** The state of `insert_documents` after its outer loop has seen a prefix of the input: the
      caller's documents as modified so far, `documents_to_insert`, and whether an exception
      left the loop (after which nothing further is looked at or inserted). */
  datatype Batch = Batch(documents: seq<Document>, toInsert: seq<Document>, aborted: bool)

  /** The outer loop over the documents, defined on the last document so that it follows the
      loop's progress. */
  function Ingest(variant: Variant, docs: seq<Document>, fields: seq<string>, embed: Embedder): (b: Batch)
    ensures |b.documents| == |docs|
    decreases |docs|
  {
    if docs == [] then Batch([], [], false)
    else Step(variant, Ingest(variant, docs[..|docs| - 1], fields, embed), docs[|docs| - 1], fields, embed)
  }

  /** One pass of the outer loop: after an exception the document is passed over untouched;
      otherwise the inner loop runs on it and, when it keeps the document, it joins the
      documents to insert. */
  function Step(variant: Variant, b: Batch, doc: Document, fields: seq<string>, embed: Embedder): (r: Batch)
    ensures |r.documents| == |b.documents| + 1
  {
    if b.aborted then Batch(b.documents + [doc], b.toInsert, true)
    else
      var p := EmbedDoc(variant, doc, fields, embed);
      Batch(b.documents + [p.doc], b.toInsert + (if p.verdict == Keep then [p.doc] else []), p.verdict == Abort)
  }

  /** Ingesting one more document is one more pass. */
  lemma IngestSnoc(variant: Variant, docs: seq<Document>, doc: Document, fields: seq<string>, embed: Embedder)
    ensures Ingest(variant, docs + [doc], fields, embed) == Step(variant, Ingest(variant, docs, fields, embed), doc, fields, embed)
  {
    assert (docs + [doc])[..|docs|] == docs;
  }

  /** A pass after an unaborted prefix behaves as the pass without the prefix, with the
      prefix's documents in front. */
  lemma StepAfterPrefix(variant: Variant, ba: Batch, bc: Batch, doc: Document, fields: seq<string>, embed: Embedder)
    requires !ba.aborted
    ensures var r := Step(variant, bc, doc, fields, embed);
            Step(variant, Batch(ba.documents + bc.documents, ba.toInsert + bc.toInsert, bc.aborted), doc, fields, embed)
            == Batch(ba.documents + r.documents, ba.toInsert + r.toInsert, r.aborted)
  {
    var p := EmbedDoc(variant, doc, fields, embed);
    var extra := if p.verdict == Keep then [p.doc] else [];
    var d := if bc.aborted then doc else p.doc;
    assert (ba.documents + bc.documents) + [d] == ba.documents + (bc.documents + [d]);
    assert (ba.toInsert + bc.toInsert) + extra == ba.toInsert + (bc.toInsert + extra);
  }

  /** The documents that qualify, in input order. */
  function Qualifying(variant: Variant, docs: seq<Document>, fields: seq<string>, embed: Embedder): seq<Document>
    decreases |docs|
  {
    if docs == [] then []
    else
      var last := docs[|docs| - 1];
      Qualifying(variant, docs[..|docs| - 1], fields, embed) + (if Qualifies(variant, last, fields, embed) then [last] else [])
  }

  /** Each document as the inner loop leaves it. */
  function EmbedEach(variant: Variant, docs: seq<Document>, fields: seq<string>, embed: Embedder): seq<Document>
    decreases |docs|
  {
    if docs == [] then []
    else EmbedEach(variant, docs[..|docs| - 1], fields, embed) + [EmbedDoc(variant, docs[|docs| - 1], fields, embed).doc]
  }

  lemma EmbedEachAppend(variant: Variant, a: seq<Document>, b: seq<Document>, fields: seq<string>, embed: Embedder)
    ensures EmbedEach(variant, a + b, fields, embed) == EmbedEach(variant, a, fields, embed) + EmbedEach(variant, b, fields, embed)
    decreases |b|
  {
    if b != [] {
      var b' := b[..|b| - 1];
      assert (a + b)[..|a + b| - 1] == a + b';
      EmbedEachAppend(variant, a, b', fields, embed);
    } else {
      assert a + b == a;
    }
  }

  /** When no key clashes and the provider never raises, `insert_documents` leaves its loop
      normally and inserts, in input order, exactly the qualifying documents, each with its
      embeddings written in. */
  lemma {:induction false} IngestSelectsQualifying(variant: Variant, docs: seq<Document>, fields: seq<string>, embed: Embedder)
    requires NoKeyClash(fields)
    requires forall i :: 0 <= i < |docs| ==> NeverRaises(docs[i], fields, embed)
    ensures !Ingest(variant, docs, fields, embed).aborted
    ensures Ingest(variant, docs, fields, embed).toInsert == EmbedEach(variant, Qualifying(variant, docs, fields, embed), fields, embed)
    decreases |docs|
  {
    if docs != [] {
      var init := docs[..|docs| - 1];
      var last := docs[|docs| - 1];
      IngestSelectsQualifying(variant, init, fields, embed);
      EmbedDocDecides(variant, last, fields, embed);
      var q := Qualifying(variant, init, fields, embed);
      if Qualifies(variant, last, fields, embed) {
        EmbedEachAppend(variant, q, [last], fields, embed);
        assert EmbedEach(variant, [last], fields, embed) == [EmbedDoc(variant, last, fields, embed).doc] by {
          assert [last][..0] == [];
        }
      } else {
        assert q + [] == q;
      }
    }
  }

  /** Documents are judged one at a time: ingesting `a` then `c`, when `a` raises nothing,
      gives the documents of `a` followed by those of `c`, inserts what `a` inserts followed by
      what `c` inserts, and raises exactly when `c` does. */
  lemma {:induction false} IngestAppend(variant: Variant, a: seq<Document>, c: seq<Document>, fields: seq<string>, embed: Embedder)
    requires !Ingest(variant, a, fields, embed).aborted
    ensures var ba := Ingest(variant, a, fields, embed);
            var bc := Ingest(variant, c, fields, embed);
            Ingest(variant, a + c, fields, embed) == Batch(ba.documents + bc.documents, ba.toInsert + bc.toInsert, bc.aborted)
    decreases |c|
  {
    var ba := Ingest(variant, a, fields, embed);
    if c == [] {
      assert a + c == a;
      assert ba.documents + [] == ba.documents && ba.toInsert + [] == ba.toInsert;
    } else {
      var c' := c[..|c| - 1];
      var last := c[|c| - 1];
      assert a + c == (a + c') + [last];
      assert c == c' + [last];
      IngestAppend(variant, a, c', fields, embed);
      IngestSnoc(variant, a + c', last, fields, embed);
      IngestSnoc(variant, c', last, fields, embed);
      StepAfterPrefix(variant, ba, Ingest(variant, c', fields, embed), last, fields, embed);
    }
  }

  /** The loop reports an exception exactly when some document's inner loop raised. */
  lemma {:induction false} IngestAbortedIff(variant: Variant, docs: seq<Document>, fields: seq<string>, embed: Embedder)
    ensures Ingest(variant, docs, fields, embed).aborted <==>
            exists i :: 0 <= i < |docs| && EmbedDoc(variant, docs[i], fields, embed).verdict == Abort
    decreases |docs|
  {
    if docs != [] {
      var init := docs[..|docs| - 1];
      var last := |docs| - 1;
      IngestAbortedIff(variant, init, fields, embed);
      var bi := Ingest(variant, init, fields, embed);
      if bi.aborted {
        var i :| 0 <= i < |init| && EmbedDoc(variant, init[i], fields, embed).verdict == Abort;
        assert init[i] == docs[i];
      } else {
        assert forall i :: 0 <= i < last ==> docs[i] == init[i];
      }
    }
  }

  /** An exception at document `i` ends the loop there. */
  lemma IngestAbortsAt(variant: Variant, docs: seq<Document>, fields: seq<string>, embed: Embedder, i: nat)
    requires i < |docs| && EmbedDoc(variant, docs[i], fields, embed).verdict == Abort
    ensures Ingest(variant, docs[..i + 1], fields, embed).aborted
  {
    var pre := docs[..i + 1];
    assert pre[..i] == docs[..i] && pre[i] == docs[i];
  }

  /** An exception at document `i` leaves every later document of the caller untouched. */
  lemma IngestAbortStopsLoop(variant: Variant, docs: seq<Document>, fields: seq<string>, embed: Embedder, i: nat)
    requires i < |docs| && EmbedDoc(variant, docs[i], fields, embed).verdict == Abort
    ensures forall j :: i < j < |docs| ==> Ingest(variant, docs, fields, embed).documents[j] == docs[j]
  {
    IngestAbortsAt(variant, docs, fields, embed, i);
    IngestAfterAbort(variant, docs, i + 1, fields, embed);
    var prefix := Ingest(variant, docs[..i + 1], fields, embed).documents;
    var rest := docs[i + 1..];
    forall j | i < j < |docs| ensures (prefix + rest)[j] == docs[j] {
      assert (prefix + rest)[j] == rest[j - (i + 1)];
    }
  }

  /** Once a prefix aborts, the rest of the batch is passed over untouched and nothing more is
      selected. */
  lemma {:induction false} IngestAfterAbort(variant: Variant, docs: seq<Document>, k: nat, fields: seq<string>, embed: Embedder)
    requires k <= |docs|
    requires Ingest(variant, docs[..k], fields, embed).aborted
    ensures var a := Ingest(variant, docs[..k], fields, embed);
            Ingest(variant, docs, fields, embed) == Batch(a.documents + docs[k..], a.toInsert, true)
    decreases |docs|
  {
    if k < |docs| {
      var init := docs[..|docs| - 1];
      assert init[..k] == docs[..k];
      IngestAfterAbort(variant, init, k, fields, embed);
      assert docs[k..] == init[k..] + [docs[|docs| - 1]];
    } else {
      assert docs[..k] == docs;
    }
  }
}

/** The in-memory vector store (`MemoryVectorStore`,
    internal/storage/vector_store.go): a map from id to document. The
    similarity of a document to the query embedding is a parameter `score`
    (the cosine similarity, ordered as the Go `float32` comparison orders it);
    Go's random map iteration order is modelled by picking keys with `:|`, so
    every contract below holds for every iteration order. */
module MemoryStore {
  import opened Wrappers
  import opened Seqs
  import opened Models

  type Store = map<Uuid, Document>

  datatype StoreError =
    | IdGeneration          // uuid.NewUUID failed
    | AlreadyExists(id: Uuid)
    | NotFound(id: Uuid)

  /** The store after a write, the document as the caller sees it afterwards
      (its id filled in when it was `Nil`), and the error, if any. */
  datatype Outcome = Outcome(store: Store, doc: Document, err: Option<StoreError>)

  /** Every document is filed under its own, non-nil id. */
  ghost predicate WellKeyed(m: Store) {
    forall k :: k in m ==> m[k].id == k && k != Nil
  }

  function NewStore(): (m: Store)
    ensures WellKeyed(m) && |m| == 0
  {
    map[]
  }

  /** The id step shared by both writers: a nil id is replaced by a freshly
      generated one; `generated` is that UUID, or None when generation fails. */
  function AssignId(doc: Document, generated: Option<Uuid>): (r: Result<Document, StoreError>)
    requires generated.Some? ==> generated.value != Nil
    ensures r.Ok? ==> r.value.id != Nil
    ensures r.Ok? ==> r.value == doc.(id := r.value.id)
    ensures doc.id != Nil ==> r == Ok(doc)
    ensures r.Err? <==> doc.id == Nil && generated.None?
  {
    if doc.id != Nil then Ok(doc)
    else match generated
      case None => Err(IdGeneration)
      case Some(u) => Ok(doc.(id := u))
  }

  /** `AddDocument`: insert a document whose id is not yet taken. */
  function AddDocument(m: Store, doc: Document, generated: Option<Uuid>): (o: Outcome)
    requires generated.Some? ==> generated.value != Nil
    ensures o.err.Some? ==> o.store == m
    ensures o.err.None? <==> AssignId(doc, generated).Ok? && AssignId(doc, generated).value.id !in m
    ensures o.err.None? ==> o.doc.id !in m && o.store == m[o.doc.id := o.doc] && |o.store| == |m| + 1
    ensures doc.id != Nil && doc.id in m ==> o.err == Some(AlreadyExists(doc.id))
    ensures o.doc.id != Nil ==> o.doc == doc.(id := o.doc.id)
  {
    match AssignId(doc, generated)
    case Err(e) => Outcome(m, doc, Some(e))
    case Ok(d) =>
      if d.id in m then Outcome(m, d, Some(AlreadyExists(d.id)))
      else Outcome(m[d.id := d], d, None)
  }

  /** `UpsertDocument`: insert the document, replacing any with the same id. */
  function UpsertDocument(m: Store, doc: Document, generated: Option<Uuid>): (o: Outcome)
    requires generated.Some? ==> generated.value != Nil
    ensures o.err.Some? <==> doc.id == Nil && generated.None?
    ensures o.err.Some? ==> o.store == m
    ensures o.err.None? ==> o.doc.id != Nil && o.doc == doc.(id := o.doc.id)
    ensures o.err.None? ==> o.store == m[o.doc.id := o.doc]
    ensures o.err.None? ==> |o.store| == |m| + (if o.doc.id in m then 0 else 1)
  {
    match AssignId(doc, generated)
    case Err(e) => Outcome(m, doc, Some(e))
    case Ok(d) => Outcome(m[d.id := d], d, None)
  }

  /** `GetDocumentByID`. */
  function GetDocumentByID(m: Store, id: Uuid): (r: Result<Document, StoreError>)
    ensures r.Ok? <==> id in m
    ensures r.Ok? ==> r.value == m[id]
    ensures r.Err? ==> r.error == NotFound(id)
  {
    if id in m then Ok(m[id]) else Err(NotFound(id))
  }

  /** Both writers keep every document filed under its own id. */
  lemma WritersPreserveWellKeyed(m: Store, doc: Document, generated: Option<Uuid>)
    requires generated.Some? ==> generated.value != Nil
    requires WellKeyed(m)
    ensures WellKeyed(AddDocument(m, doc, generated).store)
    ensures WellKeyed(UpsertDocument(m, doc, generated).store)
  {
  }

  /** A successful write is read back unchanged, and leaves every other id as
      it was. */
  lemma ReadYourWrites(m: Store, doc: Document, generated: Option<Uuid>, other: Uuid)
    requires generated.Some? ==> generated.value != Nil
    ensures var o := AddDocument(m, doc, generated);
      o.err.None? ==>
        GetDocumentByID(o.store, o.doc.id) == Ok(o.doc)
        && (other != o.doc.id ==> GetDocumentByID(o.store, other) == GetDocumentByID(m, other))
    ensures var o := UpsertDocument(m, doc, generated);
      o.err.None? ==>
        GetDocumentByID(o.store, o.doc.id) == Ok(o.doc)
        && (other != o.doc.id ==> GetDocumentByID(o.store, other) == GetDocumentByID(m, other))
  {
  }

  /** Adding is not idempotent: adding the same identified document twice
      fails the second time and leaves the store as the first add left it. */
  lemma AddTwiceRejected(m: Store, doc: Document, generated: Option<Uuid>)
    requires doc.id != Nil
    requires generated.Some? ==> generated.value != Nil
    ensures var o := AddDocument(m, doc, generated);
      var o2 := AddDocument(o.store, doc, generated);
      o2.err == Some(AlreadyExists(doc.id)) && o2.store == o.store
  {
  }

  /** Upserting is idempotent: the second upsert of an identified document
      changes nothing, and of two upserts with the same id the later wins. */
  lemma UpsertIdempotent(m: Store, doc: Document, doc2: Document)
    requires doc.id != Nil && doc2.id == doc.id
    ensures var s1 := UpsertDocument(m, doc, None).store;
      UpsertDocument(s1, doc, None).store == s1
      && UpsertDocument(s1, doc2, None).store == m[doc.id := doc2]
  {
  }

  // ----- listing -----

  /** `keys` lists distinct ids of `m`, and `docs` holds their documents in
      the same order. */
  ghost predicate ListsKeys(m: Store, docs: seq<Document>, keys: seq<Uuid>) {
    |docs| == |keys|
    && (forall i :: 0 <= i < |keys| ==> keys[i] in m && docs[i] == m[keys[i]])
    && (forall i, j :: 0 <= i < j < |keys| ==> keys[i] != keys[j])
  }

  /** Collects, in some iteration order, the documents of the ids in `ids`
      that pass `p`. */
  method Collect(m: Store, ids: set<Uuid>, p: Document -> bool) returns (docs: seq<Document>, ghost keys: seq<Uuid>)
    requires ids <= m.Keys
    ensures ListsKeys(m, docs, keys)
    ensures forall k :: k in keys <==> k in ids && p(m[k])
    ensures forall i :: 0 <= i < |docs| ==> p(docs[i])
  {
    docs, keys := [], [];
    var rest := ids;
    while rest != {}
      invariant rest <= ids
      invariant ListsKeys(m, docs, keys)
      invariant forall i :: 0 <= i < |keys| ==> keys[i] !in rest && p(docs[i])
      invariant forall k :: k in keys <==> k in ids && k !in rest && p(m[k])
      decreases |rest|
    {
      var k :| k in rest;
      if p(m[k]) {
        docs, keys := docs + [m[k]], keys + [k];
      }
      rest := rest - {k};
    }
  }

  /** `GetAllDocuments`: every document exactly once, in map order. */
  method GetAllDocuments(m: Store) returns (docs: seq<Document>, ghost keys: seq<Uuid>)
    ensures ListsKeys(m, docs, keys)
    ensures |docs| == |m|
    ensures forall k :: k in m <==> k in keys
  {
    docs, keys := Collect(m, m.Keys, _ => true);
    DistinctCover(keys, m.Keys);
  }

  /** `GetFilteredDocuments`: a nil filter lists everything; otherwise each
      document passing the filter, exactly once. */
  method GetFilteredDocuments(m: Store, filter: Option<Document -> bool>) returns (docs: seq<Document>, ghost keys: seq<Uuid>)
    ensures ListsKeys(m, docs, keys)
    ensures forall k :: k in keys <==> k in m && (filter.None? || filter.value(m[k]))
    ensures filter.Some? ==> forall i :: 0 <= i < |docs| ==> filter.value(docs[i])
  {
    if filter.None? {
      docs, keys := GetAllDocuments(m);
    } else {
      docs, keys := Collect(m, m.Keys, filter.value);
    }
  }

  /** A duplicate-free listing of a set has exactly the set's size. */
  lemma {:induction false} DistinctCover(keys: seq<Uuid>, s: set<Uuid>)
    requires forall i, j :: 0 <= i < j < |keys| ==> keys[i] != keys[j]
    requires forall k :: k in keys <==> k in s
    ensures |keys| == |s|
    decreases |keys|
  {
    if |keys| > 0 {
      var last := keys[|keys| - 1];
      var init := keys[..|keys| - 1];
      forall k | k in init
        ensures k in s - {last}
      {
        var i :| 0 <= i < |init| && init[i] == k;
        assert keys[i] == k;
      }
      forall k | k in s - {last}
        ensures k in init
      {
        var i :| 0 <= i < |keys| && keys[i] == k;
        assert init[i] == k;
      }
      DistinctCover(init, s - {last});
    }
  }

  // ----- similarity search -----

  /** `docs` is sorted from most to least similar. */
  ghost predicate RankedDescending(docs: seq<Document>, score: Document -> int) {
    forall i, j :: 0 <= i < j < |docs| ==> score(docs[i]) >= score(docs[j])
  }

  /** The documents of `keys` are the `n` best-scoring ones among `ids`: sorted
      by decreasing score, and no id left out scores above any of them. */
  ghost predicate TopOf(m: Store, ids: set<Uuid>, score: Document -> int, n: int, docs: seq<Document>, keys: seq<Uuid>)
    requires ids <= m.Keys
  {
    ListsKeys(m, docs, keys)
    && |docs| == n
    && (forall i :: 0 <= i < |keys| ==> keys[i] in ids)
    && RankedDescending(docs, score)
    && (forall k, i :: k in ids && k !in keys && 0 <= i < |docs| ==> score(m[k]) <= score(docs[i]))
  }

  function Min(a: int, b: int): int {
    if a <= b then a else b
  }

  /** The loop state of the selection: `keys` are already taken, `rest` still
      competes, and everything taken scores at least as high as everything
      still competing. */
  ghost predicate Selecting(m: Store, ids: set<Uuid>, score: Document -> int, docs: seq<Document>, keys: seq<Uuid>, rest: set<Uuid>)
    requires ids <= m.Keys
  {
    rest <= ids
    && ListsKeys(m, docs, keys)
    && |keys| + |rest| == |ids|
    && (forall i :: 0 <= i < |keys| ==> keys[i] in ids && keys[i] !in rest)
    && (forall k :: k in ids ==> k in rest || k in keys)
    && RankedDescending(docs, score)
    && (forall k, i :: k in rest && 0 <= i < |docs| ==> score(m[k]) <= score(docs[i]))
  }

  /** Taking a best-scoring competitor keeps the selection state. */
  lemma SelectStep(m: Store, ids: set<Uuid>, score: Document -> int, docs: seq<Document>, keys: seq<Uuid>, rest: set<Uuid>, best: Uuid)
    requires ids <= m.Keys
    requires Selecting(m, ids, score, docs, keys, rest)
    requires best in rest && forall k :: k in rest ==> score(m[k]) <= score(m[best])
    ensures Selecting(m, ids, score, docs + [m[best]], keys + [best], rest - {best})
  {
    var docs', keys', rest' := docs + [m[best]], keys + [best], rest - {best};
    assert ListsKeys(m, docs', keys') by {
      forall i, j | 0 <= i < j < |keys'|
        ensures keys'[i] != keys'[j]
      {
        if j == |keys| {
          assert keys[i] !in rest;
        }
      }
    }
    assert RankedDescending(docs', score) by {
      forall i, j | 0 <= i < j < |docs'|
        ensures score(docs'[i]) >= score(docs'[j])
      {
        if j == |docs| {
          assert best in rest;
        }
      }
    }
  }

  /** The selection both searches share: score the candidates, sort them by
      decreasing score and keep the first `topK`. */
  method TopScoring(m: Store, ids: set<Uuid>, score: Document -> int, topK: nat) returns (docs: seq<Document>, ghost keys: seq<Uuid>)
    requires ids <= m.Keys
    ensures |docs| == Min(topK, |ids|)
    ensures RankedDescending(docs, score)
    ensures TopOf(m, ids, score, Min(topK, |ids|), docs, keys)
  {
    docs, keys := [], [];
    var rest := ids;
    while |docs| < topK && rest != {}
      invariant Selecting(m, ids, score, docs, keys, rest)
      invariant |docs| <= topK
      decreases |rest|
    {
      ArgMaxExists(rest, (k: Uuid) => if k in m then score(m[k]) else 0);
      var best :| best in rest && forall k :: k in rest ==> score(m[k]) <= score(m[best]);
      SelectStep(m, ids, score, docs, keys, rest, best);
      docs, keys := docs + [m[best]], keys + [best];
      rest := rest - {best};
    }
  }

  /** `SearchSimilar`: the `topK` documents most similar to the query. A
      negative `topK` makes Go's `make` panic unless the store is empty. */
  method SearchSimilar(m: Store, score: Document -> int, topK: int) returns (docs: seq<Document>, ghost keys: seq<Uuid>)
    requires topK >= 0 || |m| == 0
    ensures |m| == 0 ==> docs == []
    ensures |m| > 0 ==> TopOf(m, m.Keys, score, Min(topK, |m|), docs, keys)
  {
    if |m| == 0 {
      return [], [];
    }
    docs, keys := TopScoring(m, m.Keys, score, topK);
  }

  /** The ids of documents passing an optional filter. */
  function Matching(m: Store, filter: Option<Document -> bool>): (ids: set<Uuid>)
    ensures ids <= m.Keys
    ensures forall k :: k in ids <==> k in m && (filter.None? || filter.value(m[k]))
  {
    if filter.None? then m.Keys else set k | k in m && filter.value(m[k])
  }

  /** `SearchSimilarWithFilter`: filter first, then keep the `topK` most
      similar of the documents that pass. */
  method SearchSimilarWithFilter(m: Store, score: Document -> int, topK: int, filter: Option<Document -> bool>)
    returns (docs: seq<Document>, ghost keys: seq<Uuid>)
    requires topK >= 0 || |m| == 0
    ensures |m| == 0 ==> docs == []
    ensures |m| > 0 ==> TopOf(m, Matching(m, filter), score, Min(topK, |Matching(m, filter)|), docs, keys)
    ensures filter.Some? ==> forall i :: 0 <= i < |docs| ==> filter.value(docs[i])
  {
    if |m| == 0 {
      return [], [];
    }
    docs, keys := TopScoring(m, Matching(m, filter), score, topK);
  }

  /** The filtered search never returns a document the filter rejects and,
      when enough documents pass, always returns `topK` of them: filtering
      happens before the cut, so the memory store needs no widening retry. */
  lemma FilteredSearchFull(m: Store, score: Document -> int, topK: nat, filter: Option<Document -> bool>,
                           docs: seq<Document>, keys: seq<Uuid>)
    requires |Matching(m, filter)| >= topK
    requires TopOf(m, Matching(m, filter), score, Min(topK, |Matching(m, filter)|), docs, keys)
    ensures |docs| == topK
    ensures forall i :: 0 <= i < |docs| ==> docs[i] in m.Values && (filter.None? || filter.value(docs[i]))
  {
    forall i | 0 <= i < |docs|
      ensures docs[i] in m.Values && (filter.None? || filter.value(docs[i]))
    {
      assert keys[i] in Matching(m, filter);
    }
  }
}

/** The SQLite-backed document store (internal/storage/sqlite_vector_store.go):
    a `documents` table of (id, title, content) rows and a sqlite-vec
    `vec_documents` table of serialised embeddings, created on first insert
    with the dimension of that insert.

    SQL execution is replaced by maps. Every step that can fail in the Go code
    (UUID generation, each query, BEGIN, each statement, COMMIT) can be made to
    fail through the `Fault` parameter, one step per call. The vec0 virtual
    table is assumed to reject a blob whose length is not four times its
    declared dimension and a second row under an existing id. */
module SqliteStore {
  import opened Wrappers
  import opened Seqs
  import opened Models

  /** The length assumed before any table exists (the nomic-embed-text size). */
  const DefaultEmbeddingLength: int := 768

  datatype Row = Row(title: string, content: string)

  datatype VecTable = VecTable(dim: int, rows: map<Uuid, seq<bv8>>)

  /** `embeddingLength` is the field of `SQLiteVectorStore`; `vec` is None
      until `vec_documents` has been created. */
  datatype Store = Store(embeddingLength: int, documents: map<Uuid, Row>, vec: Option<VecTable>)

  /** The step of an operation that fails, if any. */
  datatype Fault =
    | NoFault
    | IdGenerationFails
    | CountQueryFails
    | TableCheckFails
    | CreateTableFails
    | BeginFails
    | MetadataWriteFails
    | VectorDeleteFails
    | VectorInsertFails
    | CommitFails

  datatype StoreError =
    | IdGeneration
    | EmbeddingLengthChange(from: int, to: int)
    | TableCheck
    | CreateTable
    | Begin
    | DuplicateId
    | MetadataWrite
    | VectorDelete
    | VectorWrite
    | DimensionMismatch
    | Commit

  /** The store after an operation, the caller's document after it (its id
      may have been filled in), and the error returned, if any. */
  datatype Outcome = Outcome(store: Store, doc: Document, err: Option<StoreError>)

  datatype Step = Step(store: Store, err: Option<StoreError>)

  /** `NewSQLiteVectorStore` after `initDB`, on a database file whose
      tables already hold `documents` and `vec` (both empty, and no vector
      table, for a new file). `CREATE TABLE IF NOT EXISTS` keeps what is
      there, and the recorded length is always the default, whatever the
      dimension of an existing vector table. A file whose tables agree with
      each other opens as a consistent store. */
  function NewStore(documents: map<Uuid, Row>, vec: Option<VecTable>): (st: Store)
    ensures st.embeddingLength == DefaultEmbeddingLength
    ensures st.documents == documents && st.vec == vec
    ensures Consistent(st) <==> TablesConsistent(documents, vec)
  {
    Store(DefaultEmbeddingLength, documents, vec)
  }

  /** The stored vectors, empty while there is no vector table. */
  function Vectors(st: Store): map<Uuid, seq<bv8>> {
    if st.vec.Some? then st.vec.value.rows else map[]
  }

  /** How the two tables of a database file written by this store relate:
      no document without a vector table, a vector for every document and a
      document for every vector, every vector of the table's dimension, and
      no Nil id. */
  ghost predicate TablesConsistent(documents: map<Uuid, Row>, vec: Option<VecTable>) {
    && (vec.None? ==> documents == map[])
    && (vec.Some? ==>
          && vec.value.rows.Keys == documents.Keys
          && forall id :: id in vec.value.rows ==> |vec.value.rows[id]| == 4 * vec.value.dim)
    && Nil !in documents
  }

  /** The invariant the operations maintain: consistent tables, and a
      recorded length that is the vector table's dimension (the table was
      created by this store value) or still the default (the file was
      reopened with its table already there). */
  ghost predicate Consistent(st: Store) {
    && TablesConsistent(st.documents, st.vec)
    && (st.vec.Some? ==> st.vec.value.dim == st.embeddingLength || st.embeddingLength == DefaultEmbeddingLength)
  }

  // ----- serializeFloat32Vector -----

  /** `binary.LittleEndian.PutUint32` of one float's bits. */
  function EncodeFloatBits(x: bv32): (b: seq<bv8>)
    ensures |b| == 4
  {
    [(x & 0xFF) as bv8, ((x >> 8) & 0xFF) as bv8, ((x >> 16) & 0xFF) as bv8, (x >> 24) as bv8]
  }

  /** Reading four little-endian bytes back as a float's bits. */
  function DecodeFloatBits(b: seq<bv8>): bv32
    requires |b| == 4
  {
    (b[0] as bv32) | ((b[1] as bv32) << 8) | ((b[2] as bv32) << 16) | ((b[3] as bv32) << 24)
  }

  lemma DecodeEncodeBits(x: bv32)
    ensures DecodeFloatBits(EncodeFloatBits(x)) == x
  {
  }

  lemma EncodeDecodeBits(b: seq<bv8>)
    requires |b| == 4
    ensures EncodeFloatBits(DecodeFloatBits(b)) == b
  {
  }

  /** `serializeFloat32Vector`: four bytes per element, bytes `[4i, 4i+4)`
      holding the little-endian bits of element `i`. */
  function SerializeFloat32Vector(v: seq<bv32>): (r: seq<bv8>)
    ensures |r| == 4 * |v|
    ensures forall i :: 0 <= i < |v| ==> r[4 * i .. 4 * i + 4] == EncodeFloatBits(v[i])
    decreases |v|
  {
    if |v| == 0 then []
    else
      var rest := SerializeFloat32Vector(v[1..]);
      var r := EncodeFloatBits(v[0]) + rest;
      assert forall i :: 1 <= i < |v| ==> r[4 * i .. 4 * i + 4] == rest[4 * (i - 1) .. 4 * (i - 1) + 4];
      r
  }

  /** How sqlite-vec reads a float32 blob back. */
  function DeserializeFloat32Vector(b: seq<bv8>): (v: seq<bv32>)
    requires |b| % 4 == 0
    ensures |v| == |b| / 4
    decreases |b|
  {
    if |b| == 0 then [] else [DecodeFloatBits(b[..4])] + DeserializeFloat32Vector(b[4..])
  }

  /** Serialisation loses nothing: the blob decodes to the same bit patterns. */
  lemma {:induction false} SerializeRoundTrip(v: seq<bv32>)
    ensures DeserializeFloat32Vector(SerializeFloat32Vector(v)) == v
    decreases |v|
  {
    if |v| > 0 {
      var r := SerializeFloat32Vector(v);
      assert r[..4] == EncodeFloatBits(v[0]);
      assert r[4..] == SerializeFloat32Vector(v[1..]);
      DecodeEncodeBits(v[0]);
      SerializeRoundTrip(v[1..]);
    }
  }

  /** Every blob of whole floats is the serialisation of exactly one vector. */
  lemma {:induction false} DeserializeRoundTrip(b: seq<bv8>)
    requires |b| % 4 == 0
    ensures SerializeFloat32Vector(DeserializeFloat32Vector(b)) == b
    decreases |b|
  {
    if |b| > 0 {
      var v := DeserializeFloat32Vector(b);
      assert v[1..] == DeserializeFloat32Vector(b[4..]);
      DeserializeRoundTrip(b[4..]);
      EncodeDecodeBits(b[..4]);
      assert b == b[..4] + b[4..];
    }
  }

  // ----- ensureVecTableExists -----

  /** `ensureVecTableExists`. The length guard fires only when the recorded
      length differs from both the new length and the default 768 and the
      document count (read successfully) is positive. The table is created,
      and the new length recorded, only if it does not exist yet. It runs
      outside any transaction, so its effects stay even when the caller's
      transaction later fails. */
  function EnsureVecTableExists(st: Store, embeddingLen: int, fault: Fault): (s: Step)
    ensures s.store.documents == st.documents
    ensures Vectors(s.store) == Vectors(st)
    ensures s.err.None? ==> s.store.vec.Some?
    ensures st.vec.Some? ==> s.store == st
    ensures st.vec.None? && s.err != Some(TableCheck) && s.err.Some? ==> s.store.vec.None?
    ensures (s.err == Some(EmbeddingLengthChange(st.embeddingLength, embeddingLen))) <==>
              (st.embeddingLength != embeddingLen && st.embeddingLength != DefaultEmbeddingLength
               && fault != CountQueryFails && |st.documents| > 0)
    ensures st.vec.None? && s.store.vec.Some? ==>
              s.store.embeddingLength == embeddingLen && s.store.vec.value == VecTable(embeddingLen, map[])
  {
    if st.embeddingLength != embeddingLen && st.embeddingLength != DefaultEmbeddingLength
       && fault != CountQueryFails && |st.documents| > 0 then
      Step(st, Some(EmbeddingLengthChange(st.embeddingLength, embeddingLen)))
    else if fault == TableCheckFails then
      Step(st, Some(TableCheck))
    else if st.vec.None? then
      var st1 := st.(embeddingLength := embeddingLen);
      if fault == CreateTableFails then Step(st1, Some(CreateTable))
      else Step(st1.(vec := Some(VecTable(embeddingLen, map[]))), None)
    else
      Step(st, None)
  }

  // ----- AddDocument / UpsertDocument -----

  /** The id step shared by both writers: a Nil id is replaced by a freshly
      generated one, unless generation fails. */
  function AssignId(doc: Document, generated: Uuid, fault: Fault): (r: Option<Document>)
    requires generated != Nil
    ensures r.None? <==> doc.id == Nil && fault == IdGenerationFails
    ensures r.Some? ==> r.value.id != Nil && r.value == doc.(id := r.value.id)
    ensures r.Some? && doc.id != Nil ==> r.value == doc
  {
    if doc.id == Nil then
      if fault == IdGenerationFails then None else Some(doc.(id := generated))
    else Some(doc)
  }

  /** The committed effect of a write: the metadata row and the vector blob
      stored under `id`, replacing whatever was there. */
  function WriteRow(s1: Store, id: Uuid, row: Row, bytes: seq<bv8>): (s2: Store)
    requires s1.vec.Some?
    ensures s2.embeddingLength == s1.embeddingLength
    ensures s2.documents == s1.documents[id := row]
    ensures s2.vec == Some(s1.vec.value.(rows := s1.vec.value.rows[id := bytes]))
  {
    s1.(documents := s1.documents[id := row], vec := Some(s1.vec.value.(rows := s1.vec.value.rows[id := bytes])))
  }

  /** `AddDocument`: plain INSERTs into both tables inside one transaction. */
  function AddDocument(st: Store, doc: Document, generated: Uuid, fault: Fault): (o: Outcome)
    requires generated != Nil
    ensures o.doc.id == Nil <==> doc.id == Nil && fault == IdGenerationFails
    ensures doc.id != Nil ==> o.doc == doc
    ensures o.doc == doc.(id := o.doc.id)
    ensures o.err.Some? ==> o.store.documents == st.documents && Vectors(o.store) == Vectors(st)
    ensures o.err.None? ==>
              && o.doc.id !in st.documents
              && o.store.documents == st.documents[o.doc.id := Row(doc.title, doc.content)]
              && Vectors(o.store) == Vectors(st)[o.doc.id := SerializeFloat32Vector(doc.embedding)]
    ensures doc.id != Nil && doc.id in st.documents ==> o.err.Some?
  {
    match AssignId(doc, generated, fault)
    case None => Outcome(st, doc, Some(IdGeneration))
    case Some(d) =>
      var ensured := EnsureVecTableExists(st, |d.embedding|, fault);
      if ensured.err.Some? then Outcome(ensured.store, d, ensured.err)
      else
        var s1 := ensured.store;
        var vt := s1.vec.value;
        var bytes := SerializeFloat32Vector(d.embedding);
        if fault == BeginFails then Outcome(s1, d, Some(Begin))
        else if d.id in s1.documents then Outcome(s1, d, Some(DuplicateId))
        else if fault == MetadataWriteFails then Outcome(s1, d, Some(MetadataWrite))
        else if |bytes| != 4 * vt.dim then Outcome(s1, d, Some(DimensionMismatch))
        else if d.id in vt.rows then Outcome(s1, d, Some(DuplicateId))
        else if fault == VectorInsertFails then Outcome(s1, d, Some(VectorWrite))
        else if fault == CommitFails then Outcome(s1, d, Some(Commit))
        else Outcome(WriteRow(s1, d.id, Row(d.title, d.content), bytes), d, None)
  }

  /** `UpsertDocument`: INSERT … ON CONFLICT DO UPDATE for the metadata, then
      DELETE and INSERT for the vector, all in one transaction. */
  function UpsertDocument(st: Store, doc: Document, generated: Uuid, fault: Fault): (o: Outcome)
    requires generated != Nil
    ensures o.doc.id == Nil <==> doc.id == Nil && fault == IdGenerationFails
    ensures doc.id != Nil ==> o.doc == doc
    ensures o.doc == doc.(id := o.doc.id)
    ensures o.err.Some? ==> o.store.documents == st.documents && Vectors(o.store) == Vectors(st)
    ensures o.err.None? ==>
              && o.store.documents == st.documents[o.doc.id := Row(doc.title, doc.content)]
              && Vectors(o.store) == Vectors(st)[o.doc.id := SerializeFloat32Vector(doc.embedding)]
  {
    match AssignId(doc, generated, fault)
    case None => Outcome(st, doc, Some(IdGeneration))
    case Some(d) =>
      var ensured := EnsureVecTableExists(st, |d.embedding|, fault);
      if ensured.err.Some? then Outcome(ensured.store, d, ensured.err)
      else
        var s1 := ensured.store;
        var vt := s1.vec.value;
        var bytes := SerializeFloat32Vector(d.embedding);
        if fault == BeginFails then Outcome(s1, d, Some(Begin))
        else if fault == MetadataWriteFails then Outcome(s1, d, Some(MetadataWrite))
        else if fault == VectorDeleteFails then Outcome(s1, d, Some(VectorDelete))
        else
          var remaining := vt.rows - {d.id};
          if |bytes| != 4 * vt.dim then Outcome(s1, d, Some(DimensionMismatch))
          else if fault == VectorInsertFails then Outcome(s1, d, Some(VectorWrite))
          else if fault == CommitFails then Outcome(s1, d, Some(Commit))
          else
            assert remaining[d.id := bytes] == vt.rows[d.id := bytes];
            Outcome(WriteRow(s1, d.id, Row(d.title, d.content), bytes), d, None)
  }

  /** Table creation alone keeps the store consistent. */
  lemma EnsurePreservesConsistency(st: Store, embeddingLen: int, fault: Fault)
    requires Consistent(st)
    ensures Consistent(EnsureVecTableExists(st, embeddingLen, fault).store)
  {
  }

  /** Writing one row, with a blob of the table's width, into both tables of a
      consistent store keeps it consistent. */
  lemma InsertKeepsConsistency(s1: Store, id: Uuid, row: Row, bytes: seq<bv8>)
    requires Consistent(s1) && s1.vec.Some? && id != Nil
    requires |bytes| == 4 * s1.vec.value.dim
    ensures Consistent(WriteRow(s1, id, row, bytes))
  {
    var vt := s1.vec.value;
    assert vt.rows[id := bytes].Keys == s1.documents[id := row].Keys;
  }

  /** How the store after `AddDocument` is built: untouched, only the
      table creation, or one `WriteRow` of a blob of the table's width. */
  lemma AddShape(st: Store, doc: Document, generated: Uuid, fault: Fault)
    requires generated != Nil
    ensures var o := AddDocument(st, doc, generated, fault);
            match AssignId(doc, generated, fault)
            case None => o.store == st
            case Some(d) =>
              var s1 := EnsureVecTableExists(st, |d.embedding|, fault).store;
              var bytes := SerializeFloat32Vector(d.embedding);
              || o.store == s1
              || (&& s1.vec.Some? && d.id != Nil && |bytes| == 4 * s1.vec.value.dim
                  && o.store == WriteRow(s1, d.id, Row(d.title, d.content), bytes))
  {
  }

  /** How the store after `UpsertDocument` is built: untouched, only the
      table creation, or one `WriteRow` of a blob of the table's width. */
  lemma UpsertShape(st: Store, doc: Document, generated: Uuid, fault: Fault)
    requires generated != Nil
    ensures var o := UpsertDocument(st, doc, generated, fault);
            match AssignId(doc, generated, fault)
            case None => o.store == st
            case Some(d) =>
              var s1 := EnsureVecTableExists(st, |d.embedding|, fault).store;
              var bytes := SerializeFloat32Vector(d.embedding);
              || o.store == s1
              || (&& s1.vec.Some? && d.id != Nil && |bytes| == 4 * s1.vec.value.dim
                  && o.store == WriteRow(s1, d.id, Row(d.title, d.content), bytes))
  {
  }

  /** `AddDocument` keeps the store consistent, whichever step fails. */
  lemma {:induction false} AddPreservesConsistency(st: Store, doc: Document, generated: Uuid, fault: Fault)
    requires generated != Nil
    requires Consistent(st)
    ensures Consistent(AddDocument(st, doc, generated, fault).store)
  {
    AddShape(st, doc, generated, fault);
    var a := AssignId(doc, generated, fault);
    if a.Some? {
      var d := a.value;
      EnsurePreservesConsistency(st, |d.embedding|, fault);
      var s1 := EnsureVecTableExists(st, |d.embedding|, fault).store;
      if AddDocument(st, doc, generated, fault).store != s1 {
        InsertKeepsConsistency(s1, d.id, Row(d.title, d.content), SerializeFloat32Vector(d.embedding));
      }
    }
  }

  /** `UpsertDocument` keeps the store consistent, whichever step fails. */
  lemma {:induction false} UpsertPreservesConsistency(st: Store, doc: Document, generated: Uuid, fault: Fault)
    requires generated != Nil
    requires Consistent(st)
    ensures Consistent(UpsertDocument(st, doc, generated, fault).store)
  {
    UpsertShape(st, doc, generated, fault);
    var a := AssignId(doc, generated, fault);
    if a.Some? {
      var d := a.value;
      EnsurePreservesConsistency(st, |d.embedding|, fault);
      var s1 := EnsureVecTableExists(st, |d.embedding|, fault).store;
      if UpsertDocument(st, doc, generated, fault).store != s1 {
        InsertKeepsConsistency(s1, d.id, Row(d.title, d.content), SerializeFloat32Vector(d.embedding));
      }
    }
  }

  /** Once the vector table exists its dimension, and the recorded embedding
      length, never change again. */
  lemma EmbeddingLengthFixedOnceCreated(st: Store, doc: Document, generated: Uuid, fault: Fault)
    requires generated != Nil
    requires st.vec.Some?
    ensures var a := AddDocument(st, doc, generated, fault).store;
      a.embeddingLength == st.embeddingLength && a.vec.Some? && a.vec.value.dim == st.vec.value.dim
    ensures var u := UpsertDocument(st, doc, generated, fault).store;
      u.embeddingLength == st.embeddingLength && u.vec.Some? && u.vec.value.dim == st.vec.value.dim
  {
    AddShape(st, doc, generated, fault);
    UpsertShape(st, doc, generated, fault);
  }

  /** Once the vector table exists, a document whose embedding length
      differs from the table's dimension is rejected, through the length
      guard or through the vector table's dimension check, and the store
      stays as it was. */
  lemma MismatchedEmbeddingRejected(st: Store, doc: Document, generated: Uuid, fault: Fault)
    requires generated != Nil
    requires st.vec.Some?
    requires |doc.embedding| != st.vec.value.dim
    ensures AddDocument(st, doc, generated, fault).err.Some?
    ensures AddDocument(st, doc, generated, fault).store == st
    ensures UpsertDocument(st, doc, generated, fault).err.Some?
    ensures UpsertDocument(st, doc, generated, fault).store == st
  {
  }

  /** A store that holds documents has its vector table. */
  lemma DocumentsNeedTable(st: Store)
    requires Consistent(st)
    requires |st.documents| > 0
    ensures st.vec.Some?
  {
    var k :| k in st.documents;
  }

  /** Writing a key twice leaves only the second value. */
  lemma OverwriteTwice<K, V>(m: map<K, V>, k: K, v1: V, v2: V)
    ensures m[k := v1][k := v2] == m[k := v2]
  {
  }

  /** Upserting twice under one id leaves one record there holding the
      second document's title, content and vector; every other record is as
      before. */
  lemma {:induction false} UpsertTwiceKeepsLast(st: Store, d1: Document, d2: Document, generated: Uuid)
    requires generated != Nil
    requires d1.id != Nil && d2.id == d1.id
    requires Consistent(st)
    requires st.vec.Some? ==> |d1.embedding| == st.vec.value.dim
    requires |d2.embedding| == |d1.embedding|
    ensures var o1 := UpsertDocument(st, d1, generated, NoFault);
      var o2 := UpsertDocument(o1.store, d2, generated, NoFault);
      && o1.err.None? && o2.err.None?
      && o2.store.documents == st.documents[d1.id := Row(d2.title, d2.content)]
      && Vectors(o2.store) == Vectors(st)[d1.id := SerializeFloat32Vector(d2.embedding)]
  {
    UpsertSucceeds(st, d1, generated);
    var o1 := UpsertDocument(st, d1, generated, NoFault);
    UpsertPreservesConsistency(st, d1, generated, NoFault);
    UpsertSucceeds(o1.store, d2, generated);
    var o2 := UpsertDocument(o1.store, d2, generated, NoFault);
    assert o1.doc.id == d1.id && o2.doc.id == d1.id;
    var r1, r2 := Row(d1.title, d1.content), Row(d2.title, d2.content);
    var b1, b2 := SerializeFloat32Vector(d1.embedding), SerializeFloat32Vector(d2.embedding);
    OverwriteTwice(st.documents, d1.id, r1, r2);
    OverwriteTwice(Vectors(st), d1.id, b1, b2);
  }

  /** An upsert under a non-Nil id whose embedding has the vector table's
      dimension succeeds when no step fails, and the vector table then has that
      length as its dimension. */
  lemma UpsertSucceeds(st: Store, doc: Document, generated: Uuid)
    requires generated != Nil
    requires doc.id != Nil
    requires Consistent(st)
    requires st.vec.Some? ==> |doc.embedding| == st.vec.value.dim
    ensures var o := UpsertDocument(st, doc, generated, NoFault);
      && o.err.None?
      && o.store.vec.Some? && o.store.vec.value.dim == |doc.embedding|
  {
    var ensured := EnsureVecTableExists(st, |doc.embedding|, NoFault);
    assert ensured.err.None? && ensured.store.vec.Some?;
    assert ensured.store.vec.value.dim == |doc.embedding|;
  }

  /** A fresh id with an embedding of the vector table's dimension is
      accepted by `AddDocument` when no step fails. */
  lemma AddFreshSucceeds(st: Store, doc: Document, generated: Uuid)
    requires generated != Nil
    requires Consistent(st)
    requires doc.id != Nil && doc.id !in st.documents
    requires st.vec.Some? ==> |doc.embedding| == st.vec.value.dim
    ensures AddDocument(st, doc, generated, NoFault).err.None?
  {
  }

  /** Reopening a file whose vector table has dimension `vt.dim` records
      the default length, yet a new document is accepted exactly when its
      embedding has the table's dimension, whatever that dimension is. */
  lemma ReopenedStoreFollowsTable(documents: map<Uuid, Row>, vt: VecTable, doc: Document, generated: Uuid)
    requires generated != Nil
    requires TablesConsistent(documents, Some(vt))
    requires doc.id != Nil && doc.id !in documents
    ensures var st := NewStore(documents, Some(vt));
      AddDocument(st, doc, generated, NoFault).err.None? <==> |doc.embedding| == vt.dim
  {
    var st := NewStore(documents, Some(vt));
    if |doc.embedding| == vt.dim {
      AddFreshSucceeds(st, doc, generated);
    } else {
      MismatchedEmbeddingRejected(st, doc, generated, NoFault);
    }
  }

  // ----- GetAllDocuments / GetFilteredDocuments -----

  /** A document as the listing and the KNN query rebuild it from a
      `documents` row: id, title and content only. */
  function Listed(id: Uuid, row: Row): Document {
    Document(id, row.title, row.content, map[], [])
  }

  /** The ids of `keys` in descending order, as `ORDER BY id DESC` lists them
      (the canonical UUID text is fixed-width lower-case hex, so text order is
      numeric order). */
  method SortedIdsDescending(keys: set<Uuid>) returns (ids: seq<Uuid>)
    ensures |ids| == |keys|
    ensures forall i, j :: 0 <= i < j < |ids| ==> ids[i] > ids[j]
    ensures forall k :: k in keys <==> k in ids
  {
    ids := [];
    var rest := keys;
    while rest != {}
      invariant Extracting(keys, ids, rest)
      decreases |rest|
    {
      var m := LargestId(rest);
      ExtractStep(keys, ids, rest, m);
      ids := ids + [m];
      rest := rest - {m};
    }
  }

  /** `m` is the largest id of `s`. */
  predicate IsLargestId(s: set<Uuid>, m: Uuid) {
    m in s && forall k :: k in s ==> k <= m
  }

  /** Every finite non-empty set of ids has a largest element. */
  lemma {:induction false} LargestIdExists(s: set<Uuid>)
    requires s != {}
    ensures exists m :: IsLargestId(s, m)
    decreases |s|
  {
    var x :| x in s;
    if s == {x} {
      assert IsLargestId(s, x);
    } else {
      LargestIdExists(s - {x});
      var m :| IsLargestId(s - {x}, m);
      var best := if x > m then x else m;
      forall k | k in s ensures k <= best {
        if k != x {
          assert k in s - {x};
        }
      }
      assert IsLargestId(s, best);
    }
  }

  /** The largest id of a non-empty set. */
  function LargestId(s: set<Uuid>): (m: Uuid)
    requires s != {}
    ensures m in s && forall k :: k in s ==> k <= m
  {
    LargestIdExists(s);
    var m :| IsLargestId(s, m);
    m
  }

  /** Selection sort's state: `ids` holds, in descending order, the keys
      already taken, every one of them above every key in `rest`, and the
      two together account for `keys`. */
  ghost predicate Extracting(keys: set<Uuid>, ids: seq<Uuid>, rest: set<Uuid>) {
    && |ids| + |rest| == |keys|
    && (forall i, j :: 0 <= i < j < |ids| ==> ids[i] > ids[j])
    && (forall k :: k in keys <==> k in ids || k in rest)
    && (forall i, k :: 0 <= i < |ids| && k in rest ==> ids[i] > k)
  }

  /** Moving the largest remaining key to the end of `ids` keeps the state. */
  lemma ExtractStep(keys: set<Uuid>, ids: seq<Uuid>, rest: set<Uuid>, m: Uuid)
    requires Extracting(keys, ids, rest)
    requires m in rest && forall k :: k in rest ==> k <= m
    ensures Extracting(keys, ids + [m], rest - {m})
    ensures |rest - {m}| < |rest|
  {
    var ids' := ids + [m];
    var rest' := rest - {m};
    assert |rest'| == |rest| - 1;
    forall i, j | 0 <= i < j < |ids'|
      ensures ids'[i] > ids'[j]
    {
      if j == |ids| {
        assert ids'[j] == m && ids'[i] == ids[i];
      }
    }
    forall k
      ensures k in keys <==> k in ids' || k in rest'
    {
      if k == m {
        assert ids'[|ids|] == m;
      }
    }
    forall i, k | 0 <= i < |ids'| && k in rest'
      ensures ids'[i] > k
    {
      if i == |ids| {
        assert k != m && k <= m;
      }
    }
  }

  /** `GetAllDocuments`: every stored row once, by descending id, without
      metadata or embedding. A failed query is logged and lists nothing, so
      the caller cannot tell it from an empty store. */
  method GetAllDocuments(st: Store, queryFails: bool) returns (docs: seq<Document>)
    ensures queryFails ==> docs == []
    ensures !queryFails ==> |docs| == |st.documents|
    ensures forall i, j :: 0 <= i < j < |docs| ==> docs[i].id > docs[j].id
    ensures forall i :: 0 <= i < |docs| ==>
              docs[i].id in st.documents && docs[i] == Listed(docs[i].id, st.documents[docs[i].id])
    ensures !queryFails ==> forall id :: id in st.documents ==> Listed(id, st.documents[id]) in docs
  {
    if queryFails {
      return [];
    }
    var ids := SortedIdsDescending(st.documents.Keys);
    docs := [];
    for i := 0 to |ids|
      invariant |docs| == i
      invariant forall j :: 0 <= j < i ==> docs[j] == Listed(ids[j], st.documents[ids[j]])
    {
      docs := docs + [Listed(ids[i], st.documents[ids[i]])];
    }
    ListingCovers(st, ids, docs);
  }

  /** Listing the rows under a descending enumeration of the ids lists
      every row once, in that order. */
  lemma ListingCovers(st: Store, ids: seq<Uuid>, docs: seq<Document>)
    requires forall j :: 0 <= j < |ids| ==> ids[j] in st.documents
    requires forall k :: k in st.documents ==> k in ids
    requires forall i, j :: 0 <= i < j < |ids| ==> ids[i] > ids[j]
    requires |docs| == |ids|
    requires forall j :: 0 <= j < |ids| ==> docs[j] == Listed(ids[j], st.documents[ids[j]])
    ensures forall i, j :: 0 <= i < j < |docs| ==> docs[i].id > docs[j].id
    ensures forall i :: 0 <= i < |docs| ==>
              docs[i].id in st.documents && docs[i] == Listed(docs[i].id, st.documents[docs[i].id])
    ensures forall id :: id in st.documents ==> Listed(id, st.documents[id]) in docs
  {
    assert forall j :: 0 <= j < |docs| ==> docs[j].id == ids[j];
    forall id | id in st.documents
      ensures Listed(id, st.documents[id]) in docs
    {
      var j :| 0 <= j < |ids| && ids[j] == id;
      assert docs[j] == Listed(id, st.documents[id]);
    }
  }

  /** `GetFilteredDocuments`: the listing itself without a filter, otherwise
      the listed documents the filter accepts, in listing order. */
  method GetFilteredDocuments(st: Store, filter: Option<Document -> bool>, queryFails: bool) returns (docs: seq<Document>)
    ensures queryFails ==> docs == []
    ensures filter.None? && !queryFails ==> |docs| == |st.documents|
    ensures forall i, j :: 0 <= i < j < |docs| ==> docs[i].id > docs[j].id
    ensures forall i :: 0 <= i < |docs| ==>
              && docs[i].id in st.documents
              && docs[i] == Listed(docs[i].id, st.documents[docs[i].id])
              && (filter.Some? ==> filter.value(docs[i]))
    ensures !queryFails ==>
              forall id :: id in st.documents && (filter.None? || filter.value(Listed(id, st.documents[id]))) ==>
                Listed(id, st.documents[id]) in docs
  {
    var all := GetAllDocuments(st, queryFails);
    if filter.None? {
      return all;
    }
    docs := Filter(all, filter.value);
    FilterIsSubsequence(all, filter.value);
    forall id | !queryFails && id in st.documents && filter.value(Listed(id, st.documents[id]))
      ensures Listed(id, st.documents[id]) in docs
    {
      FilterMembership(all, filter.value, Listed(id, st.documents[id]));
    }
    forall i | 0 <= i < |docs|
      ensures docs[i] in all
    {
      FilterMembership(all, filter.value, docs[i]);
    }
    FilteredStaysDescending(all, filter.value);
  }

  /** Filtering a list with strictly descending ids keeps them descending. */
  lemma {:induction false} FilteredStaysDescending(all: seq<Document>, p: Document -> bool)
    requires forall i, j :: 0 <= i < j < |all| ==> all[i].id > all[j].id
    ensures forall i, j :: 0 <= i < j < |Filter(all, p)| ==> Filter(all, p)[i].id > Filter(all, p)[j].id
    decreases |all|
  {
    if |all| > 0 {
      FilteredStaysDescending(all[1..], p);
      var rest := Filter(all[1..], p);
      forall j | 0 <= j < |rest|
        ensures rest[j].id < all[0].id
      {
        FilterMembership(all[1..], p, rest[j]);
      }
    }
  }
}

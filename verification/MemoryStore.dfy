/**
 The memory store's four tables and the ingest of a batch of documents: one savepoint per document, one commit
 for the batch, any statement of which may fail.
 */
module MemoryStore {
  import opened Basics
  import opened Options

  type Vector = seq<real>

  datatype Metadata = Metadata(
    title: Option<string>, sourceType: string, sourcePath: Option<string>, provenance: Option<string>,
    publishedAt: Option<string>)

  datatype DocumentRow = DocumentRow(metadata: Metadata, contentHash: string)

  datatype Chunk = Chunk(number: int, text: string)

  datatype Source = Source(docId: string, metadata: Metadata, contentHash: string, chunks: seq<Chunk>)

  datatype ChunkRow = ChunkRow(docId: string, number: int, text: string)

  datatype Tables = Tables(
    documents: map<string, DocumentRow>, chunks: map<nat, ChunkRow>, vec: map<nat, Vector>, fts: map<nat, string>)

  const VALID_SOURCE_TYPES: set<string> := {"document", "chatgpt_conversation", "news"}

  // ---- the tables in step ----

  /** The public chunk id is made of the document id and the chunk's number. */
  predicate SameChunkId(a: ChunkRow, b: ChunkRow) {
    a.docId == b.docId && a.number == b.number
  }

  /** One id space: every chunk has its document, its vector row and its full-text row; (document, number) is unique. */
  ghost predicate InStep(t: Tables) {
    && t.vec.Keys == t.chunks.Keys && t.fts.Keys == t.chunks.Keys
    && (forall i :: i in t.chunks ==> t.fts[i] == t.chunks[i].text && t.chunks[i].docId in t.documents)
    && UniqueIds(t.chunks)
  }

  ghost predicate UniqueIds(chunks: map<nat, ChunkRow>) {
    forall i, j :: i in chunks && j in chunks && SameChunkId(chunks[i], chunks[j]) ==> i == j
  }

  /** Every vector is the one of its own chunk's text. */
  ghost predicate OwnVectors(t: Tables, embed: string -> Vector) {
    forall i :: i in t.chunks && i in t.vec ==> t.vec[i] == embed(t.chunks[i].text)
  }

  /** All that is stored under a document id. */
  datatype Stored = Stored(number: int, text: string, vector: Option<Vector>, indexed: Option<string>)

  function RowOf(t: Tables, docId: string): Option<DocumentRow> {
    if docId in t.documents then Some(t.documents[docId]) else None
  }

  function StoredAt(t: Tables, i: nat): Stored
    requires i in t.chunks
  {
    Stored(t.chunks[i].number, t.chunks[i].text, if i in t.vec then Some(t.vec[i]) else None,
           if i in t.fts then Some(t.fts[i]) else None)
  }

  function ChunksOf(t: Tables, docId: string): map<nat, Stored> {
    map i | i in t.chunks && t.chunks[i].docId == docId :: StoredAt(t, i)
  }

  /** Nothing stored under the id differs: row, chunk ids, texts, vectors, index entries. */
  ghost predicate Same(a: Tables, b: Tables, docId: string) {
    RowOf(a, docId) == RowOf(b, docId) && ChunksOf(a, docId) == ChunksOf(b, docId)
  }

  /** The store holds exactly this document, each chunk with the given vector. */
  ghost predicate Holds(t: Tables, d: Source, vectors: seq<Vector>) {
    && RowOf(t, d.docId) == Some(DocumentRow(d.metadata, d.contentHash)) && |vectors| == |d.chunks|
    && exists first: nat :: HoldsFrom(t, d, vectors, first)
  }

  ghost predicate HoldsFrom(t: Tables, d: Source, vectors: seq<Vector>, first: nat)
    requires |vectors| == |d.chunks|
  {
    && (forall i :: i in t.chunks ==> (t.chunks[i].docId == d.docId <==> first <= i < first + |d.chunks|))
    && (forall k: nat :: k < |d.chunks| ==> HoldsChunk(t, d, vectors, first, k))
  }

  predicate HoldsChunk(t: Tables, d: Source, vectors: seq<Vector>, first: nat, k: nat)
    requires k < |d.chunks| == |vectors|
  {
    first + k in t.chunks && t.chunks[first + k].docId == d.docId
    && StoredAt(t, first + k) == Stored(d.chunks[k].number, d.chunks[k].text, Some(vectors[k]), Some(d.chunks[k].text))
  }

  // ---- the writes ----

  /** `DELETE` of the vectors, the chunks (and by trigger their index entries) and the document. */
  function Deleted(t: Tables, docId: string): Tables {
    Tables(t.documents - {docId},
           map i | i in t.chunks && t.chunks[i].docId != docId :: t.chunks[i],
           map i | i in t.vec && !(i in t.chunks && t.chunks[i].docId == docId) :: t.vec[i],
           map i | i in t.fts && !(i in t.chunks && t.chunks[i].docId == docId) :: t.fts[i])
  }

  /** One chunk row, and by trigger its index entry. */
  function WithChunk(t: Tables, i: nat, d: Source, c: Chunk): Tables {
    t.(chunks := t.chunks[i := ChunkRow(d.docId, c.number, c.text)], fts := t.fts[i := c.text])
  }

  /** The first `n` chunk rows of a document, under ids from `first`. */
  function WithChunks(t: Tables, first: nat, d: Source, n: nat): Tables
    requires n <= |d.chunks|
  {
    if n == 0 then t else WithChunk(WithChunks(t, first, d, n - 1), first + n - 1, d, d.chunks[n - 1])
  }

  function WithVectors(t: Tables, first: nat, vectors: seq<Vector>, n: nat): Tables
    requires n <= |vectors|
  {
    if n == 0 then t
    else
      var shorter := WithVectors(t, first, vectors, n - 1);
      shorter.(vec := shorter.vec[first + n - 1 := vectors[n - 1]])
  }

  /** The document replaced: as many chunks as there are vectors for, under ids past every id left in the table. */
  function Replaced(t: Tables, d: Source, vectors: seq<Vector>, first: nat): Tables {
    var bare := Deleted(t, d.docId);
    var inserted := bare.(documents := bare.documents[d.docId := DocumentRow(d.metadata, d.contentHash)]);
    var n := Min(|d.chunks|, |vectors|);
    WithVectors(WithChunks(inserted, first, d, n), first, vectors, n)
  }

  function Renamed(t: Tables, d: Source): Tables {
    if d.docId in t.documents
    then t.(documents := t.documents[d.docId := t.documents[d.docId].(metadata := d.metadata)])
    else t
  }

  predicate Past(ids: set<nat>, first: nat) {
    forall i :: i in ids ==> i < first
  }

  predicate DistinctNumbers(chunks: seq<Chunk>, n: nat)
    requires n <= |chunks|
  {
    forall i, j :: 0 <= i < j < n ==> chunks[i].number != chunks[j].number
  }

  /** A row for the document and rows for as many of its chunks as there are vectors are allowed by the schema. */
  predicate Writable(d: Source, vectors: nat) {
    d.metadata.sourceType in VALID_SOURCE_TYPES && DistinctNumbers(d.chunks, Min(|d.chunks|, vectors))
  }

  /** One of the calls `lo .. hi` fails. */
  ghost predicate Broken(fails: nat -> bool, lo: nat, hi: nat) {
    exists k: nat :: lo <= k < hi && fails(k)
  }

  class Store {
    var tables: Tables
    var calls: nat
    const fails: nat -> bool

    constructor (fails: nat -> bool)
      ensures tables == Tables(map[], map[], map[], map[]) && calls == 0 && this.fails == fails
    {
      tables, calls := Tables(map[], map[], map[], map[]), 0;
      this.fails := fails;
    }

    method Call() returns (ok: bool)
      modifies this`calls
      ensures calls == old(calls) + 1 && (ok <==> !fails(old(calls)))
    {
      ok := !fails(calls);
      calls := calls + 1;
    }

    /** `SELECT COALESCE(MAX(id), 0) FROM chunks`. */
    method MaxId() returns (m: nat)
      ensures Past(tables.chunks.Keys, m + 1) && (m == 0 || m in tables.chunks)
    {
      m := 0;
      var rest := tables.chunks.Keys;
      while rest != {}
        invariant rest <= tables.chunks.Keys && (m == 0 || m in tables.chunks)
        invariant forall i :: i in tables.chunks && i !in rest ==> i <= m
        decreases |rest|
      {
        var i :| i in rest;
        rest := rest - {i};
        if m < i {
          m := i;
        }
      }
    }

    /** The three statements of a removal. When one fails, those before it have happened. */
    method DeleteDocument(docId: string) returns (ok: bool, existed: bool)
      modifies this
      ensures ok ==> tables == Deleted(old(tables), docId) && existed == (docId in old(tables).documents)
      ensures old(calls) <= calls && (ok <==> !Broken(fails, old(calls), calls))
    {
      existed := docId in tables.documents;
      ok := Call();
      if !ok {
        return;
      }
      ghost var t := tables;
      tables := tables.(vec := map i | i in tables.vec && !(i in tables.chunks && tables.chunks[i].docId == docId) :: tables.vec[i]);
      ok := Call();
      if !ok {
        return;
      }
      tables := tables.(chunks := map i | i in tables.chunks && tables.chunks[i].docId != docId :: tables.chunks[i],
                        fts := map i | i in tables.fts && !(i in tables.chunks && tables.chunks[i].docId == docId) :: tables.fts[i]);
      ok := Call();
      if !ok {
        return;
      }
      tables := tables.(documents := tables.documents - {docId});
    }

    method InsertDocument(d: Source) returns (ok: bool)
      modifies this
      ensures old(calls) <= calls && (ok <==> d.metadata.sourceType in VALID_SOURCE_TYPES && !Broken(fails, old(calls), calls))
      ensures ok ==> tables == old(tables).(documents := old(tables).documents[d.docId := DocumentRow(d.metadata, d.contentHash)])
    {
      if d.metadata.sourceType !in VALID_SOURCE_TYPES {
        return false;
      }
      ok := Call();
      if ok {
        tables := tables.(documents := tables.documents[d.docId := DocumentRow(d.metadata, d.contentHash)]);
      }
    }

    /** The first `n` chunk rows; a repeated chunk number breaks the uniqueness of the chunk id. */
    method InsertRows(d: Source, next: nat, n: nat) returns (ok: bool)
      requires n <= |d.chunks|
      modifies this
      ensures ok ==> tables == WithChunks(old(tables), next, d, n)
      ensures old(calls) <= calls && (ok <==> DistinctNumbers(d.chunks, n) && !Broken(fails, old(calls), calls))
    {
      ok := true;
      for k := 0 to n
        invariant ok && tables == WithChunks(old(tables), next, d, k) && DistinctNumbers(d.chunks, k)
        invariant old(calls) <= calls && !Broken(fails, old(calls), calls)
      {
        ok := Call();
        if !ok || exists j :: 0 <= j < k && d.chunks[j].number == d.chunks[k].number {
          return false;
        }
        tables := WithChunk(tables, next + k, d, d.chunks[k]);
      }
    }

    method InsertVectors(vectors: seq<Vector>, next: nat, n: nat) returns (ok: bool)
      requires n <= |vectors|
      modifies this
      ensures ok ==> tables == WithVectors(old(tables), next, vectors, n)
      ensures old(calls) <= calls && (ok <==> !Broken(fails, old(calls), calls))
    {
      ok := true;
      for k := 0 to n
        invariant ok && tables == WithVectors(old(tables), next, vectors, k)
        invariant old(calls) <= calls && !Broken(fails, old(calls), calls)
      {
        ok := Call();
        if !ok {
          return;
        }
        tables := tables.(vec := tables.vec[next + k := vectors[k]]);
      }
    }

    /** Chunk rows, then vector rows, for as many chunks as there are vectors. */
    method InsertChunks(d: Source, vectors: seq<Vector>) returns (ok: bool, ghost first: nat)
      modifies this
      ensures ok ==>
        var n := Min(|d.chunks|, |vectors|);
        && Past(old(tables).chunks.Keys, first)
        && tables == WithVectors(WithChunks(old(tables), first, d, n), first, vectors, n)
      ensures old(calls) <= calls
      ensures ok <==> DistinctNumbers(d.chunks, Min(|d.chunks|, |vectors|)) && !Broken(fails, old(calls), calls)
    {
      hide DistinctNumbers;
      var top := MaxId();
      var next := top + 1;
      first := next;
      var n := Min(|d.chunks|, |vectors|);
      ok := InsertRows(d, next, n);
      if ok {
        ok := InsertVectors(vectors, next, n);
      }
    }

    /** A savepoint around delete and insert: all of it, or the tables as they were. */
    method WriteDocument(d: Source, vectors: seq<Vector>) returns (ok: bool, existed: bool, ghost first: nat)
      modifies this
      ensures !ok ==> tables == old(tables)
      ensures ok ==>
        && existed == (d.docId in old(tables).documents)
        && Past(Deleted(old(tables), d.docId).chunks.Keys, first)
        && tables == Replaced(old(tables), d, vectors, first)
      ensures old(calls) <= calls
      ensures ok <==> !Broken(fails, old(calls), calls) && d.metadata.sourceType in VALID_SOURCE_TYPES
                      && forall i, j :: 0 <= i < j < |d.chunks| && j < |vectors| ==> d.chunks[i].number != d.chunks[j].number
      ensures ok <==> Writable(d, |vectors|) && !Broken(fails, old(calls), calls)
    {
      var savepoint := tables;
      first := 0;
      ok, existed := DeleteDocument(d.docId);
      if ok {
        ok := InsertDocument(d);
      }
      if ok {
        ok, first := InsertChunks(d, vectors);
      }
      if !ok {
        tables := savepoint;
      }
    }

    method UpdateMetadata(d: Source) returns (ok: bool)
      modifies this
      ensures tables == if ok then Renamed(old(tables), d) else old(tables)
      ensures old(calls) <= calls && (ok <==> d.metadata.sourceType in VALID_SOURCE_TYPES && !Broken(fails, old(calls), calls))
    {
      if d.metadata.sourceType !in VALID_SOURCE_TYPES {
        return false;
      }
      ok := Call();
      if ok {
        tables := Renamed(tables, d);
      }
    }

    method RemoveDocument(docId: string) returns (ok: bool)
      modifies this
      ensures tables == if ok then Deleted(old(tables), docId) else old(tables)
      ensures old(calls) <= calls && (ok <==> !Broken(fails, old(calls), calls))
    {
      var savepoint := tables;
      var existed;
      ok, existed := DeleteDocument(docId);
      if !ok {
        tables := savepoint;
      }
    }
  }

  // ---- what the writes do ----

  lemma DeletedIs(t: Tables, docId: string)
    requires InStep(t)
    ensures InStep(Deleted(t, docId)) && RowOf(Deleted(t, docId), docId) == None
    ensures forall i :: i in Deleted(t, docId).chunks ==> i in t.chunks && t.chunks[i].docId != docId
    ensures forall id :: id != docId ==> Same(t, Deleted(t, docId), id)
  {
    forall id | id != docId ensures Same(t, Deleted(t, docId), id) {
      assert ChunksOf(Deleted(t, docId), id) == ChunksOf(t, id);
    }
  }

  lemma {:induction false} WithChunksIs(t: Tables, first: nat, d: Source, n: nat)
    requires n <= |d.chunks| && Past(t.chunks.Keys, first)
    ensures var w := WithChunks(t, first, d, n);
            && w.documents == t.documents && w.vec == t.vec
            && (forall i :: i in w.chunks <==> i in t.chunks || first <= i < first + n)
            && (forall i :: i in w.fts <==> i in t.fts || first <= i < first + n)
            && (forall i :: i in t.chunks ==> w.chunks[i] == t.chunks[i])
            && (forall i :: i in t.fts && !(first <= i < first + n) ==> w.fts[i] == t.fts[i])
            && (forall i :: first <= i < first + n ==>
                  w.chunks[i] == ChunkRow(d.docId, d.chunks[i - first].number, d.chunks[i - first].text)
                  && w.fts[i] == d.chunks[i - first].text)
  {
    if n > 0 {
      WithChunksIs(t, first, d, n - 1);
    }
  }

  lemma {:induction false} WithVectorsIs(t: Tables, first: nat, vectors: seq<Vector>, n: nat)
    requires n <= |vectors|
    ensures var w := WithVectors(t, first, vectors, n);
            && w.documents == t.documents && w.chunks == t.chunks && w.fts == t.fts
            && (forall i :: i in w.vec <==> i in t.vec || first <= i < first + n)
            && (forall i :: i in t.vec && !(first <= i < first + n) ==> w.vec[i] == t.vec[i])
            && (forall i :: first <= i < first + n ==> w.vec[i] == vectors[i - first])
  {
    if n > 0 {
      WithVectorsIs(t, first, vectors, n - 1);
    }
  }

  /** The tables after a document is replaced, row by row. */
  lemma ReplacedRows(t: Tables, d: Source, vectors: seq<Vector>, first: nat)
    requires InStep(t) && Past(Deleted(t, d.docId).chunks.Keys, first)
    ensures var r := Replaced(t, d, vectors, first); var bare := Deleted(t, d.docId);
            var n := Min(|d.chunks|, |vectors|);
            && r.documents == bare.documents[d.docId := DocumentRow(d.metadata, d.contentHash)]
            && r.vec.Keys == r.chunks.Keys == r.fts.Keys
            && (forall i :: i in r.chunks <==> i in bare.chunks || first <= i < first + n)
            && (forall i :: i in bare.chunks ==> r.chunks[i] == bare.chunks[i] && r.vec[i] == bare.vec[i] && r.fts[i] == bare.fts[i])
            && (forall i :: first <= i < first + n ==>
                  && r.chunks[i] == ChunkRow(d.docId, d.chunks[i - first].number, d.chunks[i - first].text)
                  && r.fts[i] == d.chunks[i - first].text && r.vec[i] == vectors[i - first])
  {
    DeletedIs(t, d.docId);
    var bare := Deleted(t, d.docId);
    var inserted := bare.(documents := bare.documents[d.docId := DocumentRow(d.metadata, d.contentHash)]);
    var n := Min(|d.chunks|, |vectors|);
    hide Deleted, WithChunks, WithVectors;
    WithChunksIs(inserted, first, d, n);
    WithVectorsIs(WithChunks(inserted, first, d, n), first, vectors, n);
  }

  lemma ReplacedKeepsStep(t: Tables, d: Source, vectors: seq<Vector>, first: nat)
    requires InStep(t) && Past(Deleted(t, d.docId).chunks.Keys, first)
    requires DistinctNumbers(d.chunks, Min(|d.chunks|, |vectors|))
    ensures InStep(Replaced(t, d, vectors, first))
  {
    hide Deleted, Replaced, UniqueIds, DistinctNumbers, Past;
    ReplacedRows(t, d, vectors, first);
    DeletedIs(t, d.docId);
    var r, bare := Replaced(t, d, vectors, first), Deleted(t, d.docId);
    AddedUnique(bare.chunks, r.chunks, d, first, Min(|d.chunks|, |vectors|));
  }

  lemma AddedUnique(bare: map<nat, ChunkRow>, chunks: map<nat, ChunkRow>, d: Source, first: nat, n: nat)
    requires UniqueIds(bare) && n <= |d.chunks| && DistinctNumbers(d.chunks, n) && Past(bare.Keys, first)
    requires forall i :: i in bare ==> bare[i].docId != d.docId
    requires forall i :: i in chunks <==> i in bare || first <= i < first + n
    requires forall i :: i in bare ==> chunks[i] == bare[i]
    requires forall i :: first <= i < first + n ==> chunks[i] == ChunkRow(d.docId, d.chunks[i - first].number, d.chunks[i - first].text)
    ensures UniqueIds(chunks)
  {
    forall i, j | i in chunks && j in chunks && SameChunkId(chunks[i], chunks[j]) ensures i == j {
      if i in bare && j in bare {
        assert SameChunkId(bare[i], bare[j]);
      }
    }
  }

  lemma ReplacedSparesOthers(t: Tables, d: Source, vectors: seq<Vector>, first: nat, id: string)
    requires InStep(t) && Past(Deleted(t, d.docId).chunks.Keys, first) && id != d.docId
    ensures Same(t, Replaced(t, d, vectors, first), id)
  {
    ReplacedRows(t, d, vectors, first);
    DeletedIs(t, d.docId);
    hide Deleted, Replaced;
    var r, bare := Replaced(t, d, vectors, first), Deleted(t, d.docId);
    assert Same(t, bare, id);
    assert RowOf(r, id) == RowOf(bare, id);
    forall i | i in bare.chunks ensures StoredAt(r, i) == StoredAt(bare, i) {
      assert i in bare.vec && i in bare.fts;
    }
    hide StoredAt, RowOf, InStep;
    ChunksAgree(bare, r, id);
  }

  lemma ChunksAgree(a: Tables, b: Tables, id: string)
    requires forall i :: i in a.chunks ==> i in b.chunks && b.chunks[i] == a.chunks[i] && StoredAt(b, i) == StoredAt(a, i)
    requires forall i :: i in b.chunks && i !in a.chunks ==> b.chunks[i].docId != id
    ensures ChunksOf(a, id) == ChunksOf(b, id)
  {
    hide StoredAt;
  }

  /** The document with its first `n` chunks only. */
  function Cut(d: Source, n: nat): Source
    requires n <= |d.chunks|
  {
    d.(chunks := d.chunks[..n])
  }

  /** The document is stored up to the shorter of its chunks and its vectors: what is longer is cut. */
  lemma ReplacedHoldsCut(t: Tables, d: Source, vectors: seq<Vector>, first: nat)
    requires InStep(t) && Past(Deleted(t, d.docId).chunks.Keys, first)
    ensures var n := Min(|d.chunks|, |vectors|); Holds(Replaced(t, d, vectors, first), Cut(d, n), vectors[..n])
  {
    hide Deleted, Replaced, InStep, Past, ChunksOf;
    ReplacedRows(t, d, vectors, first);
    DeletedIs(t, d.docId);
    var r := Replaced(t, d, vectors, first);
    var n := Min(|d.chunks|, |vectors|);
    forall k: nat | k < n ensures HoldsChunk(r, Cut(d, n), vectors[..n], first, k) {
      assert first + k in r.chunks && (first + k) - first == k;
    }
    assert HoldsFrom(r, Cut(d, n), vectors[..n], first);
  }

  lemma ReplacedHolds(t: Tables, d: Source, vectors: seq<Vector>, first: nat)
    requires InStep(t) && Past(Deleted(t, d.docId).chunks.Keys, first) && |vectors| == |d.chunks|
    ensures Holds(Replaced(t, d, vectors, first), d, vectors)
  {
    hide Holds, Replaced, Deleted;
    ReplacedHoldsCut(t, d, vectors, first);
    assert Cut(d, |d.chunks|) == d && vectors[..|vectors|] == vectors;
  }

  lemma RenamedIs(t: Tables, d: Source)
    requires InStep(t)
    ensures InStep(Renamed(t, d)) && ChunksOf(Renamed(t, d), d.docId) == ChunksOf(t, d.docId)
    ensures d.docId in t.documents ==>
      RowOf(Renamed(t, d), d.docId) == Some(DocumentRow(d.metadata, t.documents[d.docId].contentHash))
    ensures forall id :: id != d.docId ==> Same(t, Renamed(t, d), id)
  {
    forall id ensures ChunksOf(Renamed(t, d), id) == ChunksOf(t, id) {
    }
  }
}

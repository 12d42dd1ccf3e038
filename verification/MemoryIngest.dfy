/**
 Ingest of a batch: classify every document against one snapshot, embed all that is to be written in one call,
 then write, update and remove, each document in its own savepoint.
 */
module MemoryIngest {
  import opened Basics
  import opened Options
  import opened MemoryStore
  import opened WritePass

  datatype Plan = Skip | Unchanged | Remove | Update | Write

  function Classify(existing: map<string, DocumentRow>, d: Source): Plan {
    if d.chunks == [] then if d.docId in existing then Remove else Skip
    else if d.docId in existing && existing[d.docId].contentHash == d.contentHash then
      if existing[d.docId].metadata != d.metadata then Update else Unchanged
    else Write
  }

  function Planned(docs: seq<Source>, existing: map<string, DocumentRow>, plan: Plan): seq<Source> {
    if docs == [] then []
    else if Classify(existing, docs[|docs| - 1]) == plan then Planned(docs[..|docs| - 1], existing, plan) + [docs[|docs| - 1]]
    else Planned(docs[..|docs| - 1], existing, plan)
  }

  ghost predicate DistinctIds(docs: seq<Source>) {
    forall i, j :: 0 <= i < j < |docs| ==> docs[i].docId != docs[j].docId
  }

  // ---- embedding in one call ----

  function Texts(docs: seq<Source>): seq<string> {
    if docs == [] then [] else Texts(docs[..|docs| - 1]) + TextsOf(docs[|docs| - 1])
  }

  function TextsOf(d: Source): seq<string> {
    seq(|d.chunks|, i requires 0 <= i < |d.chunks| => d.chunks[i].text)
  }

  /** `vectors` is the embedder's answer to all texts in order, sliced back by document. */
  method SliceVectors(docs: seq<Source>, vectors: seq<Vector>, embed: string -> Vector) returns (sliced: map<string, seq<Vector>>)
    requires |vectors| == |Texts(docs)| && forall i :: 0 <= i < |vectors| ==> vectors[i] == embed(Texts(docs)[i])
    ensures sliced == VectorsBy(docs, embed)
  {
    sliced := map[];
    var index := 0;
    for k := 0 to |docs|
      invariant index == |Texts(docs[..k])| <= |vectors|
      invariant sliced == VectorsBy(docs[..k], embed)
    {
      TextsPrefix(docs, k);
      var n := |docs[k].chunks|;
      assert vectors[index..index + n] == EmbedAll(docs[k].chunks, embed) by {
        forall i | 0 <= i < n ensures vectors[index + i] == embed(docs[k].chunks[i].text) {
          assert Texts(docs)[index + i] == Texts(docs[..k + 1])[index + i] == TextsOf(docs[k])[i];
        }
      }
      assert docs[..k + 1][..k] == docs[..k];
      sliced := sliced[docs[k].docId := vectors[index..index + n]];
      index := index + n;
    }
    assert docs[..|docs|] == docs;
  }

  lemma {:induction false} TextsPrefix(docs: seq<Source>, k: nat)
    requires k < |docs|
    ensures Texts(docs[..k + 1]) == Texts(docs[..k]) + TextsOf(docs[k])
    ensures |Texts(docs[..k + 1])| <= |Texts(docs)|
    ensures Texts(docs)[..|Texts(docs[..k + 1])|] == Texts(docs[..k + 1])
  {
    hide TextsOf;
    assert docs[..k + 1][..k] == docs[..k];
    if k + 1 == |docs| {
      assert docs[..k + 1] == docs;
    } else {
      var shorter := docs[..|docs| - 1];
      TextsPrefix(shorter, k);
      assert shorter[..k + 1] == docs[..k + 1];
      assert shorter[..k] == docs[..k];
    }
  }

  lemma {:induction false} VectorsByHas(docs: seq<Source>, embed: string -> Vector, k: nat)
    requires k < |docs|
    ensures docs[k].docId in VectorsBy(docs, embed)
    ensures DistinctIds(docs) ==> VectorsBy(docs, embed)[docs[k].docId] == EmbedAll(docs[k].chunks, embed)
  {
    if k < |docs| - 1 {
      VectorsByHas(docs[..|docs| - 1], embed, k);
    }
  }

  // ---- one document ----

  /** What an ingest leaves of one document of the batch. */
  ghost predicate Left(before: Tables, after: Tables, d: Source, plan: Plan, failed: bool, embed: string -> Vector) {
    if failed then Same(before, after, d.docId)
    else match plan {
      case Write => Holds(after, d, EmbedAll(d.chunks, embed))
      case Update =>
        RowOf(after, d.docId) == Some(DocumentRow(d.metadata, d.contentHash))
        && ChunksOf(after, d.docId) == ChunksOf(before, d.docId)
      case Remove => RowOf(after, d.docId) == None && ChunksOf(after, d.docId) == map[]
      case _ => Same(before, after, d.docId)
    }
  }

  lemma HoldsStays(a: Tables, b: Tables, d: Source, vectors: seq<Vector>)
    requires Same(a, b, d.docId) && Holds(a, d, vectors)
    ensures Holds(b, d, vectors)
  {
    var first: nat :| HoldsFrom(a, d, vectors, first);
    assert forall i :: i in ChunksOf(a, d.docId) <==> i in ChunksOf(b, d.docId);
    forall k: nat | k < |d.chunks| ensures HoldsChunk(b, d, vectors, first, k) {
      assert HoldsChunk(a, d, vectors, first, k);
      assert ChunksOf(a, d.docId)[first + k] == ChunksOf(b, d.docId)[first + k];
    }
    forall i | i in b.chunks && b.chunks[i].docId == d.docId ensures first <= i < first + |d.chunks| {
      assert i in ChunksOf(a, d.docId);
    }
    forall i | i in b.chunks && first <= i < first + |d.chunks| ensures b.chunks[i].docId == d.docId {
      assert HoldsChunk(b, d, vectors, first, i - first);
    }
    assert HoldsFrom(b, d, vectors, first);
  }

  /** What was left of a document stays left while other documents are worked on. */
  lemma LeftStays(before: Tables, a: Tables, b: Tables, d: Source, plan: Plan, failed: bool, embed: string -> Vector)
    requires Left(before, a, d, plan, failed, embed) && Same(a, b, d.docId)
    ensures Left(before, b, d, plan, failed, embed)
  {
    if !failed && plan.Write? {
      HoldsStays(a, b, d, EmbedAll(d.chunks, embed));
    }
  }

  // ---- the batch ----

  datatype Summary = Summary(
    created: nat, replaced: nat, kept: nat, metadataUpdated: nat, removed: nat, skippedEmpty: nat,
    failed: seq<string>, chunksWritten: nat)

  /** Documents that did not fail and were stored before, or were not. */
  function Written(docs: seq<Source>, existing: map<string, DocumentRow>, failed: seq<string>, stored: bool): nat {
    if docs == [] then 0
    else
      var d := docs[|docs| - 1];
      Written(docs[..|docs| - 1], existing, failed, stored)
      + if d.docId !in failed && (d.docId in existing) == stored then 1 else 0
  }

  function ChunkTotal(docs: seq<Source>, failed: seq<string>): nat {
    if docs == [] then 0
    else
      var d := docs[|docs| - 1];
      ChunkTotal(docs[..|docs| - 1], failed) + if d.docId !in failed then |d.chunks| else 0
  }

  /** The counters tell apart what was new and what was replaced. */
  ghost predicate Counted(docs: seq<Source>, existing: map<string, DocumentRow>, failed: seq<string>, created: nat, replaced: nat, written: nat) {
    && created == Written(docs, existing, failed, false) && replaced == Written(docs, existing, failed, true)
    && written == ChunkTotal(docs, failed)
  }

  /** The tallies depend only on which of the documents themselves failed. */
  lemma {:induction false} SameTally(docs: seq<Source>, existing: map<string, DocumentRow>, f: seq<string>, g: seq<string>)
    requires SameFailures(docs, f, g)
    ensures forall stored :: Written(docs, existing, f, stored) == Written(docs, existing, g, stored)
    ensures ChunkTotal(docs, f) == ChunkTotal(docs, g)
  {
    if docs != [] {
      var earlier := docs[..|docs| - 1];
      assert forall k :: 0 <= k < |earlier| ==> earlier[k] == docs[k];
      SameTally(earlier, existing, f, g);
    }
  }

  lemma CountedMore(docs: seq<Source>, n: nat, existing: map<string, DocumentRow>, failed: seq<string>,
                    created: nat, replaced: nat, written: nat, ok: bool)
    requires n < |docs| && DistinctIds(docs) && docs[n].docId !in failed
    requires Counted(docs[..n], existing, failed, created, replaced, written)
    ensures var d := docs[n];
            if !ok then Counted(docs[..n + 1], existing, failed + [d.docId], created, replaced, written)
            else if d.docId in existing then Counted(docs[..n + 1], existing, failed, created, replaced + 1, written + |d.chunks|)
            else Counted(docs[..n + 1], existing, failed, created + 1, replaced, written + |d.chunks|)
  {
    assert docs[..n + 1][..n] == docs[..n];
    SameTally(docs[..n], existing, failed, failed + [docs[n].docId]);
  }

  /** The document about to be worked on stands as it was and has not failed. */
  lemma NotYetWorked(t0: Tables, t: Tables, docs: seq<Source>, n: nat, plan: Plan, failed: seq<string>, embed: string -> Vector)
    requires n < |docs| && DistinctIds(docs) && Worked(t0, t, docs, n, plan, failed, embed)
    ensures docs[n].docId !in failed && (docs[n].docId in t.documents <==> docs[n].docId in t0.documents)
  {
    hide Left, ChunksOf;
    assert !Among(docs[..n], docs[n].docId);
    assert Same(t0, t, docs[n].docId);
  }

  /** `t` is `t0` with the first `n` of `docs` worked on under one plan; nothing else changed. */
  ghost predicate Worked(t0: Tables, t: Tables, docs: seq<Source>, n: nat, plan: Plan, failed: seq<string>, embed: string -> Vector)
    requires n <= |docs|
  {
    && (forall k :: 0 <= k < n ==> Left(t0, t, docs[k], plan, docs[k].docId in failed, embed))
    && (forall id :: !Among(docs[..n], id) ==> Same(t0, t, id))
    && (forall f :: f in failed ==> Among(docs[..n], f))
  }

  lemma WorkedNone(t0: Tables, docs: seq<Source>, plan: Plan, embed: string -> Vector)
    ensures Worked(t0, t0, docs, 0, plan, [], embed)
  {
  }

  /** One more document: the tables change under its own id only, and as the plan says unless it failed. */
  lemma WorkedMore(t0: Tables, a: Tables, b: Tables, docs: seq<Source>, n: nat, plan: Plan, failed: seq<string>,
                   ok: bool, embed: string -> Vector)
    requires n < |docs| && DistinctIds(docs) && Worked(t0, a, docs, n, plan, failed, embed)
    requires forall id :: id != docs[n].docId ==> Same(a, b, id)
    requires if ok then Left(a, b, docs[n], plan, false, embed) else a == b
    ensures Worked(t0, b, docs, n + 1, plan, if ok then failed else failed + [docs[n].docId], embed)
  {
    var d := docs[n];
    var failed' := if ok then failed else failed + [d.docId];
    hide Holds, ChunksOf, RowOf;
    assert !Among(docs[..n], d.docId);
    forall k | 0 <= k < n ensures Left(t0, b, docs[k], plan, docs[k].docId in failed', embed) {
      assert docs[k].docId != d.docId;
      LeftStays(t0, a, b, docs[k], plan, docs[k].docId in failed, embed);
    }
    assert Same(t0, a, d.docId);
    assert d.docId !in failed;
    AmongGrows(docs, n);
    forall id | !Among(docs[..n + 1], id) ensures Same(t0, b, id) {
      assert Same(t0, a, id) && Same(a, b, id);
    }
  }

  lemma AmongGrows(docs: seq<Source>, n: nat)
    requires n < |docs|
    ensures forall id :: Among(docs[..n + 1], id) <==> Among(docs[..n], id) || id == docs[n].docId
  {
    var more := docs[..n + 1];
    assert more[n] == docs[n];
    forall id | Among(docs[..n], id) ensures Among(more, id) {
      var i :| 0 <= i < n && docs[..n][i].docId == id;
      assert more[i].docId == id;
    }
    forall id | Among(more, id) && id != docs[n].docId ensures Among(docs[..n], id) {
      var i :| 0 <= i < n + 1 && more[i].docId == id;
      assert docs[..n][i].docId == id;
    }
  }

  // ---- why a document fails ----

  /** The schema and the source types allow what the plan does; `vectors` are those kept for the write list. */
  predicate Fit(plan: Plan, d: Source, vectors: map<string, seq<Vector>>) {
    match plan
    case Write => d.docId in vectors && Writable(d, |vectors[d.docId]|)
    case Update => d.metadata.sourceType in VALID_SOURCE_TYPES
    case _ => true
  }

  /** A document worked on fails when it is unfit, and otherwise only when one of the calls `lo .. hi` fails. */
  ghost predicate Caused(oks: seq<bool>, docs: seq<Source>, plan: Plan, vectors: map<string, seq<Vector>>,
                         fails: nat -> bool, lo: nat, hi: nat) {
    && |oks| == |docs|
    && forall k :: 0 <= k < |docs| ==>
         (oks[k] ==> Fit(plan, docs[k], vectors)) && (Fit(plan, docs[k], vectors) ==> oks[k] || Broken(fails, lo, hi))
  }

  function FailedIds(docs: seq<Source>, oks: seq<bool>): seq<string>
    requires |docs| == |oks|
  {
    if docs == [] then []
    else
      var earlier := FailedIds(docs[..|docs| - 1], oks[..|docs| - 1]);
      if oks[|docs| - 1] then earlier else earlier + [docs[|docs| - 1].docId]
  }

  lemma CausedNone(docs: seq<Source>, plan: Plan, vectors: map<string, seq<Vector>>, fails: nat -> bool, lo: nat)
    ensures Caused([], docs[..0], plan, vectors, fails, lo, lo) && FailedIds(docs[..0], []) == []
  {
  }

  lemma CausedMore(oks: seq<bool>, docs: seq<Source>, n: nat, plan: Plan, vectors: map<string, seq<Vector>>,
                   fails: nat -> bool, lo: nat, mid: nat, hi: nat, ok: bool)
    requires n < |docs| && lo <= mid <= hi && Caused(oks, docs[..n], plan, vectors, fails, lo, mid)
    requires ok <==> Fit(plan, docs[n], vectors) && !Broken(fails, mid, hi)
    ensures Caused(oks + [ok], docs[..n + 1], plan, vectors, fails, lo, hi)
    ensures FailedIds(docs[..n + 1], oks + [ok]) == FailedIds(docs[..n], oks) + if ok then [] else [docs[n].docId]
  {
    hide Fit, FailedIds;
    FailedMore(docs, n, oks, ok);
    assert Broken(fails, lo, mid) || Broken(fails, mid, hi) ==> Broken(fails, lo, hi);
    hide Broken;
    var more, oks' := docs[..n + 1], oks + [ok];
    forall k | 0 <= k < n + 1
      ensures (oks'[k] ==> Fit(plan, more[k], vectors)) && (Fit(plan, more[k], vectors) ==> oks'[k] || Broken(fails, lo, hi))
    {
      if k < n {
        assert more[k] == docs[..n][k] && oks'[k] == oks[k];
      }
    }
  }

  lemma FailedMore(docs: seq<Source>, n: nat, oks: seq<bool>, ok: bool)
    requires n < |docs| && |oks| == n
    ensures FailedIds(docs[..n + 1], oks + [ok]) == FailedIds(docs[..n], oks) + if ok then [] else [docs[n].docId]
  {
    assert docs[..n + 1][..n] == docs[..n] && (oks + [ok])[..n] == oks;
    NothingAdded(FailedIds(docs[..n], oks));
  }

  lemma {:induction false} FailedIs(docs: seq<Source>, oks: seq<bool>, id: string)
    requires |docs| == |oks|
    ensures id in FailedIds(docs, oks) <==> exists k :: 0 <= k < |docs| && docs[k].docId == id && !oks[k]
  {
    if docs != [] {
      var n := |docs| - 1;
      FailedIs(docs[..n], oks[..n], id);
      if k :| 0 <= k < |docs| && docs[k].docId == id && !oks[k] {
        assert k < n ==> docs[..n][k] == docs[k] && oks[..n][k] == oks[k];
      }
    }
  }

  /** The vectors kept under each id are those of its document. */
  ghost predicate OwnKept(docs: seq<Source>, vectors: map<string, seq<Vector>>, embed: string -> Vector) {
    forall k :: 0 <= k < |docs| ==> docs[k].docId in vectors && vectors[docs[k].docId] == EmbedAll(docs[k].chunks, embed)
  }

  lemma OwnKeptAt(docs: seq<Source>, vectors: map<string, seq<Vector>>, k: nat, embed: string -> Vector)
    requires OwnKept(docs, vectors, embed) && k < |docs|
    ensures docs[k].docId in vectors && vectors[docs[k].docId] == EmbedAll(docs[k].chunks, embed)
  {
  }

  method WriteAll(store: Store, docs: seq<Source>, vectors: map<string, seq<Vector>>, ghost embed: string -> Vector)
      returns (failed: seq<string>, created: nat, replaced: nat, written: nat, ghost states: seq<Tables>, ghost oks: seq<bool>)
    requires forall k :: 0 <= k < |docs| ==> docs[k].docId in vectors
    modifies store
    ensures created + replaced + |failed| == |docs|
    ensures InStep(old(store.tables)) ==> InStep(store.tables)
    ensures IsPass(states, oks, docs, vectors) && |states| == |docs| + 1
    ensures states[0] == old(store.tables) && states[|docs|] == store.tables
    ensures old(store.calls) <= store.calls
    ensures Caused(oks, docs, Write, vectors, store.fails, old(store.calls), store.calls)
    ensures |oks| == |docs| && failed == FailedIds(docs, oks)
    ensures InStep(old(store.tables)) && DistinctIds(docs) && OwnKept(docs, vectors, embed) ==>
      Worked(old(store.tables), store.tables, docs, |docs|, Write, failed, embed)
      && Counted(docs, old(store.tables.documents), failed, created, replaced, written)
  {
    hide *;
    failed, created, replaced, written := [], 0, 0, 0;
    ghost var t0 := store.tables;
    ghost var exact := InStep(t0) && DistinctIds(docs) && OwnKept(docs, vectors, embed);
    WorkedNone(t0, docs, Write, embed);
    CountedNone(docs, t0.documents);
    states, oks := [t0], [];
    PassNone(t0, docs, vectors);
    CausedNone(docs, Write, vectors, store.fails, store.calls);
    for k := 0 to |docs|
      invariant created + replaced + |failed| == k
      invariant InStep(t0) ==> InStep(store.tables)
      invariant exact ==> Worked(t0, store.tables, docs, k, Write, failed, embed)
                          && Counted(docs[..k], t0.documents, failed, created, replaced, written)
      invariant IsPass(states, oks, docs[..k], vectors) && |states| == k + 1 && states[0] == t0 && states[k] == store.tables
      invariant old(store.calls) <= store.calls
      invariant Caused(oks, docs[..k], Write, vectors, store.fails, old(store.calls), store.calls)
      invariant |oks| == k && failed == FailedIds(docs[..k], oks)
    {
      ghost var a, mid := store.tables, store.calls;
      var ok, existed, first := store.WriteDocument(docs[k], vectors[docs[k].docId]);
      if InStep(a) && ok {
        WritableNumbers(docs[k], |vectors[docs[k].docId]|);
        ReplacedKeepsStep(a, docs[k], vectors[docs[k].docId], first);
      }
      if exact {
        NotYetWorked(t0, a, docs, k, Write, failed, embed);
        CountedMore(docs, k, t0.documents, failed, created, replaced, written, ok);
        OwnKeptAt(docs, vectors, k, embed);
        WroteOne(a, store.tables, docs[k], vectors[docs[k].docId], first, ok, embed);
        WorkedMore(t0, a, store.tables, docs, k, Write, failed, ok, embed);
      }
      PassMore(states, oks, docs, k, vectors, store.tables, ok, first);
      FitToWrite(docs[k], vectors);
      CausedMore(oks, docs, k, Write, vectors, store.fails, old(store.calls), mid, store.calls, ok);
      NothingAdded(failed);
      states, oks := states + [store.tables], oks + [ok];
      if !ok {
        failed := failed + [docs[k].docId];
      } else {
        if existed { replaced := replaced + 1; } else { created := created + 1; }
        written := written + |docs[k].chunks|;
      }
    }
    assert docs[..|docs|] == docs;
  }

  lemma WritableNumbers(d: Source, n: nat)
    requires Writable(d, n)
    ensures DistinctNumbers(d.chunks, Min(|d.chunks|, n))
  {
  }

  lemma FitToWrite(d: Source, vectors: map<string, seq<Vector>>)
    ensures Fit(Write, d, vectors) <==> d.docId in vectors && Writable(d, |vectors[d.docId]|)
  {
  }

  lemma FitToUpdate(d: Source, vectors: map<string, seq<Vector>>)
    ensures Fit(Update, d, vectors) <==> d.metadata.sourceType in VALID_SOURCE_TYPES
    ensures Fit(Remove, d, vectors)
  {
  }

  lemma CountedNone(docs: seq<Source>, existing: map<string, DocumentRow>)
    ensures Counted(docs[..0], existing, [], 0, 0, 0)
  {
  }

  lemma WroteOne(a: Tables, b: Tables, d: Source, vectors: seq<Vector>, first: nat, ok: bool, embed: string -> Vector)
    requires InStep(a) && vectors == EmbedAll(d.chunks, embed)
    requires if ok then Past(Deleted(a, d.docId).chunks.Keys, first) && b == Replaced(a, d, vectors, first) else a == b
    ensures forall id :: id != d.docId ==> Same(a, b, id)
    ensures ok ==> Left(a, b, d, Write, false, embed)
  {
    hide Replaced, Deleted, InStep, Holds, EmbedAll;
    if ok {
      forall id | id != d.docId ensures Same(a, b, id) {
        ReplacedSparesOthers(a, d, vectors, first, id);
      }
      ReplacedHolds(a, d, vectors, first);
    }
  }

  method UpdateAll(store: Store, docs: seq<Source>, ghost existing: map<string, DocumentRow>, ghost embed: string -> Vector)
      returns (failed: seq<string>, updated: nat, ghost oks: seq<bool>)
    modifies store
    ensures updated + |failed| == |docs|
    ensures InStep(old(store.tables)) ==> InStep(store.tables)
    ensures OwnVectors(old(store.tables), embed) ==> OwnVectors(store.tables, embed)
    ensures docs == [] ==> store.tables == old(store.tables)
    ensures old(store.calls) <= store.calls
    ensures Caused(oks, docs, Update, map[], store.fails, old(store.calls), store.calls)
    ensures |oks| == |docs| && failed == FailedIds(docs, oks)
    ensures InStep(old(store.tables)) && DistinctIds(docs) && AllUpdatable(old(store.tables), docs) ==>
      Worked(old(store.tables), store.tables, docs, |docs|, Update, failed, embed)
      && (AllStored(docs, existing) ==> updated == Written(docs, existing, failed, true))
  {
    hide *;
    failed, updated := [], 0;
    ghost var t0 := store.tables;
    ghost var total: nat := 0;
    WorkedNone(t0, docs, Update, embed);
    CountedNone(docs, existing);
    oks := [];
    CausedNone(docs, Update, map[], store.fails, store.calls);
    for k := 0 to |docs|
      invariant updated + |failed| == k
      invariant InStep(t0) ==> InStep(store.tables)
      invariant OwnVectors(t0, embed) ==> OwnVectors(store.tables, embed)
      invariant k == 0 ==> store.tables == t0
      invariant old(store.calls) <= store.calls
      invariant Caused(oks, docs[..k], Update, map[], store.fails, old(store.calls), store.calls)
      invariant |oks| == k && failed == FailedIds(docs[..k], oks)
      invariant InStep(t0) && DistinctIds(docs) && AllUpdatable(t0, docs) ==>
        Worked(t0, store.tables, docs, k, Update, failed, embed)
        && (AllStored(docs, existing) ==> Counted(docs[..k], existing, failed, 0, updated, total))
    {
      ghost var a, mid := store.tables, store.calls;
      var ok := store.UpdateMetadata(docs[k]);
      if OwnVectors(a, embed) {
        RenamedKeepsOwn(a, docs[k], embed);
      }
      FitToUpdate(docs[k], map[]);
      CausedMore(oks, docs, k, Update, map[], store.fails, old(store.calls), mid, store.calls, ok);
      NothingAdded(failed);
      oks := oks + [ok];
      if InStep(a) {
        RenamedIs(a, docs[k]);
      }
      if InStep(t0) && DistinctIds(docs) && AllUpdatable(t0, docs) {
        NotYetWorked(t0, a, docs, k, Update, failed, embed);
        if AllStored(docs, existing) {
          StoredIs(docs, existing, k);
          CountedMore(docs, k, existing, failed, 0, updated, total, ok);
        }
        UpdatedOne(t0, a, store.tables, docs, k, failed, ok, embed);
        WorkedMore(t0, a, store.tables, docs, k, Update, failed, ok, embed);
      }
      total := if ok then total + |docs[k].chunks| else total;
      if !ok { failed := failed + [docs[k].docId]; } else { updated := updated + 1; }
    }
    assert docs[..|docs|] == docs;
    CountedReplaced(docs, existing, failed, updated, total);
  }

  ghost predicate AllStored(docs: seq<Source>, existing: map<string, DocumentRow>) {
    forall k :: 0 <= k < |docs| ==> docs[k].docId in existing
  }

  lemma StoredIs(docs: seq<Source>, existing: map<string, DocumentRow>, k: nat)
    requires AllStored(docs, existing) && k < |docs|
    ensures docs[k].docId in existing
  {
  }

  lemma CountedReplaced(docs: seq<Source>, existing: map<string, DocumentRow>, failed: seq<string>, n: nat, total: nat)
    ensures Counted(docs, existing, failed, 0, n, total) ==> n == Written(docs, existing, failed, true)
  {
  }

  /** Every document to be updated is stored with the content it comes with. */
  ghost predicate AllUpdatable(t: Tables, docs: seq<Source>) {
    forall k :: 0 <= k < |docs| ==> docs[k].docId in t.documents && t.documents[docs[k].docId].contentHash == docs[k].contentHash
  }

  lemma UpdatedOne(t0: Tables, a: Tables, b: Tables, docs: seq<Source>, k: nat, failed: seq<string>, ok: bool, embed: string -> Vector)
    requires k < |docs| && DistinctIds(docs) && AllUpdatable(t0, docs) && InStep(a)
    requires Worked(t0, a, docs, k, Update, failed, embed) && b == if ok then Renamed(a, docs[k]) else a
    ensures forall id :: id != docs[k].docId ==> Same(a, b, id)
    ensures ok ==> Left(a, b, docs[k], Update, false, embed)
  {
    RenamedIs(a, docs[k]);
    hide Renamed, InStep, ChunksOf;
    assert !Among(docs[..k], docs[k].docId);
    assert Same(t0, a, docs[k].docId);
  }

  method RemoveAll(store: Store, docs: seq<Source>, ghost existing: map<string, DocumentRow>, ghost embed: string -> Vector)
      returns (failed: seq<string>, removed: nat, ghost oks: seq<bool>)
    modifies store
    ensures removed + |failed| == |docs|
    ensures InStep(old(store.tables)) ==> InStep(store.tables)
    ensures InStep(old(store.tables)) && OwnVectors(old(store.tables), embed) ==> OwnVectors(store.tables, embed)
    ensures docs == [] ==> store.tables == old(store.tables)
    ensures old(store.calls) <= store.calls
    ensures Caused(oks, docs, Remove, map[], store.fails, old(store.calls), store.calls)
    ensures |oks| == |docs| && failed == FailedIds(docs, oks)
    ensures InStep(old(store.tables)) && DistinctIds(docs) ==>
      Worked(old(store.tables), store.tables, docs, |docs|, Remove, failed, embed)
      && (AllStored(docs, existing) ==> removed == Written(docs, existing, failed, true))
  {
    hide *;
    failed, removed := [], 0;
    ghost var t0 := store.tables;
    ghost var total: nat := 0;
    WorkedNone(t0, docs, Remove, embed);
    CountedNone(docs, existing);
    oks := [];
    CausedNone(docs, Remove, map[], store.fails, store.calls);
    for k := 0 to |docs|
      invariant removed + |failed| == k
      invariant InStep(t0) ==> InStep(store.tables)
      invariant InStep(t0) && OwnVectors(t0, embed) ==> OwnVectors(store.tables, embed)
      invariant k == 0 ==> store.tables == t0
      invariant old(store.calls) <= store.calls
      invariant Caused(oks, docs[..k], Remove, map[], store.fails, old(store.calls), store.calls)
      invariant |oks| == k && failed == FailedIds(docs[..k], oks)
      invariant InStep(t0) && DistinctIds(docs) ==>
        Worked(t0, store.tables, docs, k, Remove, failed, embed)
        && (AllStored(docs, existing) ==> Counted(docs[..k], existing, failed, 0, removed, total))
    {
      ghost var a, mid := store.tables, store.calls;
      var ok := store.RemoveDocument(docs[k].docId);
      if InStep(a) && OwnVectors(a, embed) {
        DeletedKeepsOwn(a, docs[k].docId, embed);
      }
      FitToUpdate(docs[k], map[]);
      CausedMore(oks, docs, k, Remove, map[], store.fails, old(store.calls), mid, store.calls, ok);
      NothingAdded(failed);
      oks := oks + [ok];
      if InStep(a) {
        RemovedOne(a, docs[k], embed);
        SameItself(a);
        if DistinctIds(docs) && InStep(t0) {
          NotYetWorked(t0, a, docs, k, Remove, failed, embed);
          if AllStored(docs, existing) {
            StoredIs(docs, existing, k);
            CountedMore(docs, k, existing, failed, 0, removed, total, ok);
          }
          WorkedMore(t0, a, store.tables, docs, k, Remove, failed, ok, embed);
        }
      }
      total := if ok then total + |docs[k].chunks| else total;
      if !ok { failed := failed + [docs[k].docId]; } else { removed := removed + 1; }
    }
    assert docs[..|docs|] == docs;
    CountedReplaced(docs, existing, failed, removed, total);
  }

  lemma SameItself(t: Tables)
    ensures forall id :: Same(t, t, id)
  {
  }

  lemma RemovedOne(a: Tables, d: Source, embed: string -> Vector)
    requires InStep(a)
    ensures InStep(Deleted(a, d.docId))
    ensures forall id :: id != d.docId ==> Same(a, Deleted(a, d.docId), id)
    ensures Left(a, Deleted(a, d.docId), d, Remove, false, embed)
  {
    DeletedIs(a, d.docId);
    hide Deleted, InStep;
    assert ChunksOf(Deleted(a, d.docId), d.docId) == map[];
  }

  // ---- the whole ingest ----

  /** Sort the batch into what is to be written, updated and removed, and count the rest. */
  method Sort(docs: seq<Source>, existing: map<string, DocumentRow>)
      returns (toWrite: seq<Source>, toUpdate: seq<Source>, toRemove: seq<Source>, kept: nat, skipped: nat)
    ensures toWrite == Planned(docs, existing, Write) && toUpdate == Planned(docs, existing, Update)
    ensures toRemove == Planned(docs, existing, Remove)
    ensures kept == |Planned(docs, existing, Unchanged)| && skipped == |Planned(docs, existing, Skip)|
    ensures |toWrite| + |toUpdate| + |toRemove| + kept + skipped == |docs|
  {
    toWrite, toUpdate, toRemove, kept, skipped := [], [], [], 0, 0;
    for k := 0 to |docs|
      invariant toWrite == Planned(docs[..k], existing, Write) && toUpdate == Planned(docs[..k], existing, Update)
      invariant toRemove == Planned(docs[..k], existing, Remove)
      invariant kept == |Planned(docs[..k], existing, Unchanged)| && skipped == |Planned(docs[..k], existing, Skip)|
      invariant |toWrite| + |toUpdate| + |toRemove| + kept + skipped == k
    {
      assert docs[..k + 1][..k] == docs[..k];
      var d := docs[k];
      if d.chunks == [] {
        if d.docId in existing {
          toRemove := toRemove + [d];
        } else {
          skipped := skipped + 1;
        }
      } else if d.docId in existing && existing[d.docId].contentHash == d.contentHash {
        if existing[d.docId].metadata != d.metadata {
          toUpdate := toUpdate + [d];
        } else {
          kept := kept + 1;
        }
      } else {
        toWrite := toWrite + [d];
      }
    }
    assert docs[..|docs|] == docs;
  }

  /** `t` is `t0` after an ingest of `docs`: each document as its plan says or, if it failed, as it was; nothing else touched. */
  ghost predicate Ingested(t0: Tables, t: Tables, docs: seq<Source>, failed: seq<string>, embed: string -> Vector) {
    && (forall k :: 0 <= k < |docs| ==>
          Left(t0, t, docs[k], Classify(t0.documents, docs[k]), docs[k].docId in failed, embed))
    && (forall id :: !Among(docs, id) ==> Same(t0, t, id))
  }

  // ---- what the caller gets ----

  /** Content the store has not got under this id. */
  predicate HasNewContent(existing: map<string, DocumentRow>, d: Source) {
    d.chunks != [] && !(d.docId in existing && existing[d.docId].contentHash == d.contentHash)
  }

  /** The same content with other metadata. */
  predicate HasNewMetadata(existing: map<string, DocumentRow>, d: Source) {
    d.chunks != [] && !HasNewContent(existing, d) && existing[d.docId].metadata != d.metadata
  }

  lemma ClassifyIs(existing: map<string, DocumentRow>, d: Source)
    ensures Classify(existing, d) == Write <==> HasNewContent(existing, d)
    ensures Classify(existing, d) == Update <==> HasNewMetadata(existing, d)
    ensures Classify(existing, d) == Remove <==> d.chunks == [] && d.docId in existing
    ensures Classify(existing, d) == Skip <==> d.chunks == [] && d.docId !in existing
  {
  }

  /**
   What is stored of a document of the batch: nothing changed if it failed; nothing at all if it came without chunks;
   otherwise its row as it came, with its own chunks and vectors if the content is new and the chunks as they were if not.
   */
  ghost predicate Outcome(t0: Tables, t: Tables, d: Source, failed: bool, embed: string -> Vector) {
    if failed then Same(t0, t, d.docId)
    else if d.chunks == [] then RowOf(t, d.docId) == None && ChunksOf(t, d.docId) == map[]
    else
      && RowOf(t, d.docId) == Some(DocumentRow(d.metadata, d.contentHash))
      && if HasNewContent(t0.documents, d) then Holds(t, d, EmbedAll(d.chunks, embed))
         else ChunksOf(t, d.docId) == ChunksOf(t0, d.docId)
  }

  ghost predicate Outcomes(t0: Tables, t: Tables, docs: seq<Source>, failed: seq<string>, embed: string -> Vector) {
    && (forall k :: 0 <= k < |docs| ==> Outcome(t0, t, docs[k], docs[k].docId in failed, embed))
    && forall id :: !Among(docs, id) ==> Same(t0, t, id)
  }

  lemma LeftIsOutcome(t0: Tables, t: Tables, d: Source, failed: bool, embed: string -> Vector)
    requires InStep(t0) && Left(t0, t, d, Classify(t0.documents, d), failed, embed)
    ensures Outcome(t0, t, d, failed, embed)
  {
    hide Holds, EmbedAll;
    if d.docId !in t0.documents {
      assert ChunksOf(t0, d.docId) == map[];
    }
    if !failed && HasNewContent(t0.documents, d) {
      HeldRow(t, d, EmbedAll(d.chunks, embed));
    }
  }

  lemma HeldRow(t: Tables, d: Source, vectors: seq<Vector>)
    requires Holds(t, d, vectors)
    ensures RowOf(t, d.docId) == Some(DocumentRow(d.metadata, d.contentHash))
  {
  }

  lemma IngestedOutcomes(t0: Tables, t: Tables, docs: seq<Source>, failed: seq<string>, embed: string -> Vector)
    requires InStep(t0) && Ingested(t0, t, docs, failed, embed)
    ensures Outcomes(t0, t, docs, failed, embed)
  {
    hide Left, Same, Classify, InStep;
    forall k | 0 <= k < |docs| ensures Outcome(t0, t, docs[k], docs[k].docId in failed, embed) {
      LeftIsOutcome(t0, t, docs[k], docs[k].docId in failed, embed);
    }
  }

  /** The documents of a batch that pass a test, and their chunks. */
  ghost function Number(docs: seq<Source>, test: Source -> bool): nat {
    if docs == [] then 0 else Number(docs[..|docs| - 1], test) + if test(docs[|docs| - 1]) then 1 else 0
  }

  ghost function ChunkNumber(docs: seq<Source>, test: Source -> bool): nat {
    if docs == [] then 0
    else ChunkNumber(docs[..|docs| - 1], test) + if test(docs[|docs| - 1]) then |docs[|docs| - 1].chunks| else 0
  }

  ghost function CountsNew(existing: map<string, DocumentRow>, failed: seq<string>): Source -> bool {
    (d: Source) => HasNewContent(existing, d) && d.docId !in existing && d.docId !in failed
  }

  ghost function CountsReplaced(existing: map<string, DocumentRow>, failed: seq<string>): Source -> bool {
    (d: Source) => HasNewContent(existing, d) && d.docId in existing && d.docId !in failed
  }

  ghost function CountsWritten(existing: map<string, DocumentRow>, failed: seq<string>): Source -> bool {
    (d: Source) => HasNewContent(existing, d) && d.docId !in failed
  }

  ghost function CountsUpdated(existing: map<string, DocumentRow>, failed: seq<string>): Source -> bool {
    (d: Source) => HasNewMetadata(existing, d) && d.docId !in failed
  }

  ghost function CountsRemoved(existing: map<string, DocumentRow>, failed: seq<string>): Source -> bool {
    (d: Source) => d.chunks == [] && d.docId in existing && d.docId !in failed
  }

  ghost function CountsKept(existing: map<string, DocumentRow>): Source -> bool {
    (d: Source) => d.chunks != [] && !HasNewContent(existing, d) && !HasNewMetadata(existing, d)
  }

  ghost function CountsSkipped(existing: map<string, DocumentRow>): Source -> bool {
    (d: Source) => d.chunks == [] && d.docId !in existing
  }

  /** The counters of a batch, from the documents, what was stored before, and which of them failed. */
  ghost predicate Tallied(docs: seq<Source>, existing: map<string, DocumentRow>, s: Summary) {
    && s.created == Number(docs, CountsNew(existing, s.failed))
    && s.replaced == Number(docs, CountsReplaced(existing, s.failed))
    && s.chunksWritten == ChunkNumber(docs, CountsWritten(existing, s.failed))
    && s.metadataUpdated == Number(docs, CountsUpdated(existing, s.failed))
    && s.removed == Number(docs, CountsRemoved(existing, s.failed))
    && SteadyTallied(docs, existing, s)
  }

  /** The counters of documents there is nothing to do for, whatever fails. */
  ghost predicate SteadyTallied(docs: seq<Source>, existing: map<string, DocumentRow>, s: Summary) {
    s.kept == Number(docs, CountsKept(existing)) && s.skippedEmpty == Number(docs, CountsSkipped(existing))
  }

  lemma {:induction false} WrittenNumber(docs: seq<Source>, existing: map<string, DocumentRow>, plan: Plan,
                                         failed: seq<string>, stored: bool, test: Source -> bool)
    requires forall d :: test(d) <==> Classify(existing, d) == plan && (d.docId in existing) == stored && d.docId !in failed
    ensures Written(Planned(docs, existing, plan), existing, failed, stored) == Number(docs, test)
  {
    hide Classify;
    if docs != [] {
      var earlier, last := docs[..|docs| - 1], docs[|docs| - 1];
      WrittenNumber(earlier, existing, plan, failed, stored, test);
      assert (Planned(earlier, existing, plan) + [last])[..|Planned(earlier, existing, plan)|] == Planned(earlier, existing, plan);
    }
  }

  lemma {:induction false} TotalNumber(docs: seq<Source>, existing: map<string, DocumentRow>, failed: seq<string>, test: Source -> bool)
    requires forall d :: test(d) <==> Classify(existing, d) == Write && d.docId !in failed
    ensures ChunkTotal(Planned(docs, existing, Write), failed) == ChunkNumber(docs, test)
  {
    hide Classify;
    if docs != [] {
      var earlier, last := docs[..|docs| - 1], docs[|docs| - 1];
      TotalNumber(earlier, existing, failed, test);
      assert (Planned(earlier, existing, Write) + [last])[..|Planned(earlier, existing, Write)|] == Planned(earlier, existing, Write);
    }
  }

  lemma {:induction false} PlannedNumber(docs: seq<Source>, existing: map<string, DocumentRow>, plan: Plan, test: Source -> bool)
    requires forall d :: test(d) <==> Classify(existing, d) == plan
    ensures |Planned(docs, existing, plan)| == Number(docs, test)
  {
    hide Classify;
    if docs != [] {
      PlannedNumber(docs[..|docs| - 1], existing, plan, test);
    }
  }

  lemma SteadyNumbers(docs: seq<Source>, existing: map<string, DocumentRow>, s: Summary)
    requires s.kept == |Planned(docs, existing, Unchanged)| && s.skippedEmpty == |Planned(docs, existing, Skip)|
    ensures SteadyTallied(docs, existing, s)
  {
    hide Planned, Number;
    PlannedNumber(docs, existing, Unchanged, CountsKept(existing));
    PlannedNumber(docs, existing, Skip, CountsSkipped(existing));
  }

  lemma Numbers(docs: seq<Source>, existing: map<string, DocumentRow>, s: Summary)
    requires Counted(Planned(docs, existing, Write), existing, s.failed, s.created, s.replaced, s.chunksWritten)
    requires s.metadataUpdated == Written(Planned(docs, existing, Update), existing, s.failed, true)
    requires s.removed == Written(Planned(docs, existing, Remove), existing, s.failed, true)
    requires SteadyTallied(docs, existing, s)
    ensures Tallied(docs, existing, s)
  {
    hide Planned, Number, ChunkNumber, Written, ChunkTotal, SteadyTallied;
    WrittenNumber(docs, existing, Write, s.failed, false, CountsNew(existing, s.failed));
    WrittenNumber(docs, existing, Write, s.failed, true, CountsReplaced(existing, s.failed));
    TotalNumber(docs, existing, s.failed, CountsWritten(existing, s.failed));
    WrittenNumber(docs, existing, Update, s.failed, true, CountsUpdated(existing, s.failed));
    WrittenNumber(docs, existing, Remove, s.failed, true, CountsRemoved(existing, s.failed));
  }

  /** The document cannot go in: its row is refused, or two of the chunks to be written have one number. */
  predicate Unfit(existing: map<string, DocumentRow>, d: Source) {
    || (HasNewContent(existing, d) && !Writable(d, |d.chunks|))
    || (HasNewMetadata(existing, d) && d.metadata.sourceType !in VALID_SOURCE_TYPES)
  }

  /** Of a batch the unfit documents fail, and others only if one of the calls `lo .. hi` fails. */
  ghost predicate Explained(docs: seq<Source>, existing: map<string, DocumentRow>, failed: seq<string>,
                            fails: nat -> bool, lo: nat, hi: nat) {
    forall k :: 0 <= k < |docs| ==>
      && (Unfit(existing, docs[k]) ==> docs[k].docId in failed)
      && (docs[k].docId in failed ==> Unfit(existing, docs[k]) || Broken(fails, lo, hi))
  }

  /** There is something to embed. */
  predicate Embeds(docs: seq<Source>, existing: map<string, DocumentRow>) {
    exists d :: d in docs && HasNewContent(existing, d)
  }

  /**
   The batch. It raises, with nothing changed, exactly when the embedder does not fit or does not answer for every
   text, or when the commit, which is the last call, fails. `states` and `oks` tell the pass over its write list.
   */
  method IngestDocuments(store: Store, docs: seq<Source>, embed: string -> Vector, fits: bool, answers: bool)
      returns (summary: Option<Summary>, ghost states: seq<Tables>, ghost oks: seq<bool>)
    modifies store
    ensures summary.None? ==> store.tables == old(store.tables)
    ensures !fits || (!answers && Embeds(docs, old(store.tables.documents))) ==> summary.None?
    ensures fits && (answers || !Embeds(docs, old(store.tables.documents))) ==>
      store.calls > old(store.calls) && (summary.None? <==> store.fails(store.calls - 1))
    ensures InStep(old(store.tables)) ==> InStep(store.tables)
    ensures summary.Some? ==>
      var s, existing := summary.value, old(store.tables.documents);
      && s.created + s.replaced + s.kept + s.metadataUpdated + s.removed + s.skippedEmpty + |s.failed| == |docs|
      && SteadyTallied(docs, existing, s)
    ensures summary.Some? ==>
      var existing := old(store.tables.documents);
      var w := Planned(docs, existing, Write);
      && IsPass(states, oks, w, VectorsBy(w, embed)) && states[0] == old(store.tables)
      && Caused(oks, w, Write, VectorsBy(w, embed), store.fails, old(store.calls), store.calls)
      && (Planned(docs, existing, Update) == [] && Planned(docs, existing, Remove) == [] ==> store.tables == states[|w|])
    ensures NoneMixed(Planned(docs, old(store.tables.documents), Write), embed) ==>
      (InStep(old(store.tables)) && OwnVectors(old(store.tables), embed) ==> OwnVectors(store.tables, embed))
    ensures summary.Some? && DistinctIds(docs) ==>
      Explained(docs, old(store.tables.documents), summary.value.failed, store.fails, old(store.calls), store.calls)
    ensures summary.Some? && DistinctIds(docs) && InStep(old(store.tables)) ==>
      && Ingested(old(store.tables), store.tables, docs, summary.value.failed, embed)
      && Outcomes(old(store.tables), store.tables, docs, summary.value.failed, embed)
      && Tallied(docs, old(store.tables.documents), summary.value)
  {
    hide *;
    ghost var t0, lo := store.tables, store.calls;
    states, oks := [], [];
    if !fits {
      return None, states, oks;
    }
    var existing := store.tables.documents;
    var toWrite, toUpdate, toRemove, kept, skipped := Sort(docs, existing);
    var texts := Texts(toWrite);
    EmbedsIs(docs, existing);
    if texts != [] && !answers {
      return None, states, oks;
    }
    var vectors := SliceVectors(toWrite, seq(|texts|, i requires 0 <= i < |texts| => embed(texts[i])), embed);
    VectorsFit(docs, existing, toWrite, embed);
    var begin := store.tables;
    var failed1, created, replaced, written;
    failed1, created, replaced, written, states, oks := WriteAll(store, toWrite, vectors, embed);
    ghost var t1, c1 := store.tables, store.calls;
    PassOwns(states, oks, toWrite, embed);
    ghost var oks2, oks3;
    var failed2, updated;
    failed2, updated, oks2 := UpdateAll(store, toUpdate, existing, embed);
    ghost var t2, c2 := store.tables, store.calls;
    var failed3, removed;
    failed3, removed, oks3 := RemoveAll(store, toRemove, existing, embed);
    ghost var c3 := store.calls;
    var committed := store.Call();
    if !committed {
      store.tables := begin;
      return None, states, oks;
    }
    CausedLater(oks, toWrite, Write, vectors, store.fails, lo, c1, store.calls);
    if DistinctIds(docs) {
      CausedWithin(oks2, toUpdate, Update, map[], store.fails, lo, c1, c2, store.calls);
      CausedWithin(oks3, toRemove, Remove, map[], store.fails, lo, c2, c3, store.calls);
      Explain(docs, existing, oks, oks2, oks3, embed, store.fails, lo, store.calls);
    }
    if DistinctIds(docs) && InStep(t0) {
      PlannedDistinct(docs, existing, Write);
      PlannedDistinct(docs, existing, Update);
      PlannedDistinct(docs, existing, Remove);
      StillUpdatable(t0, t1, docs, failed1, embed);
      Assemble(t0, t1, t2, store.tables, docs, failed1, failed2, failed3, embed);
      OwnFailures(t0, t1, t2, store.tables, docs, failed1, failed2, failed3, embed);
      PlannedAreStored(docs, existing);
      SameTally(toUpdate, existing, failed2, failed1 + failed2 + failed3);
      SameTally(toRemove, existing, failed3, failed1 + failed2 + failed3);
      CountedSame(toWrite, existing, failed1, failed1 + failed2 + failed3, created, replaced, written);
    }
    summary := Some(Summary(created, replaced, kept, updated, removed, skipped, failed1 + failed2 + failed3, written));
    SteadyNumbers(docs, existing, summary.value);
    if DistinctIds(docs) && InStep(t0) {
      IngestedOutcomes(t0, store.tables, docs, summary.value.failed, embed);
      Numbers(docs, existing, summary.value);
    }
  }

  lemma EmbedsIs(docs: seq<Source>, existing: map<string, DocumentRow>)
    ensures Embeds(docs, existing) <==> Texts(Planned(docs, existing, Write)) != []
  {
    var w := Planned(docs, existing, Write);
    hide Planned, Classify, HasNewContent;
    if d :| d in docs && HasNewContent(existing, d) {
      ClassifyIs(existing, d);
      PlannedHas(docs, existing, Write, d);
    }
    if w != [] {
      var d := w[|w| - 1];
      PlannedHas(docs, existing, Write, d);
      ClassifyIs(existing, d);
      NewContentHasChunks(existing, d);
    }
  }

  lemma NewContentHasChunks(existing: map<string, DocumentRow>, d: Source)
    requires HasNewContent(existing, d)
    ensures d.chunks != []
  {
  }

  lemma PassOwns(states: seq<Tables>, oks: seq<bool>, docs: seq<Source>, embed: string -> Vector)
    requires IsPass(states, oks, docs, VectorsBy(docs, embed)) && |states| == |docs| + 1
    ensures InStep(states[0]) && OwnVectors(states[0], embed) && NoneMixed(docs, embed) ==> OwnVectors(states[|docs|], embed)
  {
    hide *;
    if InStep(states[0]) && OwnVectors(states[0], embed) && NoneMixed(docs, embed) {
      PassKeepsOwn(states, oks, docs, |docs|, embed);
    }
  }

  lemma CausedLater(oks: seq<bool>, docs: seq<Source>, plan: Plan, vectors: map<string, seq<Vector>>,
                    fails: nat -> bool, lo: nat, mid: nat, hi: nat)
    requires Caused(oks, docs, plan, vectors, fails, lo, mid) && mid <= hi
    ensures Caused(oks, docs, plan, vectors, fails, lo, hi)
  {
    CausedWithin(oks, docs, plan, vectors, fails, lo, lo, mid, hi);
  }

  lemma CausedWithin(oks: seq<bool>, docs: seq<Source>, plan: Plan, vectors: map<string, seq<Vector>>,
                     fails: nat -> bool, lo: nat, a: nat, b: nat, hi: nat)
    requires Caused(oks, docs, plan, vectors, fails, a, b) && lo <= a && b <= hi
    ensures Caused(oks, docs, plan, vectors, fails, lo, hi)
  {
    hide Fit;
    assert Broken(fails, a, b) ==> Broken(fails, lo, hi);
  }

  /** Of a document's own list and the others: whether it failed there. */
  lemma ExplainOne(docs: seq<Source>, existing: map<string, DocumentRow>, k: nat, plan: Plan, oks: seq<bool>,
                   vectors: map<string, seq<Vector>>, fails: nat -> bool, lo: nat, hi: nat)
    requires DistinctIds(docs) && k < |docs| && Caused(oks, Planned(docs, existing, plan), plan, vectors, fails, lo, hi)
    ensures var d := docs[k]; var failed := d.docId in FailedIds(Planned(docs, existing, plan), oks);
            if Classify(existing, d) != plan then !failed
            else (!Fit(plan, d, vectors) ==> failed) && (failed ==> !Fit(plan, d, vectors) || Broken(fails, lo, hi))
  {
    var d, list := docs[k], Planned(docs, existing, plan);
    OwnList(docs, existing, k, plan);
    FailedIs(list, oks, d.docId);
    PlannedDistinct(docs, existing, plan);
    hide Planned, Classify, Fit, FailedIds, Broken;
    if d in list {
      var j :| 0 <= j < |list| && list[j] == d;
      assert forall i :: 0 <= i < |list| && list[i].docId == d.docId ==> i == j;
    }
  }

  lemma Explain(docs: seq<Source>, existing: map<string, DocumentRow>, oks1: seq<bool>, oks2: seq<bool>, oks3: seq<bool>,
                embed: string -> Vector, fails: nat -> bool, lo: nat, hi: nat)
    requires DistinctIds(docs)
    requires var w := Planned(docs, existing, Write); Caused(oks1, w, Write, VectorsBy(w, embed), fails, lo, hi) && |oks1| == |w|
    requires var u := Planned(docs, existing, Update); Caused(oks2, u, Update, map[], fails, lo, hi) && |oks2| == |u|
    requires var r := Planned(docs, existing, Remove); Caused(oks3, r, Remove, map[], fails, lo, hi) && |oks3| == |r|
    ensures Explained(docs, existing, FailedIds(Planned(docs, existing, Write), oks1) + FailedIds(Planned(docs, existing, Update), oks2)
                                      + FailedIds(Planned(docs, existing, Remove), oks3), fails, lo, hi)
  {
    hide Planned, Classify, FailedIds, Caused, Broken, VectorsBy, Writable, DistinctIds;
    var w := Planned(docs, existing, Write);
    forall k | 0 <= k < |docs|
      ensures var failed := FailedIds(w, oks1) + FailedIds(Planned(docs, existing, Update), oks2)
                            + FailedIds(Planned(docs, existing, Remove), oks3);
              && (Unfit(existing, docs[k]) ==> docs[k].docId in failed)
              && (docs[k].docId in failed ==> Unfit(existing, docs[k]) || Broken(fails, lo, hi))
    {
      ClassifyIs(existing, docs[k]);
      ExplainOne(docs, existing, k, Write, oks1, VectorsBy(w, embed), fails, lo, hi);
      ExplainOne(docs, existing, k, Update, oks2, map[], fails, lo, hi);
      ExplainOne(docs, existing, k, Remove, oks3, map[], fails, lo, hi);
      if Classify(existing, docs[k]) == Write {
        OwnVectorCount(docs, existing, k, embed);
      }
    }
  }

  lemma OwnVectorCount(docs: seq<Source>, existing: map<string, DocumentRow>, k: nat, embed: string -> Vector)
    requires DistinctIds(docs) && k < |docs| && Classify(existing, docs[k]) == Write
    ensures var v := VectorsBy(Planned(docs, existing, Write), embed);
            docs[k].docId in v && |v[docs[k].docId]| == |docs[k].chunks|
  {
    var w := Planned(docs, existing, Write);
    hide Planned, Classify, VectorsBy;
    OwnList(docs, existing, k, Write);
    PlannedDistinct(docs, existing, Write);
    var j :| 0 <= j < |w| && w[j] == docs[k];
    VectorsByHas(w, embed, j);
  }

  lemma VectorsFit(docs: seq<Source>, existing: map<string, DocumentRow>, toWrite: seq<Source>, embed: string -> Vector)
    requires toWrite == Planned(docs, existing, Write)
    ensures forall k :: 0 <= k < |toWrite| ==> toWrite[k].docId in VectorsBy(toWrite, embed)
    ensures DistinctIds(docs) ==> OwnKept(toWrite, VectorsBy(toWrite, embed), embed)
  {
    hide VectorsBy, EmbedAll, Planned;
    if DistinctIds(docs) {
      PlannedDistinct(docs, existing, Write);
    }
    forall k | 0 <= k < |toWrite|
      ensures toWrite[k].docId in VectorsBy(toWrite, embed)
      ensures DistinctIds(docs) ==> VectorsBy(toWrite, embed)[toWrite[k].docId] == EmbedAll(toWrite[k].chunks, embed)
    {
      VectorsByHas(toWrite, embed, k);
    }
  }

  lemma {:induction false} PlannedHas(docs: seq<Source>, existing: map<string, DocumentRow>, plan: Plan, d: Source)
    ensures d in Planned(docs, existing, plan) <==> d in docs && Classify(existing, d) == plan
  {
    hide Classify;
    if docs != [] {
      var earlier, last := docs[..|docs| - 1], docs[|docs| - 1];
      PlannedHas(earlier, existing, plan, d);
      assert docs == earlier + [last];
    }
  }

  lemma {:induction false} PlannedDistinct(docs: seq<Source>, existing: map<string, DocumentRow>, plan: Plan)
    requires DistinctIds(docs)
    ensures DistinctIds(Planned(docs, existing, plan))
  {
    hide Classify;
    if docs != [] {
      var earlier, last := docs[..|docs| - 1], docs[|docs| - 1];
      PlannedDistinct(earlier, existing, plan);
      var some := Planned(earlier, existing, plan);
      forall i | 0 <= i < |some| ensures some[i].docId != last.docId {
        PlannedHas(earlier, existing, plan, some[i]);
        var j :| 0 <= j < |earlier| && earlier[j] == some[i];
        assert docs[j].docId != last.docId;
      }
    }
  }

  /** Of a batch with distinct ids, a document is in the list of its own plan and its id is in no other. */
  lemma OwnList(docs: seq<Source>, existing: map<string, DocumentRow>, k: nat, plan: Plan)
    requires DistinctIds(docs) && k < |docs|
    ensures Among(Planned(docs, existing, plan), docs[k].docId) <==> Classify(existing, docs[k]) == plan
    ensures Classify(existing, docs[k]) == plan ==> docs[k] in Planned(docs, existing, plan)
  {
    var some := Planned(docs, existing, plan);
    hide Planned, Classify;
    PlannedHas(docs, existing, plan, docs[k]);
    if Classify(existing, docs[k]) == plan {
      var i :| 0 <= i < |some| && some[i] == docs[k];
    }
    if Among(some, docs[k].docId) {
      var i :| 0 <= i < |some| && some[i].docId == docs[k].docId;
      PlannedHas(docs, existing, plan, some[i]);
      var j :| 0 <= j < |docs| && docs[j] == some[i];
      assert j == k;
    }
  }

  lemma NotPlanned(docs: seq<Source>, existing: map<string, DocumentRow>, plan: Plan, id: string)
    requires !Among(docs, id)
    ensures !Among(Planned(docs, existing, plan), id)
  {
    var some := Planned(docs, existing, plan);
    hide Planned;
    forall i | 0 <= i < |some| ensures some[i].docId != id {
      PlannedHas(docs, existing, plan, some[i]);
      var j :| 0 <= j < |docs| && docs[j] == some[i];
    }
  }

  /** A list worked on whole: what became of a document in it, and that the others were left alone. */
  lemma WorkedWhole(t0: Tables, t: Tables, docs: seq<Source>, plan: Plan, failed: seq<string>, embed: string -> Vector, d: Source)
    requires Worked(t0, t, docs, |docs|, plan, failed, embed)
    ensures d in docs ==> Left(t0, t, d, plan, d.docId in failed, embed)
    ensures !Among(docs, d.docId) ==> Same(t0, t, d.docId) && d.docId !in failed
  {
    hide Left, Same;
    assert docs[..|docs|] == docs;
    if d in docs {
      var k :| 0 <= k < |docs| && docs[k] == d;
    }
  }

  lemma StillUpdatable(t0: Tables, t1: Tables, docs: seq<Source>, failed1: seq<string>, embed: string -> Vector)
    requires DistinctIds(docs)
    requires var w := Planned(docs, t0.documents, Write); Worked(t0, t1, w, |w|, Write, failed1, embed)
    ensures AllUpdatable(t1, Planned(docs, t0.documents, Update))
  {
    var w, u := Planned(docs, t0.documents, Write), Planned(docs, t0.documents, Update);
    hide Planned, Worked;
    forall i | 0 <= i < |u|
      ensures u[i].docId in t1.documents && t1.documents[u[i].docId].contentHash == u[i].contentHash
    {
      PlannedHas(docs, t0.documents, Update, u[i]);
      var k :| 0 <= k < |docs| && docs[k] == u[i];
      OwnList(docs, t0.documents, k, Write);
      WorkedWhole(t0, t1, w, Write, failed1, embed, u[i]);
    }
  }

  lemma LeftFrom(t0: Tables, a: Tables, b: Tables, d: Source, plan: Plan, failed: bool, embed: string -> Vector)
    requires Same(t0, a, d.docId) && Left(a, b, d, plan, failed, embed)
    ensures Left(t0, b, d, plan, failed, embed)
  {
  }

  lemma Assemble(t0: Tables, t1: Tables, t2: Tables, t3: Tables, docs: seq<Source>,
                 f1: seq<string>, f2: seq<string>, f3: seq<string>, embed: string -> Vector)
    requires DistinctIds(docs)
    requires var w := Planned(docs, t0.documents, Write); Worked(t0, t1, w, |w|, Write, f1, embed)
    requires var u := Planned(docs, t0.documents, Update); Worked(t1, t2, u, |u|, Update, f2, embed)
    requires var r := Planned(docs, t0.documents, Remove); Worked(t2, t3, r, |r|, Remove, f3, embed)
    ensures Ingested(t0, t3, docs, f1 + f2 + f3, embed)
  {
    hide Planned, Worked, Left, Same, Classify;
    forall k | 0 <= k < |docs|
      ensures Left(t0, t3, docs[k], Classify(t0.documents, docs[k]), docs[k].docId in f1 + f2 + f3, embed)
    {
      AssembleOne(t0, t1, t2, t3, docs, f1, f2, f3, embed, k);
    }
    forall id | !Among(docs, id) ensures Same(t0, t3, id) {
      AssembleOther(t0, t1, t2, t3, docs, f1, f2, f3, embed, id);
    }
  }

  lemma AssembleOne(t0: Tables, t1: Tables, t2: Tables, t3: Tables, docs: seq<Source>,
                    f1: seq<string>, f2: seq<string>, f3: seq<string>, embed: string -> Vector, k: nat)
    requires DistinctIds(docs) && k < |docs|
    requires var w := Planned(docs, t0.documents, Write); Worked(t0, t1, w, |w|, Write, f1, embed)
    requires var u := Planned(docs, t0.documents, Update); Worked(t1, t2, u, |u|, Update, f2, embed)
    requires var r := Planned(docs, t0.documents, Remove); Worked(t2, t3, r, |r|, Remove, f3, embed)
    ensures Left(t0, t3, docs[k], Classify(t0.documents, docs[k]), docs[k].docId in f1 + f2 + f3, embed)
  {
    var d, plan := docs[k], Classify(t0.documents, docs[k]);
    OwnList(docs, t0.documents, k, Write);
    OwnList(docs, t0.documents, k, Update);
    OwnList(docs, t0.documents, k, Remove);
    WorkedWhole(t0, t1, Planned(docs, t0.documents, Write), Write, f1, embed, d);
    WorkedWhole(t1, t2, Planned(docs, t0.documents, Update), Update, f2, embed, d);
    WorkedWhole(t2, t3, Planned(docs, t0.documents, Remove), Remove, f3, embed, d);
    hide Planned, Worked, Left, Classify, RowOf, ChunksOf;
    match plan
    case Write =>
      LeftStays(t0, t1, t2, d, Write, d.docId in f1, embed);
      LeftStays(t0, t2, t3, d, Write, d.docId in f1, embed);
    case Update =>
      LeftFrom(t0, t1, t2, d, Update, d.docId in f2, embed);
      LeftStays(t0, t2, t3, d, Update, d.docId in f2, embed);
    case Remove =>
      assert Same(t0, t2, d.docId);
      LeftFrom(t0, t2, t3, d, Remove, d.docId in f3, embed);
    case Unchanged => LeftAlone(t0, t3, d, plan, embed);
    case Skip => LeftAlone(t0, t3, d, plan, embed);
  }

  lemma LeftAlone(a: Tables, b: Tables, d: Source, plan: Plan, embed: string -> Vector)
    requires Same(a, b, d.docId) && (plan.Unchanged? || plan.Skip?)
    ensures Left(a, b, d, plan, false, embed)
  {
  }

  lemma AssembleOther(t0: Tables, t1: Tables, t2: Tables, t3: Tables, docs: seq<Source>,
                      f1: seq<string>, f2: seq<string>, f3: seq<string>, embed: string -> Vector, id: string)
    requires DistinctIds(docs) && !Among(docs, id)
    requires var w := Planned(docs, t0.documents, Write); Worked(t0, t1, w, |w|, Write, f1, embed)
    requires var u := Planned(docs, t0.documents, Update); Worked(t1, t2, u, |u|, Update, f2, embed)
    requires var r := Planned(docs, t0.documents, Remove); Worked(t2, t3, r, |r|, Remove, f3, embed)
    ensures Same(t0, t3, id)
  {
    var w, u, r := Planned(docs, t0.documents, Write), Planned(docs, t0.documents, Update), Planned(docs, t0.documents, Remove);
    NotPlanned(docs, t0.documents, Write, id);
    NotPlanned(docs, t0.documents, Update, id);
    NotPlanned(docs, t0.documents, Remove, id);
    hide Planned, Left, RowOf, ChunksOf;
    assert w[..|w|] == w && u[..|u|] == u && r[..|r|] == r;
  }

  // ---- what the batch guarantees ----

  /** Vectors stay those of their own texts through any batch with distinct ids, whatever fails. */
  lemma IngestKeepsVectors(t0: Tables, t: Tables, docs: seq<Source>, failed: seq<string>, embed: string -> Vector)
    requires InStep(t0) && InStep(t) && OwnVectors(t0, embed) && Ingested(t0, t, docs, failed, embed)
    ensures OwnVectors(t, embed)
  {
    forall i | i in t.chunks && i in t.vec ensures t.vec[i] == embed(t.chunks[i].text) {
      var id := t.chunks[i].docId;
      assert i in ChunksOf(t, id);
      if Among(docs, id) {
        var k :| 0 <= k < |docs| && docs[k].docId == id;
        LeftVector(t0, t, docs[k], Classify(t0.documents, docs[k]), docs[k].docId in failed, embed, i);
      } else {
        SameVector(t0, t, id, embed, i);
      }
    }
  }

  lemma SameVector(a: Tables, b: Tables, id: string, embed: string -> Vector, i: nat)
    requires InStep(a) && InStep(b) && OwnVectors(a, embed) && ChunksOf(a, id) == ChunksOf(b, id) && i in ChunksOf(b, id)
    ensures b.vec[i] == embed(b.chunks[i].text)
  {
    assert i in ChunksOf(a, id);
    assert ChunksOf(a, id)[i] == ChunksOf(b, id)[i];
  }

  lemma LeftVector(t0: Tables, t: Tables, d: Source, plan: Plan, failed: bool, embed: string -> Vector, i: nat)
    requires InStep(t0) && InStep(t) && OwnVectors(t0, embed) && Left(t0, t, d, plan, failed, embed) && i in ChunksOf(t, d.docId)
    ensures t.vec[i] == embed(t.chunks[i].text)
  {
    if !failed && plan.Write? {
      var vectors := EmbedAll(d.chunks, embed);
      var first: nat :| HoldsFrom(t, d, vectors, first);
      assert HoldsChunk(t, d, vectors, first, i - first);
    } else {
      SameVector(t0, t, d.docId, embed, i);
    }
  }

  lemma SameChunks(a: Tables, b: Tables, i: nat)
    requires InStep(a) && InStep(b) && (forall id :: Same(a, b, id)) && i in a.chunks
    ensures i in b.chunks && a.chunks[i] == b.chunks[i] && a.vec[i] == b.vec[i] && a.fts[i] == b.fts[i]
  {
    var id := a.chunks[i].docId;
    assert i in ChunksOf(a, id) && Same(a, b, id);
    assert i in ChunksOf(b, id);
    assert ChunksOf(a, id)[i] == ChunksOf(b, id)[i];
  }

  /** Tables in step that agree on every document id are equal. */
  lemma SameEverywhere(a: Tables, b: Tables)
    requires InStep(a) && InStep(b) && forall id :: Same(a, b, id)
    ensures a == b
  {
    forall id ensures RowOf(a, id) == RowOf(b, id) {
      assert Same(a, b, id);
    }
    forall i | i in a.chunks
      ensures i in b.chunks && a.chunks[i] == b.chunks[i] && a.vec[i] == b.vec[i] && a.fts[i] == b.fts[i]
    {
      SameChunks(a, b, i);
    }
    forall i | i in b.chunks ensures i in a.chunks {
      forall id ensures Same(b, a, id) {
        assert Same(a, b, id);
      }
      SameChunks(b, a, i);
    }
    hide Same;
    SameRows(a, b);
    assert a.chunks == b.chunks && a.vec == b.vec && a.fts == b.fts;
  }

  lemma SameRows(a: Tables, b: Tables)
    requires forall id :: RowOf(a, id) == RowOf(b, id)
    ensures a.documents == b.documents
  {
    forall id ensures id in a.documents <==> id in b.documents {
      assert RowOf(a, id) == RowOf(b, id);
    }
    forall id | id in a.documents ensures a.documents[id] == b.documents[id] {
      assert RowOf(a, id) == RowOf(b, id);
    }
  }

  /** After a run without failures nothing of the batch is left to do. */
  lemma NothingLeftToDo(t0: Tables, t: Tables, docs: seq<Source>, embed: string -> Vector, k: nat)
    requires Ingested(t0, t, docs, [], embed) && k < |docs|
    ensures Classify(t.documents, docs[k]) == if docs[k].chunks == [] then Skip else Unchanged
  {
    hide ChunksOf;
    var d := docs[k];
    assert Left(t0, t, d, Classify(t0.documents, d), false, embed);
    assert RowOf(t, d.docId) == if d.chunks == [] then None else Some(DocumentRow(d.metadata, d.contentHash));
  }

  /**
   Ingesting the same batch again after a run without failures changes nothing, fails nothing, and counts every
   document as unchanged or as empty.
   */
  lemma ReingestIsIdle(t0: Tables, t1: Tables, t2: Tables, docs: seq<Source>, failed: seq<string>, embed: string -> Vector)
    requires DistinctIds(docs) && InStep(t1) && InStep(t2)
    requires Ingested(t0, t1, docs, [], embed) && Ingested(t1, t2, docs, failed, embed)
    ensures t2 == t1
    ensures |Planned(docs, t1.documents, Unchanged)| + |Planned(docs, t1.documents, Skip)| == |docs|
  {
    forall id ensures Same(t1, t2, id) {
      if Among(docs, id) {
        var k :| 0 <= k < |docs| && docs[k].docId == id;
        NothingLeftToDo(t0, t1, docs, embed, k);
        assert Left(t1, t2, docs[k], Classify(t1.documents, docs[k]), docs[k].docId in failed, embed);
      }
    }
    SameEverywhere(t1, t2);
    forall k | 0 <= k < |docs| ensures Classify(t1.documents, docs[k]) == if docs[k].chunks == [] then Skip else Unchanged {
      NothingLeftToDo(t0, t1, docs, embed, k);
    }
    AllKeptOrSkipped(docs, t1.documents);
  }

  lemma {:induction false} AllKeptOrSkipped(docs: seq<Source>, existing: map<string, DocumentRow>)
    requires forall k :: 0 <= k < |docs| ==> Classify(existing, docs[k]) == if docs[k].chunks == [] then Skip else Unchanged
    ensures |Planned(docs, existing, Unchanged)| + |Planned(docs, existing, Skip)| == |docs|
  {
    hide Classify;
    if docs != [] {
      var earlier := docs[..|docs| - 1];
      assert forall k :: 0 <= k < |earlier| ==> earlier[k] == docs[k];
      AllKeptOrSkipped(earlier, existing);
    }
  }

  /**
   Two documents under one id, the second refused by the schema: although no call fails, the batch leaves the first one
   stored with vectors of the second.
   */
  method DuplicateIdsMixVectors(a: Source, b: Source, embed: string -> Vector) returns (store: Store)
    requires a.docId == b.docId && a.chunks != [] && b.chunks != []
    requires Writable(a, |b.chunks|) && !Writable(b, |b.chunks|) && !Agree(a, b, embed)
    ensures !OwnVectors(store.tables, embed)
  {
    store := new Store(_ => false);
    var t0 := store.tables;
    PairIsWritten(a, b, embed);
    NewBatch(a, b);
    EmptyIsOwn(t0, embed);
    hide *;
    var summary, states, oks := IngestDocuments(store, [a, b], embed, true, true);
    FirstOnly(states, oks, a, b, embed, store.fails, store.calls);
  }

  /** With distinct ids every document is the last under its own id. */
  lemma DistinctIsNotMixed(docs: seq<Source>, embed: string -> Vector)
    requires DistinctIds(docs)
    ensures NoneMixed(docs, embed)
  {
    hide LastWith;
    forall k | 0 <= k < |docs| ensures NotMixed(docs, docs[k], embed) {
      if Among(docs, docs[k].docId) {
        var l := LastWith(docs, docs[k].docId);
        var i :| 0 <= i < |docs| && docs[i] == l;
        assert i == k;
      }
    }
  }

  lemma EmptyIsOwn(t: Tables, embed: string -> Vector)
    requires t == Tables(map[], map[], map[], map[])
    ensures InStep(t) && OwnVectors(t, embed)
  {
  }

  lemma NewBatch(a: Source, b: Source)
    requires a.chunks != [] && b.chunks != []
    ensures Planned([a, b], map[], Write) == [a, b]
    ensures Planned([a, b], map[], Update) == [] && Planned([a, b], map[], Remove) == []
  {
    forall plan: Plan ensures Planned([a, b], map[], plan) == if plan == Write then [a, b] else [] {
      assert [a, b][..1] == [a] && [a][..0] == [];
      assert Classify(map[], a) == Write && Classify(map[], b) == Write;
      assert Planned([], map[], plan) == [];
      assert Planned([a], map[], plan) == if plan == Write then [] + [a] else [];
    }
  }

  lemma PairIsWritten(a: Source, b: Source, embed: string -> Vector)
    requires a.docId == b.docId
    ensures var v := VectorsBy([a, b], embed); a.docId in v && v[a.docId] == EmbedAll(b.chunks, embed)
  {
    assert [a, b][..1] == [a];
  }

  lemma FirstOnly(states: seq<Tables>, oks: seq<bool>, a: Source, b: Source, embed: string -> Vector, fails: nat -> bool, hi: nat)
    requires a.docId == b.docId && Writable(a, |b.chunks|) && !Writable(b, |b.chunks|) && !Agree(a, b, embed)
    requires var v := VectorsBy([a, b], embed);
      IsPass(states, oks, [a, b], v) && Caused(oks, [a, b], Write, v, fails, 0, hi)
    requires InStep(states[0]) && OwnVectors(states[0], embed) && !Broken(fails, 0, hi)
    ensures !OwnVectors(states[2], embed)
  {
    PairIsWritten(a, b, embed);
    hide VectorsBy, EmbedAll, Writable, Wrote, InStep, OwnVectors, Agree, Broken;
    var v := VectorsBy([a, b], embed);
    assert Fit(Write, a, v) && !Fit(Write, b, v);
    assert [a, b][0] == a && [a, b][1] == b;
    assert oks[0] && !oks[1];
    WriteOwn(states[0], states[1], a, b, embed);
    NotWritten(states[1], states[2], b, v[b.docId]);
  }

  lemma NotWritten(a: Tables, b: Tables, d: Source, vectors: seq<Vector>)
    requires Wrote(a, b, d, vectors, false)
    ensures b == a
  {
  }

  /** A document failed exactly when its own pass failed on it. */
  lemma OwnFailures(t0: Tables, t1: Tables, t2: Tables, t3: Tables, docs: seq<Source>,
                    f1: seq<string>, f2: seq<string>, f3: seq<string>, embed: string -> Vector)
    requires DistinctIds(docs)
    requires var w := Planned(docs, t0.documents, Write); Worked(t0, t1, w, |w|, Write, f1, embed)
    requires var u := Planned(docs, t0.documents, Update); Worked(t1, t2, u, |u|, Update, f2, embed)
    requires var r := Planned(docs, t0.documents, Remove); Worked(t2, t3, r, |r|, Remove, f3, embed)
    ensures SameFailures(Planned(docs, t0.documents, Write), f1, f1 + f2 + f3)
    ensures SameFailures(Planned(docs, t0.documents, Update), f2, f1 + f2 + f3)
    ensures SameFailures(Planned(docs, t0.documents, Remove), f3, f1 + f2 + f3)
  {
    var w, u, r := Planned(docs, t0.documents, Write), Planned(docs, t0.documents, Update), Planned(docs, t0.documents, Remove);
    hide Planned, Worked, Classify;
    forall k | 0 <= k < |w| ensures w[k].docId in f1 <==> w[k].docId in f1 + f2 + f3 {
      NotInOthers(docs, t0.documents, Write, w[k]);
      WorkedWhole(t1, t2, u, Update, f2, embed, w[k]);
      WorkedWhole(t2, t3, r, Remove, f3, embed, w[k]);
    }
    forall k | 0 <= k < |u| ensures u[k].docId in f2 <==> u[k].docId in f1 + f2 + f3 {
      NotInOthers(docs, t0.documents, Update, u[k]);
      WorkedWhole(t0, t1, w, Write, f1, embed, u[k]);
      WorkedWhole(t2, t3, r, Remove, f3, embed, u[k]);
    }
    forall k | 0 <= k < |r| ensures r[k].docId in f3 <==> r[k].docId in f1 + f2 + f3 {
      NotInOthers(docs, t0.documents, Remove, r[k]);
      WorkedWhole(t0, t1, w, Write, f1, embed, r[k]);
      WorkedWhole(t1, t2, u, Update, f2, embed, r[k]);
    }
  }

  ghost predicate SameFailures(docs: seq<Source>, f: seq<string>, g: seq<string>) {
    forall k :: 0 <= k < |docs| ==> (docs[k].docId in f <==> docs[k].docId in g)
  }

  lemma NotInOthers(docs: seq<Source>, existing: map<string, DocumentRow>, plan: Plan, d: Source)
    requires DistinctIds(docs) && d in Planned(docs, existing, plan)
    ensures forall other :: other != plan ==> !Among(Planned(docs, existing, other), d.docId)
  {
    hide Planned, Classify;
    PlannedHas(docs, existing, plan, d);
    var i :| 0 <= i < |docs| && docs[i] == d;
    forall other | other != plan ensures !Among(Planned(docs, existing, other), d.docId) {
      OwnList(docs, existing, i, other);
    }
  }

  /** What is to be updated or removed is stored. */
  lemma PlannedAreStored(docs: seq<Source>, existing: map<string, DocumentRow>)
    ensures AllStored(Planned(docs, existing, Update), existing) && AllStored(Planned(docs, existing, Remove), existing)
  {
    var u, r := Planned(docs, existing, Update), Planned(docs, existing, Remove);
    hide Planned;
    forall k | 0 <= k < |u| ensures u[k].docId in existing {
      PlannedHas(docs, existing, Update, u[k]);
    }
    forall k | 0 <= k < |r| ensures r[k].docId in existing {
      PlannedHas(docs, existing, Remove, r[k]);
    }
  }

  lemma CountedSame(docs: seq<Source>, existing: map<string, DocumentRow>, f: seq<string>, g: seq<string>,
                    created: nat, replaced: nat, written: nat)
    requires Counted(docs, existing, f, created, replaced, written) && SameFailures(docs, f, g)
    ensures Counted(docs, existing, g, created, replaced, written)
  {
    SameTally(docs, existing, f, g);
  }
}

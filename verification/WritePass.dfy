/**
 The write pass of an ingest over any list of documents, with any of the writes failing: which vectors the chunks end
 up with when a document id is repeated.
 */
module WritePass {
  import opened Basics
  import opened MemoryStore

  function EmbedAll(chunks: seq<Chunk>, embed: string -> Vector): (r: seq<Vector>)
    ensures |r| == |chunks|
  {
    seq(|chunks|, i requires 0 <= i < |chunks| => embed(chunks[i].text))
  }

  /** The vectors kept under each document id: of the last document that has it. */
  function VectorsBy(docs: seq<Source>, embed: string -> Vector): map<string, seq<Vector>> {
    if docs == [] then map[]
    else VectorsBy(docs[..|docs| - 1], embed)[docs[|docs| - 1].docId := EmbedAll(docs[|docs| - 1].chunks, embed)]
  }

  predicate Among(docs: seq<Source>, id: string) {
    exists i :: 0 <= i < |docs| && docs[i].docId == id
  }

  function LastWith(docs: seq<Source>, id: string): (d: Source)
    requires Among(docs, id)
    ensures d in docs && d.docId == id
  {
    if docs[|docs| - 1].docId == id then docs[|docs| - 1]
    else
      assert Among(docs[..|docs| - 1], id) by {
        var i :| 0 <= i < |docs| && docs[i].docId == id;
        assert docs[..|docs| - 1][i] == docs[i];
      }
      LastWith(docs[..|docs| - 1], id)
  }

  lemma {:induction false} VectorsOfLast(docs: seq<Source>, id: string, embed: string -> Vector)
    requires Among(docs, id)
    ensures id in VectorsBy(docs, embed) && VectorsBy(docs, embed)[id] == EmbedAll(LastWith(docs, id).chunks, embed)
  {
    if docs[|docs| - 1].docId != id {
      var i :| 0 <= i < |docs| && docs[i].docId == id;
      assert docs[..|docs| - 1][i] == docs[i];
      VectorsOfLast(docs[..|docs| - 1], id, embed);
    }
  }

  // ---- the pass ----

  ghost predicate WroteAt(a: Tables, b: Tables, d: Source, vectors: seq<Vector>, first: nat) {
    Past(Deleted(a, d.docId).chunks.Keys, first) && b == Replaced(a, d, vectors, first)
  }

  /** One document: replaced with the vectors kept under its id, or, its savepoint rolled back, as it was. */
  ghost predicate Wrote(a: Tables, b: Tables, d: Source, vectors: seq<Vector>, ok: bool) {
    if ok then Writable(d, |vectors|) && exists first: nat :: WroteAt(a, b, d, vectors, first) else b == a
  }

  /** The tables before, between and after the writes of a list, and which of them succeeded. */
  ghost predicate IsPass(states: seq<Tables>, oks: seq<bool>, docs: seq<Source>, vectors: map<string, seq<Vector>>) {
    && |states| == |docs| + 1 && |oks| == |docs|
    && forall k :: 0 <= k < |docs| ==>
         docs[k].docId in vectors && Wrote(states[k], states[k + 1], docs[k], vectors[docs[k].docId], oks[k])
  }

  lemma PassNone(t0: Tables, docs: seq<Source>, vectors: map<string, seq<Vector>>)
    ensures IsPass([t0], [], docs[..0], vectors)
  {
  }

  lemma PassMore(states: seq<Tables>, oks: seq<bool>, docs: seq<Source>, n: nat, vectors: map<string, seq<Vector>>,
                 t: Tables, ok: bool, first: nat)
    requires n < |docs| && IsPass(states, oks, docs[..n], vectors) && docs[n].docId in vectors
    requires var d, v := docs[n], vectors[docs[n].docId];
      if ok then Writable(d, |v|) && Past(Deleted(states[n], d.docId).chunks.Keys, first) && t == Replaced(states[n], d, v, first)
      else t == states[n]
    ensures IsPass(states + [t], oks + [ok], docs[..n + 1], vectors)
  {
    hide Replaced, Deleted, Writable, Past;
    assert ok ==> WroteAt(states[n], t, docs[n], vectors[docs[n].docId], first);
    hide WroteAt;
    forall k | 0 <= k < n + 1
      ensures docs[k].docId in vectors
              && Wrote((states + [t])[k], (states + [t])[k + 1], docs[k], vectors[docs[k].docId], (oks + [ok])[k])
    {
      if k < n {
        assert docs[..n][k] == docs[k];
      }
    }
  }

  /** A successful write stores the document up to the shorter of its own chunks and the vectors kept under its id. */
  lemma WrittenIsCut(a: Tables, b: Tables, d: Source, vectors: seq<Vector>)
    requires InStep(a) && Wrote(a, b, d, vectors, true)
    ensures var n := Min(|d.chunks|, |vectors|); Holds(b, Cut(d, n), vectors[..n])
  {
    hide Replaced, Holds;
    var first: nat :| WroteAt(a, b, d, vectors, first);
    ReplacedHoldsCut(a, d, vectors, first);
  }

  // ---- whose vectors ----

  /** Two documents whose embeddings agree at every chunk position both have. */
  predicate Agree(d: Source, l: Source, embed: string -> Vector) {
    forall i :: 0 <= i < Min(|d.chunks|, |l.chunks|) ==> embed(d.chunks[i].text) == embed(l.chunks[i].text)
  }

  /** Every document of the list that can be written agrees with the last one under its id. */
  predicate NoneMixed(docs: seq<Source>, embed: string -> Vector) {
    forall k :: 0 <= k < |docs| ==> NotMixed(docs, docs[k], embed)
  }

  predicate NotMixed(docs: seq<Source>, d: Source, embed: string -> Vector) {
    Among(docs, d.docId) ==>
      var l := LastWith(docs, d.docId); Writable(d, |l.chunks|) ==> Agree(d, l, embed)
  }

  /** Whichever writes fail, every chunk ends up with the vector of its own text. */
  ghost predicate AlwaysOwn(t0: Tables, docs: seq<Source>, embed: string -> Vector) {
    forall states, oks :: IsPass(states, oks, docs, VectorsBy(docs, embed)) && states[0] == t0 ==> OwnVectors(states[|docs|], embed)
  }

  /** A write gives every chunk its own vector exactly when the vectors agree with those of its texts. */
  lemma WriteOwn(a: Tables, b: Tables, d: Source, l: Source, embed: string -> Vector)
    requires InStep(a) && OwnVectors(a, embed) && Wrote(a, b, d, EmbedAll(l.chunks, embed), true)
    ensures InStep(b) && (OwnVectors(b, embed) <==> Agree(d, l, embed))
  {
    hide Replaced, Deleted, InStep, OwnVectors, Agree, EmbedAll;
    var vectors := EmbedAll(l.chunks, embed);
    var first: nat :| WroteAt(a, b, d, vectors, first);
    ReplacedKeepsStep(a, d, vectors, first);
    WriteOwnAt(a, d, l, first, embed);
  }

  lemma WriteOwnAt(a: Tables, d: Source, l: Source, first: nat, embed: string -> Vector)
    requires InStep(a) && OwnVectors(a, embed) && Past(Deleted(a, d.docId).chunks.Keys, first)
    ensures OwnVectors(Replaced(a, d, EmbedAll(l.chunks, embed), first), embed) <==> Agree(d, l, embed)
  {
    hide Replaced, Deleted;
    var vectors := EmbedAll(l.chunks, embed);
    ReplacedRows(a, d, vectors, first);
    DeletedKeepsOwn(a, d.docId, embed);
    KeptVectors(a, d.docId);
    hide InStep, Agree;
    RowsOwn(Deleted(a, d.docId), Replaced(a, d, vectors, first), d, l, first, embed);
  }

  lemma KeptVectors(t: Tables, docId: string)
    requires InStep(t)
    ensures forall i :: i in Deleted(t, docId).chunks ==> i in Deleted(t, docId).vec && Deleted(t, docId).vec[i] == t.vec[i]
    ensures forall i :: i in Deleted(t, docId).chunks ==> Deleted(t, docId).chunks[i] == t.chunks[i]
  {
  }

  lemma RowsOwn(bare: Tables, b: Tables, d: Source, l: Source, first: nat, embed: string -> Vector)
    requires forall i :: i in bare.chunks ==> i in bare.vec && bare.vec[i] == embed(bare.chunks[i].text)
    requires b.vec.Keys == b.chunks.Keys
    requires forall i :: i in b.chunks <==> i in bare.chunks || first <= i < first + Min(|d.chunks|, |l.chunks|)
    requires forall i :: i in bare.chunks ==> b.chunks[i] == bare.chunks[i] && b.vec[i] == bare.vec[i]
    requires forall i :: first <= i < first + Min(|d.chunks|, |l.chunks|) ==>
      b.chunks[i].text == d.chunks[i - first].text && b.vec[i] == embed(l.chunks[i - first].text)
    ensures OwnVectors(b, embed) <==> Agree(d, l, embed)
  {
    if OwnVectors(b, embed) {
      forall i | 0 <= i < Min(|d.chunks|, |l.chunks|) ensures embed(d.chunks[i].text) == embed(l.chunks[i].text) {
        assert first + i in b.chunks && (first + i) - first == i;
      }
    }
  }

  lemma PassStep(states: seq<Tables>, oks: seq<bool>, docs: seq<Source>, k: nat, embed: string -> Vector)
    requires IsPass(states, oks, docs, VectorsBy(docs, embed)) && k < |docs|
    ensures Among(docs, docs[k].docId)
    ensures Wrote(states[k], states[k + 1], docs[k], EmbedAll(LastWith(docs, docs[k].docId).chunks, embed), oks[k])
  {
    hide Wrote, VectorsBy, EmbedAll, LastWith;
    VectorsOfLast(docs, docs[k].docId, embed);
  }

  lemma WriteKeepsOwn(a: Tables, b: Tables, d: Source, l: Source, ok: bool, embed: string -> Vector)
    requires InStep(a) && OwnVectors(a, embed) && Wrote(a, b, d, EmbedAll(l.chunks, embed), ok)
    requires Writable(d, |l.chunks|) ==> Agree(d, l, embed)
    ensures InStep(b) && OwnVectors(b, embed)
  {
    hide InStep, OwnVectors, Agree, EmbedAll, WroteAt, Writable;
    if ok {
      WriteOwn(a, b, d, l, embed);
    }
  }

  lemma {:induction false} PassKeepsOwn(states: seq<Tables>, oks: seq<bool>, docs: seq<Source>, n: nat, embed: string -> Vector)
    requires IsPass(states, oks, docs, VectorsBy(docs, embed)) && n <= |docs| && NoneMixed(docs, embed)
    requires InStep(states[0]) && OwnVectors(states[0], embed)
    ensures InStep(states[n]) && OwnVectors(states[n], embed)
  {
    hide InStep, OwnVectors, Agree, LastWith, EmbedAll, VectorsBy, Wrote, Writable;
    if n > 0 {
      PassKeepsOwn(states, oks, docs, n - 1, embed);
      PassStep(states, oks, docs, n - 1, embed);
      assert NotMixed(docs, docs[n - 1], embed);
      WriteKeepsOwn(states[n - 1], states[n], docs[n - 1], LastWith(docs, docs[n - 1].docId), oks[n - 1], embed);
    }
  }

  lemma SomePast(ids: set<nat>) returns (first: nat)
    ensures Past(ids, first)
  {
    if ids == {} {
      first := 0;
    } else {
      var i :| i in ids;
      var past := SomePast(ids - {i});
      first := if i < past then past else i + 1;
      forall j | j in ids ensures j < first {
        assert j != i ==> j in ids - {i};
      }
    }
  }

  /** The pass in which every write but number `k` fails. */
  lemma OnlyOne(t0: Tables, docs: seq<Source>, k: nat, embed: string -> Vector) returns (states: seq<Tables>, oks: seq<bool>)
    requires k < |docs| && Among(docs, docs[k].docId) && Writable(docs[k], |LastWith(docs, docs[k].docId).chunks|)
    ensures IsPass(states, oks, docs, VectorsBy(docs, embed)) && states[0] == t0
    ensures Wrote(t0, states[|docs|], docs[k], EmbedAll(LastWith(docs, docs[k].docId).chunks, embed), true)
  {
    var d := docs[k];
    var vectors := EmbedAll(LastWith(docs, d.docId).chunks, embed);
    hide Replaced, Deleted, VectorsBy, EmbedAll, Past, Writable, LastWith;
    var first := SomePast(Deleted(t0, d.docId).chunks.Keys);
    var t := Replaced(t0, d, vectors, first);
    assert WroteAt(t0, t, d, vectors, first);
    hide WroteAt;
    oks := seq(|docs|, i => i == k);
    states := seq(|docs| + 1, i => if i <= k then t0 else t);
    forall i | 0 <= i < |docs|
      ensures docs[i].docId in VectorsBy(docs, embed)
              && Wrote(states[i], states[i + 1], docs[i], VectorsBy(docs, embed)[docs[i].docId], oks[i])
    {
      assert Among(docs, docs[i].docId);
      VectorsOfLast(docs, docs[i].docId, embed);
    }
  }

  /**
   Every chunk keeps the vector of its own text, whichever writes of the list fail, exactly when no document that can
   be written differs from the last document under its id at a chunk position both have.
   */
  lemma OwnVectorsIff(t0: Tables, docs: seq<Source>, embed: string -> Vector)
    requires InStep(t0) && OwnVectors(t0, embed)
    ensures AlwaysOwn(t0, docs, embed) <==> NoneMixed(docs, embed)
  {
    hide OwnVectors, InStep, NoneMixed, VectorsBy, Wrote;
    if NoneMixed(docs, embed) {
      forall states, oks | IsPass(states, oks, docs, VectorsBy(docs, embed)) && states[0] == t0
        ensures OwnVectors(states[|docs|], embed)
      {
        PassKeepsOwn(states, oks, docs, |docs|, embed);
      }
    }
    if AlwaysOwn(t0, docs, embed) {
      forall k | 0 <= k < |docs| ensures NotMixed(docs, docs[k], embed) {
        OwnAt(t0, docs, k, embed);
      }
      AllNotMixed(docs, embed);
    }
  }

  lemma AllNotMixed(docs: seq<Source>, embed: string -> Vector)
    requires forall k :: 0 <= k < |docs| ==> NotMixed(docs, docs[k], embed)
    ensures NoneMixed(docs, embed)
  {
  }

  lemma OwnAt(t0: Tables, docs: seq<Source>, k: nat, embed: string -> Vector)
    requires InStep(t0) && OwnVectors(t0, embed) && AlwaysOwn(t0, docs, embed) && k < |docs|
    ensures NotMixed(docs, docs[k], embed)
  {
    hide OwnVectors, InStep, VectorsBy, Agree, LastWith, Writable, EmbedAll, Wrote;
    assert Among(docs, docs[k].docId);
    var l := LastWith(docs, docs[k].docId);
    if Writable(docs[k], |l.chunks|) {
      var states, oks := OnlyOne(t0, docs, k, embed);
      WriteOwn(t0, states[|docs|], docs[k], l, embed);
    }
  }

  lemma RenamedKeepsOwn(t: Tables, d: Source, embed: string -> Vector)
    requires OwnVectors(t, embed)
    ensures OwnVectors(Renamed(t, d), embed)
  {
  }

  lemma DeletedKeepsOwn(t: Tables, docId: string, embed: string -> Vector)
    requires InStep(t) && OwnVectors(t, embed)
    ensures OwnVectors(Deleted(t, docId), embed)
  {
    DeletedIs(t, docId);
    KeptVectors(t, docId);
  }
}

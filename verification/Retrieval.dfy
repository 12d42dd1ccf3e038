/**
 Reciprocal rank fusion over the reals, and the per-document quota on its ranking.
 */
module Retrieval {
  import opened Basics
  import opened Lexical

  const RRF_K: nat := 60

  datatype Scored = Scored(id: string, score: real)

  /** The sort key `(-score, id)`. */
  predicate Ahead(a: Scored, b: Scored) {
    a.score > b.score || (a.score == b.score && Less(a.id, b.id))
  }

  function Share(k: nat, rank: nat): real
    requires rank >= 1
  {
    1.0 / (k + rank) as real
  }

  /** What one list gives an id: a share for each place it holds. */
  function ListScore(ranked: seq<string>, id: string, k: nat): real {
    if ranked == [] then 0.0
    else ListScore(ranked[..|ranked| - 1], id, k) + if ranked[|ranked| - 1] == id then Share(k, |ranked|) else 0.0
  }

  function Score(lists: seq<seq<string>>, id: string, k: nat): real {
    if lists == [] then 0.0 else Score(lists[..|lists| - 1], id, k) + ListScore(lists[|lists| - 1], id, k)
  }

  predicate Listed(lists: seq<seq<string>>, id: string) {
    exists i :: 0 <= i < |lists| && id in lists[i]
  }

  ghost predicate IsRanking(out: seq<Scored>) {
    forall i, j :: 0 <= i < j < |out| ==> Ahead(out[i], out[j])
  }

  predicate HasId(out: seq<Scored>, id: string) {
    exists i :: 0 <= i < |out| && out[i].id == id
  }

  ghost predicate Fuses(out: seq<Scored>, lists: seq<seq<string>>, k: nat) {
    && IsRanking(out)
    && (forall i :: 0 <= i < |out| ==> Listed(lists, out[i].id) && out[i].score == Score(lists, out[i].id, k))
    && (forall id :: Listed(lists, id) ==> HasId(out, id))
  }

  /** The scores so far: the lists before `done`, and the first `n` places of the next one. */
  ghost predicate Scoring(scores: map<string, real>, lists: seq<seq<string>>, done: nat, n: nat, k: nat)
    requires done <= |lists| && (n > 0 ==> done < |lists| && n <= |lists[done]|)
  {
    && (forall id :: id in scores <==> Listed(lists[..done], id) || (n > 0 && id in lists[done][..n]))
    && (forall id :: id in scores ==>
          scores[id] == Score(lists[..done], id, k) + if n > 0 then ListScore(lists[done][..n], id, k) else 0.0)
  }

  lemma {:induction false} UnlistedScoresNothing(lists: seq<seq<string>>, id: string, k: nat)
    requires !Listed(lists, id)
    ensures Score(lists, id, k) == 0.0
  {
    if lists != [] {
      var earlier := lists[..|lists| - 1];
      assert forall i :: 0 <= i < |earlier| ==> earlier[i] == lists[i];
      UnlistedScoresNothing(earlier, id, k);
      AbsentScoresNothing(lists[|lists| - 1], id, k);
    }
  }

  lemma {:induction false} AbsentScoresNothing(ranked: seq<string>, id: string, k: nat)
    requires id !in ranked
    ensures ListScore(ranked, id, k) == 0.0
  {
    if ranked != [] {
      AbsentScoresNothing(ranked[..|ranked| - 1], id, k);
    }
  }

  lemma ScoringStep(scores: map<string, real>, lists: seq<seq<string>>, done: nat, n: nat, k: nat)
    requires done < |lists| && n < |lists[done]| && Scoring(scores, lists, done, n, k)
    ensures var id := lists[done][n];
            Scoring(scores[id := (if id in scores then scores[id] else 0.0) + Share(k, n + 1)], lists, done, n + 1, k)
  {
    hide Listed, Score;
    var ranked := lists[done];
    var id := ranked[n];
    var scores' := scores[id := (if id in scores then scores[id] else 0.0) + Share(k, n + 1)];
    assert ranked[..n + 1] == ranked[..n] + [id];
    if id !in scores {
      UnlistedScoresNothing(lists[..done], id, k);
      if n > 0 {
        AbsentScoresNothing(ranked[..n], id, k);
      }
    }
    forall x | x in scores' ensures scores'[x] == Score(lists[..done], x, k) + ListScore(ranked[..n + 1], x, k) {
      OnePlaceMore(ranked, n, x, k);
    }
  }

  lemma OnePlaceMore(ranked: seq<string>, n: nat, id: string, k: nat)
    requires n < |ranked|
    ensures ListScore(ranked[..n + 1], id, k)
            == (if n > 0 then ListScore(ranked[..n], id, k) else 0.0) + if ranked[n] == id then Share(k, n + 1) else 0.0
  {
    assert ranked[..n + 1][..n] == ranked[..n];
  }

  lemma ScoringNext(scores: map<string, real>, lists: seq<seq<string>>, done: nat, k: nat)
    requires done < |lists|
    requires Scoring(scores, lists, done, |lists[done]|, k)
    ensures Scoring(scores, lists, done + 1, 0, k)
  {
    var ranked := lists[done];
    assert ranked[..|ranked|] == ranked;
    assert lists[..done + 1][..done] == lists[..done];
    forall id ensures Listed(lists[..done + 1], id) <==> Listed(lists[..done], id) || id in ranked {
      var more := lists[..done + 1];
      assert more[done] == ranked && forall i :: 0 <= i < done ==> more[i] == lists[..done][i];
    }
    if ranked == [] {
      forall id ensures ListScore(ranked, id, k) == 0.0 {
        AbsentScoresNothing(ranked, id, k);
      }
    }
  }

  method InsertRanked(sorted: seq<Scored>, x: Scored) returns (r: seq<Scored>)
    requires IsRanking(sorted) && forall i :: 0 <= i < |sorted| ==> sorted[i].id != x.id
    ensures IsRanking(r) && |r| == |sorted| + 1
    ensures exists p: nat :: p <= |sorted| && r == sorted[..p] + [x] + sorted[p..]
  {
    var p := 0;
    while p < |sorted| && Ahead(sorted[p], x)
      invariant 0 <= p <= |sorted| && forall i :: 0 <= i < p ==> Ahead(sorted[i], x)
    {
      p := p + 1;
    }
    r := sorted[..p] + [x] + sorted[p..];
    forall i | p <= i < |sorted| ensures Ahead(x, sorted[i]) {
      LessIsTotal(x.id, sorted[p].id);
      if p < i {
        AheadIsTransitive(x, sorted[p], sorted[i]);
      }
    }
  }

  lemma AheadIsTransitive(a: Scored, b: Scored, c: Scored)
    requires Ahead(a, b) && Ahead(b, c)
    ensures Ahead(a, c)
  {
    if a.score == b.score == c.score {
      LessIsTransitive(a.id, b.id, c.id);
    }
  }

  /** Shares summed per id in nested loops, then sorted. */
  method ReciprocalRankFusion(lists: seq<seq<string>>, k: nat) returns (out: seq<Scored>)
    ensures Fuses(out, lists, k)
  {
    var scores: map<string, real> := map[];
    for done := 0 to |lists|
      invariant Scoring(scores, lists, done, 0, k)
    {
      for n := 0 to |lists[done]|
        invariant Scoring(scores, lists, done, n, k)
      {
        ScoringStep(scores, lists, done, n, k);
        var id := lists[done][n];
        scores := scores[id := (if id in scores then scores[id] else 0.0) + Share(k, n + 1)];
      }
      ScoringNext(scores, lists, done, k);
    }
    assert lists[..|lists|] == lists;
    out := SortScores(scores);
  }

  lemma StillListed(before: seq<Scored>, after: seq<Scored>, p: nat, x: Scored)
    requires p <= |before| && after == before[..p] + [x] + before[p..]
    ensures HasId(after, x.id) && forall id :: HasId(before, id) ==> HasId(after, id)
    ensures forall i :: 0 <= i < |after| ==> after[i] == x || after[i] in before
  {
    assert after[p] == x;
    forall id | HasId(before, id) ensures HasId(after, id) {
      var i :| 0 <= i < |before| && before[i].id == id;
      assert after[if i < p then i else i + 1].id == id;
    }
  }

  method SortScores(scores: map<string, real>) returns (out: seq<Scored>)
    ensures IsRanking(out)
    ensures forall i :: 0 <= i < |out| ==> out[i].id in scores && out[i].score == scores[out[i].id]
    ensures forall id :: id in scores ==> HasId(out, id)
  {
    out := [];
    var rest := scores.Keys;
    while rest != {}
      invariant rest <= scores.Keys && IsRanking(out)
      invariant forall i :: 0 <= i < |out| ==> out[i].id in scores && out[i].id !in rest && out[i].score == scores[out[i].id]
      invariant forall id :: id in scores && id !in rest ==> HasId(out, id)
      decreases |rest|
    {
      var id :| id in rest;
      ghost var before := out;
      out := InsertRanked(out, Scored(id, scores[id]));
      rest := rest - {id};
      ghost var p: nat :| p <= |before| && out == before[..p] + [Scored(id, scores[id])] + before[p..];
      StillListed(before, out, p, Scored(id, scores[id]));
    }
  }

  // ---- dominance ----

  predicate NoRepeats(ranked: seq<string>) {
    forall i, j :: 0 <= i < j < |ranked| ==> ranked[i] != ranked[j]
  }

  /** Wherever `b` is listed, `a` is listed before it. */
  ghost predicate Dominates(ranked: seq<string>, a: string, b: string) {
    forall j :: 0 <= j < |ranked| && ranked[j] == b ==> exists i :: 0 <= i < j && ranked[i] == a
  }

  /** In a list without repeats an id gets the share of its one place. */
  lemma {:induction false} OneShare(ranked: seq<string>, k: nat, i: nat)
    requires NoRepeats(ranked) && i < |ranked|
    ensures ListScore(ranked, ranked[i], k) == Share(k, i + 1)
  {
    var earlier := ranked[..|ranked| - 1];
    if i == |ranked| - 1 {
      AbsentScoresNothing(earlier, ranked[i], k);
    } else {
      OneShare(earlier, k, i);
    }
  }

  /** What a list without repeats gives an id: the reciprocal of its place, counted from 61, and nothing if it is not there. */
  lemma ListGives(ranked: seq<string>, id: string)
    requires NoRepeats(ranked)
    ensures forall i :: 0 <= i < |ranked| && ranked[i] == id ==> ListScore(ranked, id, RRF_K) == 1.0 / (61 + i) as real
    ensures id !in ranked ==> ListScore(ranked, id, RRF_K) == 0.0
  {
    forall i | 0 <= i < |ranked| && ranked[i] == id ensures ListScore(ranked, id, RRF_K) == 1.0 / (61 + i) as real {
      OneShare(ranked, RRF_K, i);
    }
    if id !in ranked {
      AbsentScoresNothing(ranked, id, RRF_K);
    }
  }

  /** The fused score of two lists is the sum of what each gives; higher scores come first, and equal ones by id. */
  lemma FusionMeans(a: seq<string>, b: seq<string>, out: seq<Scored>, k: nat)
    requires Fuses(out, [a, b], k)
    ensures forall i :: 0 <= i < |out| ==>
      && (out[i].id in a || out[i].id in b)
      && out[i].score == ListScore(a, out[i].id, k) + ListScore(b, out[i].id, k)
    ensures forall i, j :: 0 <= i < j < |out| ==>
      out[i].score > out[j].score || (out[i].score == out[j].score && exists d: nat :: DifferAt(out[i].id, out[j].id, d))
    ensures forall id :: id in a || id in b ==> exists i :: 0 <= i < |out| && out[i].id == id
  {
    forall id ensures Score([a, b], id, k) == ListScore(a, id, k) + ListScore(b, id, k) {
      TwoScores(a, b, id, k);
    }
    forall id ensures Listed([a, b], id) <==> id in a || id in b {
      assert [a, b][0] == a && [a, b][1] == b;
    }
    hide Score, ListScore, Listed, DifferAt;
    forall i, j | 0 <= i < j < |out|
      ensures out[i].score > out[j].score || (out[i].score == out[j].score && exists d: nat :: DifferAt(out[i].id, out[j].id, d))
    {
      assert Ahead(out[i], out[j]);
      LessMeans(out[i].id, out[j].id);
    }
    forall id | id in a || id in b ensures exists i :: 0 <= i < |out| && out[i].id == id {
      assert Listed([a, b], id) && HasId(out, id);
    }
  }

  lemma TwoScores(a: seq<string>, b: seq<string>, id: string, k: nat)
    ensures Score([a, b], id, k) == ListScore(a, id, k) + ListScore(b, id, k)
  {
    hide ListScore;
    assert [a, b][..1] == [a] && [a][..0] == [];
    assert Score([], id, k) == 0.0;
    assert Score([a], id, k) == ListScore(a, id, k);
  }

  lemma ShareFalls(k: nat, m: nat, n: nat)
    requires 1 <= m < n
    ensures Share(k, m) > Share(k, n) > 0.0
  {
    var x, y := (k + m) as real, (k + n) as real;
    assert 1.0 / x - 1.0 / y == (y - x) / (x * y);
  }

  lemma ListDominance(ranked: seq<string>, a: string, b: string, k: nat)
    requires NoRepeats(ranked) && Dominates(ranked, a, b)
    ensures ListScore(ranked, a, k) >= ListScore(ranked, b, k)
    ensures b in ranked ==> ListScore(ranked, a, k) > ListScore(ranked, b, k)
  {
    if b in ranked {
      var j :| 0 <= j < |ranked| && ranked[j] == b;
      var i :| 0 <= i < j && ranked[i] == a;
      OneShare(ranked, k, i);
      OneShare(ranked, k, j);
      ShareFalls(k, i + 1, j + 1);
    } else {
      AbsentScoresNothing(ranked, b, k);
      ListScoreIsNatural(ranked, a, k);
    }
  }

  lemma {:induction false} ListScoreIsNatural(ranked: seq<string>, id: string, k: nat)
    ensures ListScore(ranked, id, k) >= 0.0
  {
    if ranked != [] {
      ListScoreIsNatural(ranked[..|ranked| - 1], id, k);
      ShareFalls(k, |ranked|, |ranked| + 1);
    }
  }

  lemma {:induction false} ScoreDominance(lists: seq<seq<string>>, a: string, b: string, k: nat)
    requires forall i :: 0 <= i < |lists| ==> NoRepeats(lists[i]) && Dominates(lists[i], a, b)
    ensures Score(lists, a, k) >= Score(lists, b, k)
    ensures Listed(lists, b) ==> Score(lists, a, k) > Score(lists, b, k)
  {
    if lists != [] {
      var earlier := lists[..|lists| - 1];
      ScoreDominance(earlier, a, b, k);
      ListDominance(lists[|lists| - 1], a, b, k);
      hide NoRepeats, Dominates, ListScore;
      if Listed(lists, b) && b !in lists[|lists| - 1] {
        var i :| 0 <= i < |lists| && b in lists[i];
        assert b in earlier[i];
      }
    }
  }

  /** An id ranked above another in every list that has the other always precedes it in the fusion. */
  lemma DominantPrecedes(lists: seq<seq<string>>, out: seq<Scored>, a: string, b: string, k: nat)
      returns (i: nat, j: nat)
    requires Fuses(out, lists, k) && Listed(lists, b)
    requires forall i :: 0 <= i < |lists| ==> NoRepeats(lists[i]) && Dominates(lists[i], a, b)
    ensures i < j < |out| && out[i].id == a && out[j].id == b
    ensures forall m :: 0 <= m < |out| && (out[m].id == a || out[m].id == b) ==> m == i || m == j
  {
    ScoreDominance(lists, a, b, k);
    var n :| 0 <= n < |lists| && b in lists[n];
    var q :| 0 <= q < |lists[n]| && lists[n][q] == b;
    assert Dominates(lists[n], a, b);
    assert Listed(lists, a);
    i := PlaceOf(lists, out, k, a);
    j := PlaceOf(lists, out, k, b);
    hide Score, Listed, Dominates, NoRepeats;
    assert out[i].score > out[j].score;
    forall m | 0 <= m < |out| && (out[m].id == a || out[m].id == b) ensures m == i || m == j {
      if out[m].id == a {
        RankedOnce(out, lists, k, m, i);
      } else {
        RankedOnce(out, lists, k, m, j);
      }
    }
  }

  lemma PlaceOf(lists: seq<seq<string>>, out: seq<Scored>, k: nat, id: string) returns (i: nat)
    requires Fuses(out, lists, k) && Listed(lists, id)
    ensures i < |out| && out[i].id == id
  {
    i :| 0 <= i < |out| && out[i].id == id;
  }

  /** The sort key decides the ranking: an id has one place. */
  lemma RankedOnce(out: seq<Scored>, lists: seq<seq<string>>, k: nat, m: nat, n: nat)
    requires Fuses(out, lists, k) && m < |out| && n < |out| && out[m].id == out[n].id
    ensures m == n
  {
    hide Score;
    LessIsTotal(out[m].id, out[n].id);
  }

  /** The two lists fused, and the first `topK` kept when that is a positive number. */
  method FuseRankedIds(vectorIds: seq<string>, keywordIds: seq<string>, topK: int, k: nat) returns (top: seq<Scored>)
    ensures exists all :: Fuses(all, [vectorIds, keywordIds], k) && top <= all && |top| == if 0 < topK < |all| then topK else |all|
  {
    hide Fuses;
    var fused := ReciprocalRankFusion([vectorIds, keywordIds], k);
    top := FirstOf(fused, topK);
  }

  function FirstOf(ranked: seq<Scored>, topK: int): seq<Scored> {
    if 0 < topK < |ranked| then ranked[..topK] else ranked
  }

  // ---- the per-document quota ----

  datatype Hit = Hit(chunkId: string, docId: string)

  function CountOf(hits: seq<Hit>, doc: string): nat {
    if hits == [] then 0 else CountOf(hits[..|hits| - 1], doc) + if hits[|hits| - 1].docId == doc then 1 else 0
  }

  /** The hits that are among the first `quota` of their document, in rank order. */
  function WithinQuota(hits: seq<Hit>, quota: int): seq<Hit> {
    if hits == [] then []
    else if CountOf(hits[..|hits| - 1], hits[|hits| - 1].docId) < quota
    then WithinQuota(hits[..|hits| - 1], quota) + [hits[|hits| - 1]]
    else WithinQuota(hits[..|hits| - 1], quota)
  }

  /** Every document keeps exactly its quota or all it has. */
  lemma {:induction false} QuotaCount(hits: seq<Hit>, quota: int, doc: string)
    ensures CountOf(WithinQuota(hits, quota), doc) == Min(CountOf(hits, doc), Max(0, quota))
  {
    if hits != [] {
      var earlier, last := hits[..|hits| - 1], hits[|hits| - 1];
      QuotaCount(earlier, quota, doc);
      QuotaCount(earlier, quota, last.docId);
      var kept := WithinQuota(earlier, quota);
      assert (kept + [last])[..|kept|] == kept;
    }
  }

  /** The filter keeps, in rank order, each hit with fewer than `quota` hits of its document before it. */
  lemma {:induction false} QuotaOrder(hits: seq<Hit>, quota: int) returns (at: seq<nat>)
    ensures Picked(hits, WithinQuota(hits, quota), at)
    ensures forall k: nat :: k < |hits| ==> (k in at <==> Admitted(hits, quota, k))
  {
    if hits == [] {
      at := [];
    } else {
      hide Picked, CountOf;
      var earlier, last := hits[..|hits| - 1], hits[|hits| - 1];
      at := QuotaOrder(earlier, quota);
      PickedMore(earlier, WithinQuota(earlier, quota), at, last);
      assert hits == earlier + [last];
      forall k: nat | k < |earlier| ensures Admitted(hits, quota, k) <==> Admitted(earlier, quota, k) {
        assert earlier[..k] == hits[..k];
      }
      if CountOf(earlier, last.docId) < quota {
        at := at + [|earlier|];
      }
    }
  }

  /** Fewer than `quota` of the hits before this one are of its document. */
  predicate Admitted(hits: seq<Hit>, quota: int, k: nat)
    requires k < |hits|
  {
    CountOf(hits[..k], hits[k].docId) < quota
  }

  /** The filter is local: it only ever appends as more hits are seen. */
  lemma {:induction false} QuotaPrefix(hits: seq<Hit>, n: nat, quota: int)
    requires n <= |hits|
    ensures WithinQuota(hits[..n], quota) <= WithinQuota(hits, quota)
  {
    if n == |hits| {
      assert hits[..n] == hits;
    } else {
      var earlier := hits[..|hits| - 1];
      QuotaPrefix(earlier, n, quota);
      assert earlier[..n] == hits[..n];
    }
  }

  /** A walk that keeps per-document counters and stops as soon as it has `topK` hits, after at least one. */
  method DedupByDoc(hits: seq<Hit>, maxPerDoc: int, topK: int) returns (kept: seq<Hit>)
    ensures var all := WithinQuota(hits, maxPerDoc); kept == all[..Min(|all|, Max(1, topK))]
  {
    hide WithinQuota, CountOf;
    var counts: map<string, int> := map[];
    kept := [];
    NothingKept(hits, maxPerDoc);
    assert WithinQuota(hits[..0], maxPerDoc) == [];
    for n := 0 to |hits|
      invariant kept == WithinQuota(hits[..n], maxPerDoc) && (kept == [] || |kept| < topK)
      invariant Counting(counts, kept)
    {
      var doc := hits[n].docId;
      var count := if doc in counts then counts[doc] else 0;
      QuotaStep(hits, n, maxPerDoc);
      QuotaCount(hits[..n], maxPerDoc, doc);
      if count >= maxPerDoc {
        continue;
      }
      counts := counts[doc := count + 1];
      CountingMore(kept, hits[n]);
      kept := kept + [hits[n]];
      if |kept| >= topK {
        QuotaPrefix(hits, n + 1, maxPerDoc);
        break;
      }
    }
    assert hits[..|hits|] == hits;
  }

  lemma NothingKept(hits: seq<Hit>, quota: int)
    ensures WithinQuota(hits[..0], quota) == [] && Counting(map[], [])
  {
  }

  ghost predicate Counting(counts: map<string, int>, kept: seq<Hit>) {
    forall doc :: CountOf(kept, doc) == if doc in counts then counts[doc] else 0
  }

  lemma QuotaStep(hits: seq<Hit>, n: nat, quota: int)
    requires n < |hits|
    ensures WithinQuota(hits[..n + 1], quota)
            == if CountOf(hits[..n], hits[n].docId) < quota then WithinQuota(hits[..n], quota) + [hits[n]] else WithinQuota(hits[..n], quota)
  {
    assert hits[..n + 1][..n] == hits[..n];
  }

  lemma CountingMore(kept: seq<Hit>, hit: Hit)
    ensures forall doc :: CountOf(kept + [hit], doc) == CountOf(kept, doc) + if doc == hit.docId then 1 else 0
  {
    assert (kept + [hit])[..|kept|] == kept;
  }

  /** A result shorter than asked for means that no document was cut short of its quota by anything but its own size. */
  lemma ShortMeansExhausted(hits: seq<Hit>, maxPerDoc: int, topK: int, kept: seq<Hit>, doc: string)
    requires var all := WithinQuota(hits, maxPerDoc); kept == all[..Min(|all|, Max(1, topK))]
    requires topK >= 1 && |kept| < topK
    ensures CountOf(kept, doc) == Min(CountOf(hits, doc), Max(0, maxPerDoc))
  {
    hide WithinQuota, CountOf;
    QuotaCount(hits, maxPerDoc, doc);
    var all := WithinQuota(hits, maxPerDoc);
    assert all[..|all|] == all;
  }
}

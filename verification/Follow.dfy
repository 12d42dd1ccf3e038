/**
 The down half of the sync plane, events: a client that polls a newest-first feed by walking back from its top to
 its own cursor, and prints what is new. The feed only grows, and may grow between the requests of one walk.
 */
module Follow {
  import opened Basics
  import opened Options

  datatype Event = Event(ingestSeq: int, id: string)

  /** The body of one answer of the feed. */
  datatype Reply = Reply(events: seq<Event>, nextAfter: Option<int>)

  ghost predicate Ascending(log: seq<Event>) {
    forall i, j :: 0 <= i < j < |log| ==> log[i].ingestSeq < log[j].ingestSeq
  }

  /** How many of the first `upTo` events have a number of at most `x`. */
  function AtMost(log: seq<Event>, upTo: nat, x: int): (k: nat)
    requires upTo <= |log|
    ensures k <= upTo
  {
    if upTo == 0 then 0
    else if log[upTo - 1].ingestSeq <= x then upTo
    else AtMost(log, upTo - 1, x)
  }

  lemma {:induction false} AtMostSplits(log: seq<Event>, upTo: nat, x: int)
    requires Ascending(log) && upTo <= |log|
    ensures forall i :: 0 <= i < upTo ==> (log[i].ingestSeq <= x <==> i < AtMost(log, upTo, x))
  {
    if upTo > 0 && log[upTo - 1].ingestSeq > x {
      AtMostSplits(log, upTo - 1, x);
    }
  }

  lemma AtMostIs(log: seq<Event>, upTo: nat, x: int, k: nat)
    requires Ascending(log) && k <= upTo <= |log|
    requires k > 0 ==> log[k - 1].ingestSeq <= x
    requires k < upTo ==> x < log[k].ingestSeq
    ensures AtMost(log, upTo, x) == k
  {
    AtMostSplits(log, upTo, x);
  }

  function Reverse<T>(s: seq<T>): seq<T> {
    seq(|s|, i requires 0 <= i < |s| => s[|s| - 1 - i])
  }

  /** The events at positions `lo .. hi`, newest first. */
  function Newest(log: seq<Event>, lo: nat, hi: nat): (r: seq<Event>)
    requires lo <= hi <= |log|
    ensures |r| == hi - lo
  {
    Reverse(log[lo..hi])
  }

  /** `SELECT TOP (limit) ... WHERE ingest_seq < after ORDER BY ingest_seq DESC` over the events committed so far. */
  function Recent(log: seq<Event>, committed: nat, limit: int, after: Option<int>): Reply
    requires committed <= |log|
  {
    var hi := if after.None? then committed else AtMost(log, committed, after.value - 1);
    var lo := Max(0, hi - PageSize(limit));
    if hi == 0 then Reply([], None)
    else Reply(Newest(log, lo, hi), Some(log[lo].ingestSeq))
  }

  /** The answers a walk may meet: request `k` fails, or sees a prefix of the log that never shrinks. */
  ghost predicate Grows(log: seq<Event>, observe: nat -> Option<nat>) {
    && (forall k :: observe(k).Some? ==> observe(k).value <= |log|)
    && (forall j, k :: j <= k && observe(j).Some? && observe(k).Some? ==> observe(j).value <= observe(k).value)
  }

  /** What a walk finds and the cursor it leaves. */
  datatype Walked = Walked(events: seq<Event>, cursor: Option<int>)

  /** The pages a walk takes at most: one page is always read. */
  function Pages(maxPages: int): nat {
    Max(1, maxPages) as nat
  }

  /** The events a walk reads at most. */
  function Reach(limit: int, maxPages: int): (r: nat)
    ensures r >= 1
  {
    ProductGrows(1, Pages(maxPages), PageSize(limit));
    Pages(maxPages) * PageSize(limit)
  }

  /** With `m` events committed and `c` of them seen, `maxPages` pages end before the walk knows it is done. */
  predicate Truncates(m: nat, c: nat, limit: int, maxPages: int) {
    if c == 0 then m > Reach(limit, maxPages) - PageSize(limit) && m > 0
    else m - c >= Reach(limit, maxPages)
  }

  /** What the walk does, from how much of the log its first request saw. */
  function Walk(log: seq<Event>, m: nat, limit: int, maxPages: int, cursor: Option<int>): Walked
    requires m <= |log|
  {
    if m == 0 then Walked([], cursor)
    else if cursor.None? then Walked([], Some(log[m - 1].ingestSeq))
    else
      var c := AtMost(log, m, cursor.value);
      var lo := Max(c, m - Reach(limit, maxPages));
      if Truncates(m, c, limit, maxPages) then Walked(log[lo..m], Some(log[lo].ingestSeq))
      else Walked(log[lo..m], Some(Max(log[m - 1].ingestSeq, cursor.value)))
  }

  /** The page a walk reads when it has read the events from `hi` on: what was appended meanwhile does not show. */
  lemma NextPage(log: seq<Event>, committed: nat, limit: int, hi: nat, after: Option<int>)
    requires Ascending(log) && hi <= committed <= |log|
    requires after.None? ==> hi == committed
    requires after.Some? ==> hi < committed && after.value == log[hi].ingestSeq
    ensures var page := Recent(log, committed, limit, after);
            var lo := Max(0, hi - PageSize(limit));
            && lo <= hi && (hi > 0 ==> lo < hi && Newest(log, lo, hi)[0] == log[hi - 1])
            && page == if hi == 0 then Reply([], None) else Reply(Newest(log, lo, hi), Some(log[lo].ingestSeq))
  {
    if after.Some? {
      AtMostIs(log, committed, log[hi].ingestSeq - 1, hi);
    }
  }

  /** The part of one page that is newer than the cursor. */
  method TakeNewer(page: seq<Event>, cursor: int) returns (newer: seq<Event>, boundary: bool)
    ensures newer <= page && (boundary <==> |newer| < |page|)
    ensures forall e :: e in newer ==> e.ingestSeq > cursor
    ensures boundary ==> page[|newer|].ingestSeq <= cursor
  {
    newer, boundary := [], false;
    for i := 0 to |page|
      invariant newer == page[..i] && !boundary
      invariant forall e :: e in newer ==> e.ingestSeq > cursor
    {
      if page[i].ingestSeq <= cursor {
        boundary := true;
        break;
      }
      newer := newer + [page[i]];
    }
  }

  lemma NewestPrefix(log: seq<Event>, lo: nat, hi: nat, n: nat)
    requires lo <= hi <= |log| && n <= hi - lo
    ensures Newest(log, lo, hi)[..n] == Newest(log, hi - n, hi)
  {
  }

  lemma PageMeetsCursor(log: seq<Event>, m: nat, lo: nat, hi: nat, cursor: int, newer: seq<Event>, boundary: bool)
    requires Ascending(log) && lo <= hi <= m <= |log| && AtMost(log, m, cursor) <= hi
    requires newer <= Newest(log, lo, hi) && (boundary <==> |newer| < hi - lo)
    requires forall e :: e in newer ==> e.ingestSeq > cursor
    requires boundary ==> Newest(log, lo, hi)[|newer|].ingestSeq <= cursor
    ensures boundary <==> AtMost(log, m, cursor) > lo
    ensures newer == Newest(log, Max(lo, AtMost(log, m, cursor)), hi)
  {
    hide Newest, AtMost;
    AtMostSplits(log, m, cursor);
    var page := Newest(log, lo, hi);
    if |newer| > 0 {
      NewestAt(log, lo, hi, |newer| - 1);
      assert newer[|newer| - 1] == page[|newer| - 1] && newer[|newer| - 1] in newer;
    }
    if boundary {
      NewestAt(log, lo, hi, |newer|);
      assert AtMost(log, m, cursor) == hi - |newer|;
      NewestPrefix(log, lo, hi, |newer|);
    } else {
      assert newer == page;
    }
  }

  lemma NewestAt(log: seq<Event>, lo: nat, hi: nat, i: nat)
    requires lo <= hi <= |log| && i < hi - lo
    ensures Newest(log, lo, hi)[i] == log[hi - 1 - i]
  {
  }

  lemma ReversePieces(log: seq<Event>, a: nat, b: nat, c: nat)
    requires a <= b <= c <= |log|
    ensures Newest(log, b, c) + Newest(log, a, b) == Newest(log, a, c)
  {
  }

  lemma ReverseTwice(log: seq<Event>, a: nat, b: nat)
    requires a <= b <= |log|
    ensures Reverse(Newest(log, a, b)) == log[a..b]
  {
  }

  /** The walk has read `pages` whole pages, all newer than the cursor, down to position `hi`. */
  ghost predicate Reading(log: seq<Event>, m: nat, limit: int, maxPages: int, cursor: Option<int>, pages: nat, hi: nat) {
    && m <= |log| && hi == Max(0, m - pages * PageSize(limit))
    && (pages > 0 ==> cursor.Some? && AtMost(log, m, cursor.value) <= hi < m
                      && m > (pages - 1) * PageSize(limit) && pages < Pages(maxPages))
  }

  lemma ReadOne(log: seq<Event>, m: nat, limit: int, maxPages: int, cursor: Option<int>, pages: nat, hi: nat)
    requires Ascending(log) && Reading(log, m, limit, maxPages, cursor, pages, hi) && cursor.Some? && hi > 0
    requires AtMost(log, m, cursor.value) <= Max(0, hi - PageSize(limit)) && pages + 1 < maxPages
    ensures Reading(log, m, limit, maxPages, cursor, pages + 1, Max(0, hi - PageSize(limit)))
  {
    MoreProduct(pages, PageSize(limit));
  }

  lemma MoreProduct(k: nat, size: nat)
    ensures (k + 1) * size == k * size + size
  {
  }

  lemma ProductGrows(j: nat, k: nat, size: nat)
    requires j <= k
    ensures j * size <= k * size
  {
  }

  lemma RanOut(log: seq<Event>, m: nat, limit: int, maxPages: int, cursor: Option<int>, pages: nat)
    requires Ascending(log) && Reading(log, m, limit, maxPages, cursor, pages, 0)
    ensures Walk(log, m, limit, maxPages, cursor) == Walked(log[0..m], if m == 0 then cursor else Some(Max(log[m - 1].ingestSeq, cursor.value)))
  {
    if pages > 0 {
      ProductGrows(pages, Pages(maxPages) - 1, PageSize(limit));
      MoreProduct(Pages(maxPages) - 1, PageSize(limit));
    }
  }

  lemma MetCursor(log: seq<Event>, m: nat, limit: int, maxPages: int, cursor: Option<int>, pages: nat, hi: nat)
    requires Ascending(log) && Reading(log, m, limit, maxPages, cursor, pages, hi) && cursor.Some? && 0 < hi
    requires Max(0, hi - PageSize(limit)) < AtMost(log, m, cursor.value)
    ensures Walk(log, m, limit, maxPages, cursor)
            == Walked(log[AtMost(log, m, cursor.value)..m], Some(Max(log[m - 1].ingestSeq, cursor.value)))
  {
    AtMostSplits(log, m, cursor.value);
    MoreProduct(pages, PageSize(limit));
    ProductGrows(pages + 1, Pages(maxPages), PageSize(limit));
  }

  lemma OutOfPages(log: seq<Event>, m: nat, limit: int, maxPages: int, cursor: Option<int>, pages: nat, hi: nat)
    requires Ascending(log) && Reading(log, m, limit, maxPages, cursor, pages, hi) && cursor.Some? && 0 < hi
    requires AtMost(log, m, cursor.value) <= Max(0, hi - PageSize(limit)) && pages + 1 >= maxPages
    ensures var lo := Max(0, hi - PageSize(limit));
            && lo < hi && log[lo].ingestSeq > cursor.value
            && Walk(log, m, limit, maxPages, cursor) == Walked(log[lo..m], Some(log[lo].ingestSeq))
  {
    AtMostSplits(log, m, cursor.value);
    MoreProduct(pages, PageSize(limit));
    assert Pages(maxPages) == pages + 1;
  }

  /** The walk, against a feed that grows under it and requests that may fail. */
  method WalkNewEvents(log: seq<Event>, observe: nat -> Option<nat>, limit: int, cursor: Option<int>, maxPages: int)
      returns (walked: Option<Walked>)
    requires Ascending(log) && Grows(log, observe)
    ensures walked.Some? ==> observe(0).Some? && walked.value == Walk(log, observe(0).value, limit, maxPages, cursor)
    ensures walked.None? ==> exists k: nat :: observe(k).None?
  {
    hide *;
    var collected: seq<Event> := [];
    var after, topSeq: Option<int> := None, None;
    var pages := 0;
    var truncated := false;

    ghost var m := if observe(0).Some? then observe(0).value else 0;
    if observe(0).Some? {
      NeverShrinks(log, observe, 0);
    }
    ghost var hi: nat := m;
    ghost var c := StartReading(log, m, limit, maxPages, cursor);
    while true
      invariant pages >= 0 && hi <= m <= |log| && !truncated
      invariant Reading(log, m, limit, maxPages, cursor, pages, hi)
      invariant pages == 0 ==> hi == m && after.None? && topSeq.None?
      invariant pages > 0 ==> observe(0).Some? && c <= hi < m && cursor.Some? && after == Some(log[hi].ingestSeq)
                              && topSeq == Some(log[m - 1].ingestSeq)
      invariant collected == Newest(log, hi, m)
      decreases hi
    {
      var committed := observe(pages);
      if committed.None? {
        return None;
      }
      NeverShrinks(log, observe, pages);
      NextPage(log, committed.value, limit, hi, after);
      ghost var lo: nat := Max(0, hi - PageSize(limit));
      var page := Recent(log, committed.value, limit, after);
      if page.events == [] {
        assert hi == 0;
        RanOut(log, m, limit, maxPages, cursor, pages);
        break;
      }
      if topSeq.None? {
        topSeq := Some(page.events[0].ingestSeq);
      }
      if cursor.None? {
        Baseline(log, m, limit, maxPages);
        break;
      }
      var newer, boundary := TakeNewer(page.events, cursor.value);
      PageMeetsCursor(log, m, lo, hi, cursor.value, newer, boundary);
      ReversePieces(log, Max(lo, c), hi, m);
      collected := collected + newer;
      pages := pages + 1;
      if boundary {
        MetCursor(log, m, limit, maxPages, cursor, pages - 1, hi);
        hi := c;
        break;
      }
      if pages >= maxPages {
        truncated := true;
        OutOfPages(log, m, limit, maxPages, cursor, pages - 1, hi);
        hi := lo;
        break;
      }
      ReadOne(log, m, limit, maxPages, cursor, pages - 1, hi);
      if page.nextAfter.None? {
        break;
      }
      hi := lo;
      after := page.nextAfter;
    }
    collected := Reverse(collected);
    ReverseTwice(log, hi, m);
    var newCursor :=
      if topSeq.None? then cursor
      else if cursor.None? then topSeq
      else if truncated && collected != [] then Some(Max(collected[0].ingestSeq, cursor.value))
      else Some(Max(topSeq.value, cursor.value));
    walked := Some(Walked(collected, newCursor));
  }

  lemma StartReading(log: seq<Event>, m: nat, limit: int, maxPages: int, cursor: Option<int>) returns (c: nat)
    requires Ascending(log) && m <= |log|
    ensures Reading(log, m, limit, maxPages, cursor, 0, m)
    ensures c <= m && (cursor.Some? ==> c == AtMost(log, m, cursor.value))
  {
    c := 0;
    if cursor.Some? {
      AtMostSplits(log, m, cursor.value);
      c := AtMost(log, m, cursor.value);
    }
  }

  lemma NeverShrinks(log: seq<Event>, observe: nat -> Option<nat>, k: nat)
    requires Grows(log, observe) && observe(k).Some?
    ensures observe(k).value <= |log| && (observe(0).Some? ==> observe(0).value <= observe(k).value)
  {
  }

  lemma Baseline(log: seq<Event>, m: nat, limit: int, maxPages: int)
    requires 0 < m <= |log|
    ensures Walk(log, m, limit, maxPages, None) == Walked([], Some(log[m - 1].ingestSeq))
  {
  }
}

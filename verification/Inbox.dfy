/**
 The down half of the sync plane, tasks: a poller walks the central tasks of one source repository forward by
 `change_seq`, projects each page into the local cards, and moves its stored cursor page by page.
 */
module Inbox {
  import opened Basics
  import opened Options
  import opened Cards

  /** The tasks of one source repository in change order, one row per identity; `clock` is the last number issued. */
  datatype Central = Central(tasks: seq<Task>, clock: int)

  ghost predicate InOrder(tasks: seq<Task>) {
    forall i, j :: 0 <= i < j < |tasks| ==> tasks[i].changeSeq < tasks[j].changeSeq
  }

  ghost predicate OneRowEach(tasks: seq<Task>) {
    forall i, j :: 0 <= i < j < |tasks| ==> tasks[i].globalId != tasks[j].globalId
  }

  ghost predicate ValidCentral(c: Central) {
    InOrder(c.tasks) && OneRowEach(c.tasks) && forall i :: 0 <= i < |c.tasks| ==> c.tasks[i].changeSeq <= c.clock
  }

  /** Every write gives its row a new number past the clock. */
  ghost predicate Evolves(a: Central, b: Central) {
    && a.clock <= b.clock
    && forall t :: t in b.tasks ==> t in a.tasks || t.changeSeq > a.clock
  }

  /** The cursor is at or past the row. */
  predicate Passed(t: Task, since: Option<int>) {
    since.Some? && t.changeSeq <= since.value
  }

  /** How many of the first `upTo` rows have a number of at most `since`; no cursor means none. */
  function BeforeIn(tasks: seq<Task>, upTo: nat, since: Option<int>): (k: nat)
    requires upTo <= |tasks|
    ensures k <= upTo
  {
    if upTo == 0 then 0
    else if Passed(tasks[upTo - 1], since) then upTo
    else BeforeIn(tasks, upTo - 1, since)
  }

  function Before(tasks: seq<Task>, since: Option<int>): (k: nat)
    ensures k <= |tasks|
  {
    BeforeIn(tasks, |tasks|, since)
  }

  lemma {:induction false} BeforeAt(tasks: seq<Task>, upTo: nat, since: Option<int>, i: nat)
    requires InOrder(tasks) && i < upTo <= |tasks|
    ensures Passed(tasks[i], since) <==> i < BeforeIn(tasks, upTo, since)
  {
    if Passed(tasks[upTo - 1], since) {
      assert i < upTo - 1 ==> tasks[i].changeSeq < tasks[upTo - 1].changeSeq;
    } else if i < upTo - 1 {
      BeforeAt(tasks, upTo - 1, since, i);
    }
  }

  lemma BeforeSplits(tasks: seq<Task>, since: Option<int>)
    requires InOrder(tasks)
    ensures forall i :: 0 <= i < |tasks| ==> (Passed(tasks[i], since) <==> i < Before(tasks, since))
  {
    forall i | 0 <= i < |tasks| ensures Passed(tasks[i], since) <==> i < Before(tasks, since) {
      BeforeAt(tasks, |tasks|, since, i);
    }
  }

  lemma BeforeIs(tasks: seq<Task>, k: nat)
    requires InOrder(tasks) && 0 < k <= |tasks|
    ensures Before(tasks, Some(tasks[k - 1].changeSeq)) == k
  {
    var since := Some(tasks[k - 1].changeSeq);
    BeforeAt(tasks, |tasks|, since, k - 1);
    if k < |tasks| {
      BeforeAt(tasks, |tasks|, since, k);
    }
  }

  function Pending(c: Central, since: Option<int>): seq<Task> {
    c.tasks[Before(c.tasks, since)..]
  }

  /** `SELECT TOP (limit) ... WHERE change_seq > since ORDER BY change_seq ASC`. */
  function PageAfter(c: Central, since: Option<int>, limit: int): seq<Task> {
    var rest := Pending(c, since);
    if |rest| <= PageSize(limit) then rest else rest[..PageSize(limit)]
  }

  /** The cursor after the last of `tasks`, or as it was when there is none. */
  function CursorPast(tasks: seq<Task>, since: Option<int>): Option<int> {
    if tasks == [] then since else Some(tasks[|tasks| - 1].changeSeq)
  }

  // ---- the cursor file ----

  /** The file as read: missing, unreadable or not an object; or a map of its integer entries. */
  datatype CursorFile = Unusable | Cursors(bySource: map<string, int>)

  function ReadCursors(f: CursorFile): map<string, int> {
    if f.Cursors? then f.bySource else map[]
  }

  function ReadCursor(f: CursorFile, source: string): Option<int> {
    if source in ReadCursors(f) then Some(ReadCursors(f)[source]) else None
  }

  function WithCursor(f: CursorFile, source: string, since: int): CursorFile {
    Cursors(ReadCursors(f)[source := since])
  }

  /** A write is read back, and leaves every other source's cursor alone. */
  lemma CursorRoundTrip(f: CursorFile, source: string, since: int, other: string)
    ensures ReadCursor(WithCursor(f, source, since), source) == Some(since)
    ensures other != source ==> ReadCursor(WithCursor(f, source, since), other) == ReadCursor(f, other)
  {
  }

  // ---- the poll ----

  /** What one poll meets: answer `k` of the server, or none; the display id and the fault of projection `k`. */
  datatype World = World(answers: nat -> Option<Central>, ids: nat -> string, faults: nat -> Fault)

  ghost predicate Consistent(w: World) {
    && (forall k :: w.answers(k).Some? ==> ValidCentral(w.answers(k).value))
    && (forall j, k :: j <= k && w.answers(j).Some? && w.answers(k).Some? ==> Evolves(w.answers(j).value, w.answers(k).value))
  }

  /** All of `tasks` projected in order; projection `i` would use display id `ids(i)`. */
  function ApplyAll(cards: seq<Card>, tasks: seq<Task>, ids: nat -> string): seq<Card> {
    if tasks == [] then cards
    else Projected(ApplyAll(cards, tasks[..|tasks| - 1], ids), tasks[|tasks| - 1], ids(|tasks| - 1))
  }

  lemma ApplyNone(cards: seq<Card>, ids: nat -> string)
    ensures ApplyAll(cards, [], ids) == cards
  {
  }

  lemma ApplyOne(cards: seq<Card>, tasks: seq<Task>, t: Task, ids: nat -> string)
    ensures ApplyAll(cards, tasks + [t], ids) == Projected(ApplyAll(cards, tasks, ids), t, ids(|tasks|))
  {
    assert (tasks + [t])[..|tasks|] == tasks;
  }

  // ---- what a poll is measured against ----

  /** Answers from number `from` on are later states of the center than `c`. */
  ghost predicate Later(w: World, c: Central, from: nat) {
    forall k :: k >= from && w.answers(k).Some? ==> Evolves(c, w.answers(k).value)
  }

  /** A poll that starts in step with an honest server. */
  ghost predicate Starts(w: World, c0: Central, since: Option<int>, cards: seq<Card>) {
    Mirror(c0, since, cards) && Consistent(w) && Later(w, c0, 0)
  }

  /** No central write happens during the poll. */
  ghost predicate Still(w: World, c: Central) {
    ValidCentral(c) && forall k :: w.answers(k).Some? ==> w.answers(k).value == c
  }

  /** A task the server answered with is refused as projection number `n`. */
  ghost predicate RefusedFrom(w: World, cards: seq<Card>, n: nat, k: nat, t: Task) {
    w.answers(k).Some? && t in w.answers(k).value.tasks && Refused(cards, t, w.ids(n), w.faults(n))
  }

  /** A request of the poll got no answer, or projection number `n` was refused, or the one before it could not be read back. */
  ghost predicate Stumbled(w: World, maxPages: int, cards: seq<Card>, n: nat) {
    || (exists k: nat :: k < maxPages && w.answers(k).None?)
    || (exists k: nat, t: Task :: k < maxPages && RefusedFrom(w, cards, n, k, t))
    || (n > 0 && w.faults(n - 1).NotReadBack?)
  }

  /** Display ids never drawn before, by a card or by another projection. */
  ghost predicate FreshIds(ids: nat -> string, cards: seq<Card>) {
    (forall k: nat :: !IdTaken(cards, ids(k))) && forall j: nat, k: nat :: j < k ==> ids(j) != ids(k)
  }

  /** A quiet server that answers every request, and projections that nothing disturbs. */
  ghost predicate Undisturbed(w: World, c: Central, cards: seq<Card>) {
    && Still(w, c) && (forall k: nat :: w.answers(k).Some?) && (forall k: nat :: w.faults(k).NoFault?)
    && (forall t :: t in c.tasks ==> t.globalId != "") && FreshIds(w.ids, cards)
  }

  /** The pending tasks a poll gets through: its pages, or one page of the server past the server's page size. */
  predicate WithinReach(n: nat, limit: int, maxPages: int) {
    n == 0 || (maxPages >= 1 && n <= if limit > PAGE_MAX then PAGE_MAX else maxPages * PageSize(limit))
  }

  /** How many of `n` pending tasks a poll takes when nothing fails. Past the server's page size it stops after one page. */
  function PollTakes(n: nat, limit: int, maxPages: int): nat {
    var reach := if maxPages <= 0 then 0 else if limit > PAGE_MAX then PAGE_MAX else maxPages * PageSize(limit);
    if n < reach then n else reach
  }

  /** `pages` full pages of a still center are done, and the walk went on. */
  ghost predicate Marching(c0: Central, since0: Option<int>, limit: int, done: seq<Task>, pages: nat) {
    done <= Pending(c0, since0) && |done| == pages * PageSize(limit) && (pages > 0 ==> limit <= PAGE_MAX)
  }

  function Shift(ids: nat -> string, n: nat): nat -> string {
    (i: nat) => ids(n + i)
  }

  lemma {:induction false} ApplyMore(cards: seq<Card>, a: seq<Task>, b: seq<Task>, ids: nat -> string)
    ensures ApplyAll(cards, a + b, ids) == ApplyAll(ApplyAll(cards, a, ids), b, Shift(ids, |a|))
  {
    hide Projected;
    if b == [] {
      assert a + b == a;
    } else {
      var b' := b[..|b| - 1];
      ApplyMore(cards, a, b', ids);
      assert (a + b)[..|a + b| - 1] == a + b';
    }
  }

  class Poller {
    const table: CardTable
    var file: CursorFile

    constructor (table: CardTable)
      ensures this.table == table && file.Unusable?
    {
      this.table := table;
      file := Unusable;
    }

    method WriteInboxCursor(source: string, since: int)
      modifies this
      ensures file == WithCursor(old(file), source, since)
    {
      var cursors := ReadCursors(file);
      file := Cursors(cursors[source := since]);
    }

    /**
     Apply one page, stopping at the first projection that reports an error. `before` are the tasks the poll has
     projected already, starting from `start`.
     */
    method ApplyPage(w: World, ghost start: seq<Card>, ghost before: seq<Task>, page: seq<Task>, applied: nat)
        returns (ok: bool, ghost n: nat)
      requires applied == |before| && table.cards == ApplyAll(start, before, w.ids)
      modifies table
      ensures n <= |page| && table.cards == ApplyAll(start, before + page[..n], w.ids)
      ensures ok ==> n == |page|
      ensures !ok ==>
        || (n < |page| && Refused(table.cards, page[n], w.ids(applied + n), w.faults(applied + n)))
        || (n > 0 && w.faults(applied + n - 1).NotReadBack?)
    {
      hide ApplyAll, Projected, Refused;
      ok, n := true, 0;
      assert before + page[..0] == before;
      for i := 0 to |page|
        invariant ok && n == i && table.cards == ApplyAll(start, before + page[..i], w.ids)
      {
        ghost var cards := table.cards;
        ok := table.ApplyTaskProjection(page[i], w.ids(applied + i), w.faults(applied + i));
        assert before + page[..i] + [page[i]] == before + page[..i + 1];
        ApplyOne(start, before + page[..i], page[i], w.ids);
        if !ok {
          n := if Refused(cards, page[i], w.ids(applied + i), w.faults(applied + i)) then i else i + 1;
          return;
        }
        n := i + 1;
      }
      assert page[..|page|] == page;
    }

    /**
     One poll. `c0` is the central state it starts from; `done` are the tasks it projected, `marked` how many of
     them its cursor has passed, `last` the last answer it got.
     */
    method PollOnce(w: World, source: string, limit: int, maxPages: int, ghost c0: Central)
        returns (applied: Option<nat>, ghost done: seq<Task>, ghost marked: nat, ghost last: Central)
      modifies this, table
      ensures table.cards == ApplyAll(old(table.cards), done, w.ids) && marked <= |done|
      ensures forall s :: s != source ==> ReadCursor(file, s) == ReadCursor(old(file), s)
      ensures ReadCursor(file, source) == CursorPast(done[..marked], ReadCursor(old(file), source))
      ensures applied.Some? ==> applied.value == marked == |done|
      ensures applied.None? ==> Stumbled(w, maxPages, table.cards, |done|)
      ensures Starts(w, c0, ReadCursor(old(file), source), old(table.cards)) ==>
        Mirror(last, ReadCursor(file, source), table.cards)
      ensures Still(w, c0) ==>
        var pending := Pending(c0, ReadCursor(old(file), source));
        done <= pending && (applied.Some? ==> |done| == PollTakes(|pending|, limit, maxPages))
      ensures Undisturbed(w, c0, old(table.cards)) ==>
        && applied.Some?
        && (Pending(c0, ReadCursor(file, source)) == []
            <==> WithinReach(|Pending(c0, ReadCursor(old(file), source))|, limit, maxPages))
    {
      hide *;
      ghost var start, since0 := table.cards, ReadCursor(file, source);
      var since := ReadCursor(file, source);
      var total := 0;
      var pages := 0;
      done, marked, last := [], 0, c0;
      PollBegins(w, c0, since0, start, limit);
      while pages < maxPages
        invariant 0 <= pages && (pages == 0 || pages <= maxPages)
        invariant table.cards == ApplyAll(start, done, w.ids) && marked == |done| == total
        invariant since == ReadCursor(file, source) == CursorPast(done, since0)
        invariant forall s :: s != source ==> ReadCursor(file, s) == ReadCursor(old(file), s)
        invariant Starts(w, c0, since0, start) ==> Mirror(last, since, table.cards) && Later(w, last, pages)
        invariant Still(w, c0) ==> done <= Pending(c0, since0) && Marching(c0, since0, limit, done, pages)
      {
        var answer := w.answers(pages);
        if answer.None? {
          NoAnswer(w, maxPages, table.cards, |done|, pages);
          NothingStumbles(w, maxPages, c0, start, done);
          TakeAll(done);
          return None, done, marked, last;
        }
        var page := PageAfter(answer.value, since, limit);
        if page == [] {
          StillEmpty(w, c0, since0, limit, maxPages, done, pages);
          break;
        }
        ghost var cards := table.cards;
        var ok, n := ApplyPage(w, start, done, page, total);
        PageKeeps(w, c0, since0, start, last, since, limit, cards, pages, n, Shift(w.ids, |done|));
        ApplyMore(start, done, page[..n], w.ids);
        StillPart(w, c0, since0, limit, done, pages, n);
        last := answer.value;
        if !ok {
          ApplyStops(w, maxPages, table.cards, answer.value, since, limit, pages, n, |done|);
          NothingStumbles(w, maxPages, c0, start, done + page[..n]);
          TakeFirst(done, page[..n]);
          done := done + page[..n];
          return None, done, marked, last;
        }
        TakeAll(page);
        var nextSince := page[|page| - 1].changeSeq;
        var stuck := since.Some? && nextSince <= since.value;
        StillWhole(w, c0, since0, limit, maxPages, done, pages, stuck);
        CursorMoves(done, page, since0, since);
        WithCursorMeans(file, source, nextSince);
        done := done + page;
        marked := |done|;
        total := total + |page|;
        WriteInboxCursor(source, nextSince);
        since := Some(nextSince);
        pages := pages + 1;
        if stuck || |page| < limit {
          break;
        }
      }
      TakeAll(done);
      StillRanOut(w, c0, since0, limit, maxPages, done, pages);
      PollSettles(w, c0, start, since0, done, limit, maxPages);
      applied := Some(total);
    }
  }

  // ---- what a poll keeps ----

  /** Every central task the cursor has passed is shown by a card, and no identity has two cards. */
  ghost predicate Mirror(c: Central, since: Option<int>, cards: seq<Card>) {
    && ValidCentral(c) && Unique(cards) && (since.Some? ==> since.value <= c.clock)
    && forall t :: t in c.tasks && Passed(t, since) ==> Shown(cards, t)
  }

  /** Central writes since the cursor was stored only add work: their rows lie past it. */
  lemma MirrorSurvivesWrites(c: Central, c': Central, since: Option<int>, cards: seq<Card>)
    requires Mirror(c, since, cards) && ValidCentral(c') && Evolves(c, c')
    ensures Mirror(c', since, cards)
  {
  }

  /** The same, by position: the first `b` tasks are shown. */
  ghost predicate ShownTo(tasks: seq<Task>, b: nat, cards: seq<Card>) {
    b <= |tasks| && Unique(cards) && forall i :: 0 <= i < b ==> Shown(cards, tasks[i])
  }

  lemma MirrorByPosition(c: Central, since: Option<int>, cards: seq<Card>)
    requires ValidCentral(c) && (since.Some? ==> since.value <= c.clock)
    ensures Mirror(c, since, cards) <==> ShownTo(c.tasks, Before(c.tasks, since), cards)
  {
    hide Shown, Unique, Before, Passed;
    BeforeSplits(c.tasks, since);
    var b := Before(c.tasks, since);
    if ShownTo(c.tasks, b, cards) {
      forall t | t in c.tasks && Passed(t, since) ensures Shown(cards, t) {
        var i :| 0 <= i < |c.tasks| && c.tasks[i] == t;
      }
    }
    if Mirror(c, since, cards) {
      forall i | 0 <= i < b ensures Shown(cards, c.tasks[i]) {
        assert c.tasks[i] in c.tasks;
      }
    }
  }

  lemma PageIs(c: Central, since: Option<int>, limit: int)
    ensures var page := PageAfter(c, since, limit); var b := Before(c.tasks, since);
            && b + |page| <= |c.tasks| && page == c.tasks[b..b + |page|]
            && |page| <= PageSize(limit) && (|page| < PageSize(limit) ==> b + |page| == |c.tasks|)
  {
    hide Before;
  }

  lemma ProjectOne(tasks: seq<Task>, k: nat, cards: seq<Card>, id: string)
    requires OneRowEach(tasks) && k < |tasks| && ShownTo(tasks, k, cards)
    ensures ShownTo(tasks, k + 1, Projected(cards, tasks[k], id))
  {
    hide Shown, Projected, Unique;
    ProjectionShows(cards, tasks[k], id);
    forall i | 0 <= i < k ensures Shown(Projected(cards, tasks[k], id), tasks[i]) {
      ProjectionSpares(cards, tasks[k], id, tasks[i]);
    }
  }

  /** Projecting the tasks after the first `b` in order disturbs nothing shown before, and shows them. */
  lemma {:induction false} ProjectOn(tasks: seq<Task>, b: nat, cards: seq<Card>, n: nat, ids: nat -> string)
    requires OneRowEach(tasks) && b + n <= |tasks| && ShownTo(tasks, b, cards)
    ensures ShownTo(tasks, b + n, ApplyAll(cards, tasks[b..b + n], ids))
  {
    hide OneRowEach, ShownTo, Projected;
    if n == 0 {
      ApplyNone(cards, ids);
    } else {
      ProjectOn(tasks, b, cards, n - 1, ids);
      var part := tasks[b..b + n];
      assert part[..n - 1] == tasks[b..b + n - 1];
      assert part[n - 1] == tasks[b + n - 1];
      ProjectOne(tasks, b + n - 1, ApplyAll(cards, part[..n - 1], ids), ids(n - 1));
    }
  }

  /** A page projected in part leaves what the cursor has passed as it was. */
  lemma PartOfPage(c: Central, since: Option<int>, limit: int, cards: seq<Card>, n: nat, ids: nat -> string)
    requires Mirror(c, since, cards) && n <= |PageAfter(c, since, limit)|
    ensures Mirror(c, since, ApplyAll(cards, PageAfter(c, since, limit)[..n], ids))
  {
    var b := Before(c.tasks, since);
    PageIs(c, since, limit);
    assert PageAfter(c, since, limit)[..n] == c.tasks[b..b + n];
    MirrorByPosition(c, since, cards);
    ProjectOn(c.tasks, b, cards, n, ids);
    MirrorByPosition(c, since, ApplyAll(cards, c.tasks[b..b + n], ids));
  }

  /** A page projected whole may be passed. */
  lemma WholePage(c: Central, since: Option<int>, limit: int, cards: seq<Card>, ids: nat -> string)
    requires Mirror(c, since, cards)
    ensures var page := PageAfter(c, since, limit); Mirror(c, CursorPast(page, since), ApplyAll(cards, page, ids))
  {
    hide Shown, ApplyAll, Unique, PageAfter, Evolves;
    var page := PageAfter(c, since, limit);
    var b := Before(c.tasks, since);
    PageIs(c, since, limit);
    if page == [] {
      ApplyNone(cards, ids);
    } else {
      var e := b + |page|;
      MirrorByPosition(c, since, cards);
      ProjectOn(c.tasks, b, cards, |page|, ids);
      assert page[|page| - 1] == c.tasks[e - 1];
      BeforeIs(c.tasks, e);
      MirrorByPosition(c, CursorPast(page, since), ApplyAll(cards, page, ids));
    }
  }

  // ---- the steps of the poll ----

  lemma PollBegins(w: World, c0: Central, since0: Option<int>, start: seq<Card>, limit: int)
    ensures ApplyAll(start, [], w.ids) == start && CursorPast([], since0) == since0
    ensures Starts(w, c0, since0, start) ==> Mirror(c0, since0, start) && Later(w, c0, 0)
    ensures Still(w, c0) ==> [] <= Pending(c0, since0) && Marching(c0, since0, limit, [], 0)
  {
  }

  lemma NoAnswer(w: World, maxPages: int, cards: seq<Card>, n: nat, k: nat)
    requires k < maxPages && w.answers(k).None?
    ensures Stumbled(w, maxPages, cards, n)
  {
  }

  lemma ApplyStops(w: World, maxPages: int, cards: seq<Card>, c: Central, since: Option<int>, limit: int, k: nat, n: nat, done: nat)
    requires k < maxPages && w.answers(k) == Some(c)
    requires var page := PageAfter(c, since, limit);
      || (n < |page| && Refused(cards, page[n], w.ids(done + n), w.faults(done + n)))
      || (n > 0 && w.faults(done + n - 1).NotReadBack?)
    ensures Stumbled(w, maxPages, cards, done + n)
  {
    PageIs(c, since, limit);
    hide Refused, Before;
    var page := PageAfter(c, since, limit);
    if n < |page| && Refused(cards, page[n], w.ids(done + n), w.faults(done + n)) {
      assert page[n] == c.tasks[Before(c.tasks, since) + n];
      assert RefusedFrom(w, cards, done + n, k, page[n]);
    }
  }

  /** The display ids after some projections: those of the cards, and those drawn. */
  lemma {:induction false} DrawnIds(cards: seq<Card>, tasks: seq<Task>, ids: nat -> string, id: string)
    requires IdTaken(ApplyAll(cards, tasks, ids), id)
    ensures IdTaken(cards, id) || exists k: nat :: k < |tasks| && ids(k) == id
  {
    if tasks != [] {
      var earlier := tasks[..|tasks| - 1];
      var sofar := ApplyAll(cards, earlier, ids);
      ProjectionDraws(sofar, tasks[|tasks| - 1], ids(|tasks| - 1), id);
      if IdTaken(sofar, id) {
        DrawnIds(cards, earlier, ids, id);
      }
    }
  }

  lemma ProjectionDraws(cards: seq<Card>, t: Task, cardId: string, id: string)
    requires IdTaken(Projected(cards, t, cardId), id)
    ensures IdTaken(cards, id) || id == cardId
  {
    var after := Projected(cards, t, cardId);
    var i :| 0 <= i < |after| && after[i].cardId == id;
    if i < |cards| {
      assert cards[i].cardId == id;
    }
  }

  lemma NothingStumbles(w: World, maxPages: int, c0: Central, start: seq<Card>, done: seq<Task>)
    ensures Undisturbed(w, c0, start) ==> !Stumbled(w, maxPages, ApplyAll(start, done, w.ids), |done|)
  {
    if Undisturbed(w, c0, start) {
      hide ApplyAll, HasCard, IdTaken;
      var cards := ApplyAll(start, done, w.ids);
      assert w.faults(|done|).NoFault? && (|done| > 0 ==> w.faults(|done| - 1).NoFault?);
      forall k: nat, t | w.answers(k).Some? && t in w.answers(k).value.tasks
        ensures !RefusedFrom(w, cards, |done|, k, t)
      {
        if IdTaken(cards, w.ids(|done|)) {
          DrawnIds(start, done, w.ids, w.ids(|done|));
          assert false;
        }
      }
    }
  }

  lemma PollSettles(w: World, c0: Central, start: seq<Card>, since0: Option<int>, done: seq<Task>, limit: int, maxPages: int)
    requires Still(w, c0) ==> done <= Pending(c0, since0) && |done| == PollTakes(|Pending(c0, since0)|, limit, maxPages)
    ensures Undisturbed(w, c0, start) ==>
      (Pending(c0, CursorPast(done, since0)) == [] <==> WithinReach(|Pending(c0, since0)|, limit, maxPages))
  {
    if Undisturbed(w, c0, start) {
      PollSettlesExactly(c0, since0, done, limit, maxPages);
    }
  }

  lemma TakeAll(s: seq<Task>)
    ensures s[..|s|] == s
  {
  }

  lemma TakeFirst(a: seq<Task>, b: seq<Task>)
    ensures (a + b)[..|a|] == a
  {
  }

  lemma CursorMoves(done: seq<Task>, page: seq<Task>, since0: Option<int>, since: Option<int>)
    requires page != []
    ensures CursorPast(done + page, since0) == CursorPast(page, since) == Some(page[|page| - 1].changeSeq)
  {
  }

  lemma WithCursorMeans(f: CursorFile, source: string, since: int)
    ensures ReadCursor(WithCursor(f, source, since), source) == Some(since)
    ensures forall s :: s != source ==> ReadCursor(WithCursor(f, source, since), s) == ReadCursor(f, s)
  {
  }

  lemma PageKeeps(w: World, c0: Central, since0: Option<int>, start: seq<Card>, last: Central, since: Option<int>,
                  limit: int, cards: seq<Card>, pages: nat, n: nat, ids: nat -> string)
    requires w.answers(pages).Some? && n <= |PageAfter(w.answers(pages).value, since, limit)|
    requires Starts(w, c0, since0, start) ==> Mirror(last, since, cards) && Later(w, last, pages)
    ensures Starts(w, c0, since0, start) ==>
      var c := w.answers(pages).value;
      var page := PageAfter(c, since, limit);
      && Later(w, c, pages + 1) && Mirror(c, since, ApplyAll(cards, page[..n], ids))
      && (n == |page| ==> Mirror(c, CursorPast(page, since), ApplyAll(cards, page[..n], ids)))
  {
    if Starts(w, c0, since0, start) {
      hide Mirror, ApplyAll, PageAfter;
      var c := w.answers(pages).value;
      assert Evolves(last, c) && ValidCentral(c);
      MirrorSurvivesWrites(last, c, since, cards);
      PartOfPage(c, since, limit, cards, n, ids);
      WholePage(c, since, limit, cards, ids);
      TakeAll(PageAfter(c, since, limit));
    }
  }

  /** The cursor past the tasks done stands where they end. */
  lemma DonePosition(c0: Central, since0: Option<int>, done: seq<Task>)
    requires ValidCentral(c0) && done <= Pending(c0, since0)
    ensures var b := Before(c0.tasks, since0);
            && b + |done| <= |c0.tasks| && done == c0.tasks[b..b + |done|]
            && Before(c0.tasks, CursorPast(done, since0)) == b + |done|
  {
    var b := Before(c0.tasks, since0);
    var e := b + |done|;
    assert done == c0.tasks[b..e];
    if done != [] {
      assert done[|done| - 1] == c0.tasks[e - 1];
      BeforeIs(c0.tasks, e);
    }
  }

  /** The next page of a still center continues what was done. */
  lemma NextPage(c0: Central, since0: Option<int>, limit: int, done: seq<Task>)
    requires ValidCentral(c0) && done <= Pending(c0, since0)
    ensures var page := PageAfter(c0, CursorPast(done, since0), limit);
            && done + page <= Pending(c0, since0) && |page| <= PageSize(limit)
            && (|page| < PageSize(limit) ==> |done| + |page| == |Pending(c0, since0)|)
            && (page != [] ==> CursorPast(done, since0).None? || page[|page| - 1].changeSeq > CursorPast(done, since0).value)
  {
    var b := Before(c0.tasks, since0);
    var e := b + |done|;
    var since := CursorPast(done, since0);
    hide PageAfter, CursorPast, Before;
    DonePosition(c0, since0, done);
    PageIs(c0, since, limit);
    var page := PageAfter(c0, since, limit);
    assert c0.tasks[b..e] + c0.tasks[e..e + |page|] == c0.tasks[b..e + |page|];
    assert c0.tasks[b..e + |page|] <= c0.tasks[b..];
    if page != [] {
      LaterThan(c0, since, e + |page| - 1);
    }
  }

  lemma LaterThan(c: Central, since: Option<int>, i: nat)
    requires ValidCentral(c) && Before(c.tasks, since) <= i < |c.tasks|
    ensures since.None? || c.tasks[i].changeSeq > since.value
  {
    BeforeAt(c.tasks, |c.tasks|, since, i);
  }

  lemma StillPart(w: World, c0: Central, since0: Option<int>, limit: int, done: seq<Task>, pages: nat, n: nat)
    requires w.answers(pages).Some?
    requires n <= |PageAfter(w.answers(pages).value, CursorPast(done, since0), limit)|
    requires Still(w, c0) ==> Marching(c0, since0, limit, done, pages)
    ensures Still(w, c0) ==> done + PageAfter(w.answers(pages).value, CursorPast(done, since0), limit)[..n] <= Pending(c0, since0)
  {
    if Still(w, c0) {
      NextPage(c0, since0, limit, done);
    }
  }

  lemma StillEmpty(w: World, c0: Central, since0: Option<int>, limit: int, maxPages: int, done: seq<Task>, pages: nat)
    requires w.answers(pages).Some? && PageAfter(w.answers(pages).value, CursorPast(done, since0), limit) == [] && pages < maxPages
    requires Still(w, c0) ==> Marching(c0, since0, limit, done, pages)
    ensures Still(w, c0) ==> |done| == PollTakes(|Pending(c0, since0)|, limit, maxPages)
  {
    if Still(w, c0) {
      NextPage(c0, since0, limit, done);
      Products(pages, maxPages, PageSize(limit));
    }
  }

  lemma StillWhole(w: World, c0: Central, since0: Option<int>, limit: int, maxPages: int, done: seq<Task>, pages: nat, stuck: bool)
    requires w.answers(pages).Some? && pages < maxPages
    requires var since := CursorPast(done, since0); var page := PageAfter(w.answers(pages).value, since, limit);
      page != [] && stuck == (since.Some? && page[|page| - 1].changeSeq <= since.value)
    requires Still(w, c0) ==> Marching(c0, since0, limit, done, pages)
    ensures Still(w, c0) ==>
      var page := PageAfter(w.answers(pages).value, CursorPast(done, since0), limit);
      && !stuck && done + page <= Pending(c0, since0)
      && (|page| < limit ==> |done + page| == PollTakes(|Pending(c0, since0)|, limit, maxPages))
      && (|page| >= limit ==> Marching(c0, since0, limit, done + page, pages + 1))
  {
    if Still(w, c0) {
      NextPage(c0, since0, limit, done);
      Products(pages, maxPages, PageSize(limit));
    }
  }

  lemma StillRanOut(w: World, c0: Central, since0: Option<int>, limit: int, maxPages: int, done: seq<Task>, pages: nat)
    ensures Still(w, c0) && Marching(c0, since0, limit, done, pages) && pages >= maxPages && (pages == maxPages || pages == 0) ==>
      |done| == PollTakes(|Pending(c0, since0)|, limit, maxPages)
  {
  }

  lemma Products(pages: nat, maxPages: int, size: nat)
    requires pages < maxPages
    ensures (pages + 1) * size == pages * size + size <= maxPages * size
  {
  }

  // ---- what a poll on a quiet server achieves ----

  /**
   A poll that nothing disturbs leaves nothing pending exactly when the pending tasks are within its reach: its pages,
   or one page of the server when it asked for more than the server gives.
   */
  lemma PollSettlesExactly(c0: Central, since0: Option<int>, done: seq<Task>, limit: int, maxPages: int)
    requires ValidCentral(c0) && done <= Pending(c0, since0)
    requires |done| == PollTakes(|Pending(c0, since0)|, limit, maxPages)
    ensures Pending(c0, CursorPast(done, since0)) == [] <==> WithinReach(|Pending(c0, since0)|, limit, maxPages)
  {
    DonePosition(c0, since0, done);
    if maxPages >= 1 {
      Products(0, maxPages, PageSize(limit));
    }
  }

  /** When nothing is pending the cards mirror the center: each task has exactly one card, and it shows the task. */
  lemma SettledMeansMirrored(c: Central, since: Option<int>, cards: seq<Card>, t: Task)
    requires Mirror(c, since, cards) && Pending(c, since) == [] && t in c.tasks
    ensures exists i: nat :: ShownAt(cards, t, i) && forall j :: 0 <= j < |cards| && Carries(cards[j], t.globalId) ==> j == i
  {
    MirrorByPosition(c, since, cards);
    var k :| 0 <= k < |c.tasks| && c.tasks[k] == t;
    assert Shown(cards, c.tasks[k]);
    var i: nat :| ShownAt(cards, t, i);
  }

  function Burst(n: nat): Central {
    Central(seq(n, i requires 0 <= i < n => Task(seq(i + 1, _ => 'x'), None, None, None, "created", Some(1), i + 1)), n)
  }

  /** Asking for more than the server's page size stops a poll after one page: here it leaves one of 501 tasks. */
  method LargeLimitStopsEarly() returns (left: nat)
    ensures left > 0
  {
    hide *;
    BurstIsValid(501);
    var table := new CardTable();
    var poller := new Poller(table);
    var w := World(_ => Some(Burst(501)), NewId, _ => NoFault);
    BurstIsNamed(501);
    BurstIsQuiet(Burst(501));
    FreshStart(poller.file, "source");
    var applied, done, marked, last := poller.PollOnce(w, "source", 501, 1000, Burst(501));
    BeyondReach(|Pending(Burst(501), None)|, 501, 1000);
    var pending := Pending(Burst(501), ReadCursor(poller.file, "source"));
    left := |pending|;
  }

  lemma FreshStart(f: CursorFile, source: string)
    requires f.Unusable?
    ensures ReadCursor(f, source) == None
  {
  }

  lemma BeyondReach(n: nat, limit: int, maxPages: int)
    requires n > 500 && limit > 500
    ensures !WithinReach(n, limit, maxPages)
  {
  }

  function NewId(k: nat): string {
    seq(k, _ => 'i')
  }

  lemma NewIdsAreFresh()
    ensures FreshIds(NewId, [])
  {
    forall j: nat, k: nat | j < k ensures NewId(j) != NewId(k) {
      assert |NewId(j)| == j && |NewId(k)| == k;
    }
  }

  lemma BurstIsQuiet(c: Central)
    requires ValidCentral(c) && forall t :: t in c.tasks ==> t.globalId != ""
    ensures Undisturbed(World(_ => Some(c), NewId, _ => NoFault), c, [])
  {
    hide FreshIds, ValidCentral, NewId;
    NewIdsAreFresh();
  }

  lemma BurstIsNamed(n: nat)
    ensures forall t :: t in Burst(n).tasks ==> t.globalId != ""
  {
    forall t | t in Burst(n).tasks ensures t.globalId != "" {
      var i :| 0 <= i < n && Burst(n).tasks[i] == t;
      assert |t.globalId| == i + 1;
    }
  }

  lemma BurstIsValid(n: nat)
    ensures ValidCentral(Burst(n)) && |Pending(Burst(n), None)| == n
  {
    NothingBefore(Burst(n).tasks, n);
    hide BeforeIn;
    var tasks := Burst(n).tasks;
    forall i, j | 0 <= i < j < n ensures tasks[i].globalId != tasks[j].globalId {
      assert |tasks[i].globalId| == i + 1 && |tasks[j].globalId| == j + 1;
    }
  }

  lemma {:induction false} NothingBefore(tasks: seq<Task>, upTo: nat)
    requires upTo <= |tasks|
    ensures BeforeIn(tasks, upTo, None) == 0
  {
    if upTo > 0 {
      NothingBefore(tasks, upTo - 1);
    }
  }
}

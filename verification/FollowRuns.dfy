/**
 Whole runs of a following client: polls against a growing feed, failed polls, and restarts that may kill the
 client while it prints. The cursor of the running client and the one saved on the server are kept apart.
 */
module FollowRuns {
  import opened Basics
  import opened Options
  import opened Follow

  datatype Client = Client(cursor: Option<int>, saved: Option<int>, printed: seq<Event>, seen: nat)

  /**
   `Poll` prints what is new and then tries to save the cursor. `Restart` kills the client after it printed
   `lines` of a poll and before it saved, and starts it again from the saved cursor, or from a fresh snapshot
   when there is none or it cannot be loaded.
   */
  datatype Tick =
    | Poll(committed: nat, saves: bool)
    | Fails
    | Restart(committed: nat, lines: nat, snapshot: nat, loads: bool)

  datatype Feed = Feed(log: seq<Event>, limit: int, maxPages: int)

  predicate Enabled(f: Feed, c: Client, t: Tick) {
    match t
    case Poll(committed, _) => c.seen <= committed <= |f.log|
    case Fails => true
    case Restart(committed, _, snapshot, _) => c.seen <= committed <= snapshot <= |f.log|
  }

  function Apply(f: Feed, c: Client, t: Tick): Client
    requires Enabled(f, c, t)
  {
    match t
    case Poll(committed, saves) =>
      var w := Walk(f.log, committed, f.limit, f.maxPages, c.cursor);
      Client(w.cursor, if w.events != [] && saves then w.cursor else c.saved, c.printed + w.events, committed)
    case Fails => c
    case Restart(committed, lines, snapshot, loads) =>
      var w := Walk(f.log, committed, f.limit, f.maxPages, c.cursor);
      var shown := w.events[..if lines < |w.events| then lines else |w.events|];
      Client(if loads && c.saved.Some? then c.saved else Newest(f.log, snapshot), c.saved, c.printed + shown, snapshot)
  }

  function Newest(log: seq<Event>, snapshot: nat): Option<int>
    requires snapshot <= |log|
  {
    if snapshot == 0 then None else Some(log[snapshot - 1].ingestSeq)
  }

  /** A poll that is killed while it prints has printed a first part of what it would have printed. */
  lemma KilledPollPrintsPart(f: Feed, c: Client, committed: nat, lines: nat, snapshot: nat, loads: bool, saves: bool)
    requires Enabled(f, c, Restart(committed, lines, snapshot, loads))
    ensures var whole := Apply(f, c, Poll(committed, saves)).printed;
            var part := Apply(f, c, Restart(committed, lines, snapshot, loads)).printed;
            part <= whole && |part| == Min(|c.printed| + lines, |whole|)
  {
    hide Walk;
  }

  ghost predicate IsRun(f: Feed, c: Client, ticks: seq<Tick>)
    decreases |ticks|
  {
    ticks == [] || (Enabled(f, c, ticks[0]) && IsRun(f, Apply(f, c, ticks[0]), ticks[1..]))
  }

  ghost function After(f: Feed, c: Client, ticks: seq<Tick>): Client
    requires IsRun(f, c, ticks)
    decreases |ticks|
  {
    if ticks == [] then c else After(f, Apply(f, c, ticks[0]), ticks[1..])
  }

  predicate Saves(t: Tick) {
    t.Poll? && t.saves
  }

  /** Output is never taken back, and a cursor is saved only by a poll that printed something and reached the server. */
  lemma {:induction false} SavedIsPrinted(f: Feed, c: Client, ticks: seq<Tick>)
    requires IsRun(f, c, ticks)
    ensures c.printed <= After(f, c, ticks).printed
    ensures After(f, c, ticks).saved != c.saved ==>
      |After(f, c, ticks).printed| > |c.printed| && exists t :: t in ticks && Saves(t)
    decreases |ticks|
  {
    if ticks != [] {
      var d := Apply(f, c, ticks[0]);
      SavedIsPrinted(f, d, ticks[1..]);
      hide Walk;
      assert ticks == [ticks[0]] + ticks[1..];
      assert d.saved != c.saved ==> Saves(ticks[0]);
    }
  }

  /** Where a cursor stands in the whole feed. */
  function Position(log: seq<Event>, x: Option<int>): (p: nat)
    ensures p <= |log|
  {
    if x.None? then 0 else AtMost(log, |log|, x.value)
  }

  /** More new events than the walk has pages to find the cursor under them. */
  predicate Overflows(f: Feed, m: nat, p: nat) {
    m - p > 1 && Truncates(m, p, f.limit, f.maxPages)
  }

  function Oldest(f: Feed, m: nat, p: nat): nat {
    Max(p, m - Reach(f.limit, f.maxPages))
  }

  lemma PositionAt(log: seq<Event>, m: nat, x: int)
    requires Ascending(log) && m <= |log| && Position(log, Some(x)) <= m
    ensures AtMost(log, m, x) == Position(log, Some(x))
    ensures Position(log, Some(x)) == m > 0 ==> log[m - 1].ingestSeq <= x
    ensures Position(log, Some(x)) < m ==> x < log[Position(log, Some(x))].ingestSeq
  {
    var p := Position(log, Some(x));
    AtMostSplits(log, |log|, x);
    AtMostSplits(log, m, x);
    assert p < m ==> (log[p].ingestSeq <= x <==> p < p);
    AtMostIs(log, m, x, p);
  }

  lemma PositionOf(log: seq<Event>, k: nat)
    requires Ascending(log) && k < |log|
    ensures Position(log, Some(log[k].ingestSeq)) == k + 1
  {
    AtMostIs(log, |log|, log[k].ingestSeq, k + 1);
  }

  /** A restarted client goes on from the saved cursor if it can load one, and else behind everything in its snapshot. */
  lemma RestartResumes(f: Feed, c: Client, committed: nat, lines: nat, snapshot: nat, loads: bool)
    requires Ascending(f.log) && Enabled(f, c, Restart(committed, lines, snapshot, loads))
    ensures var d := Apply(f, c, Restart(committed, lines, snapshot, loads));
            && d.saved == c.saved
            && if loads && c.saved.Some? then d.cursor == c.saved
               else Position(f.log, d.cursor) == snapshot && (d.cursor.None? ==> snapshot == 0)
  {
    hide Walk;
    if snapshot > 0 {
      PositionOf(f.log, snapshot - 1);
    }
  }

  /** One poll, in positions: it brings the client to the top of the feed unless it overflows. */
  lemma PollMoves(f: Feed, m: nat, cursor: Option<int>)
    requires Ascending(f.log) && cursor.Some? && Position(f.log, cursor) <= m <= |f.log|
    ensures var p := Position(f.log, cursor);
            var w := Walk(f.log, m, f.limit, f.maxPages, cursor);
            && w.cursor.Some? && w.cursor.value >= cursor.value
            && (!Overflows(f, m, p) ==> w.events == f.log[p..m] && Position(f.log, w.cursor) == m)
            && (Overflows(f, m, p) ==>
                  var lo := Oldest(f, m, p);
                  p <= lo < m && (lo == p ==> Reach(f.limit, f.maxPages) > 1) && w.events == f.log[lo..m] && Position(f.log, w.cursor) == lo + 1)
            && (w.events == [] ==> w.cursor == cursor)
  {
    if m > 0 {
      PositionAt(f.log, m, cursor.value);
      var p := Position(f.log, cursor);
      PositionOf(f.log, m - 1);
      var lo := Oldest(f, m, p);
      if Truncates(m, p, f.limit, f.maxPages) {
        OverflowReach(f, m, p);
        PositionOf(f.log, lo);
        assert f.log[lo].ingestSeq > cursor.value;
      }
    }
  }

  lemma OverflowReach(f: Feed, m: nat, p: nat)
    requires p <= m && Truncates(m, p, f.limit, f.maxPages)
    ensures Oldest(f, m, p) < m
    ensures m - p > 1 && Oldest(f, m, p) == p ==> Reach(f.limit, f.maxPages) > 1
  {
  }

  // ---- exactly once ----

  /** Ticks that leave no doubt about what was printed: no restart, or only clean ones with every cursor saved. */
  predicate Orderly(t: Tick) {
    match t
    case Poll(_, saves) => saves
    case Fails => true
    case Restart(_, lines, _, loads) => lines == 0 && loads
  }

  predicate Undisturbed(c: Client, ticks: seq<Tick>) {
    (forall t :: t in ticks ==> !t.Restart?) || (c.saved == c.cursor && forall t :: t in ticks ==> Orderly(t))
  }

  predicate Clean(f: Feed, c: Client, t: Tick) {
    t.Poll? ==> !Overflows(f, t.committed, Position(f.log, c.cursor))
  }

  ghost predicate NeverOverflows(f: Feed, c: Client, ticks: seq<Tick>)
    requires IsRun(f, c, ticks)
    decreases |ticks|
  {
    ticks == [] || (Clean(f, c, ticks[0]) && NeverOverflows(f, Apply(f, c, ticks[0]), ticks[1..]))
  }

  /** What the client printed since it stood at `p0` is what the feed holds from there to its cursor. */
  ghost predicate Exact(f: Feed, base: seq<Event>, p0: nat, c: Client) {
    p0 <= Position(f.log, c.cursor) && c.printed == base + f.log[p0..Position(f.log, c.cursor)]
  }

  /** The event printed for position `i` of the feed is not the event there. */
  ghost predicate WrongAt(f: Feed, base: seq<Event>, p0: nat, printed: seq<Event>, i: nat) {
    p0 <= i < p0 + |printed| - |base| && (i >= |f.log| || printed[|base| + i - p0] != f.log[i])
  }

  /** An event at the wrong place, which nothing printed later can mend. */
  ghost predicate Misplaced(f: Feed, base: seq<Event>, p0: nat, printed: seq<Event>) {
    exists i: nat :: WrongAt(f, base, p0, printed, i)
  }

  /** Everything up to `m` was printed, but the cursor fell back: the next poll that finds anything repeats it. */
  ghost predicate Ahead(f: Feed, base: seq<Event>, p0: nat, m: nat, c: Client) {
    && p0 <= Position(f.log, c.cursor) < m <= c.seen && m <= |f.log| && Reach(f.limit, f.maxPages) > 1
    && c.printed == base + f.log[p0..m]
  }

  ghost predicate Broken(f: Feed, base: seq<Event>, p0: nat, c: Client) {
    Misplaced(f, base, p0, c.printed) || exists m: nat :: Ahead(f, base, p0, m, c)
  }

  lemma BrokenIsNotExact(f: Feed, base: seq<Event>, p0: nat, c: Client)
    requires Ascending(f.log) && Broken(f, base, p0, c)
    ensures !Exact(f, base, p0, c)
  {
  }

  lemma MisplacedStays(f: Feed, base: seq<Event>, p0: nat, printed: seq<Event>, more: seq<Event>)
    requires Misplaced(f, base, p0, printed)
    ensures Misplaced(f, base, p0, printed + more)
  {
    var i: nat :| WrongAt(f, base, p0, printed, i);
    assert WrongAt(f, base, p0, printed + more, i);
  }

  /** Printing the feed from `lo` on when it was printed up to `m` puts an event at the wrong place. */
  lemma WrongStart(f: Feed, base: seq<Event>, p0: nat, m: nat, lo: nat, top: nat)
    requires Ascending(f.log) && p0 <= m <= |f.log| && lo < top <= |f.log| && lo != m
    ensures Misplaced(f, base, p0, base + f.log[p0..m] + f.log[lo..top])
  {
    var printed := base + f.log[p0..m] + f.log[lo..top];
    assert printed[|base| + m - p0] == f.log[lo];
    if m < |f.log| {
      assert f.log[lo].ingestSeq != f.log[m].ingestSeq;
    }
    assert WrongAt(f, base, p0, printed, m);
  }

  lemma PrintedOn(log: seq<Event>, base: seq<Event>, a: nat, b: nat, c: nat)
    requires a <= b <= c <= |log|
    ensures base + log[a..b] + log[b..c] == base + log[a..c]
  {
  }

  lemma PollOfExact(f: Feed, base: seq<Event>, p0: nat, c: Client, t: Tick)
    requires Ascending(f.log) && t.Poll? && Enabled(f, c, t) && c.cursor.Some? && Position(f.log, c.cursor) <= c.seen
    requires Exact(f, base, p0, c)
    ensures Clean(f, c, t) ==> Exact(f, base, p0, Apply(f, c, t))
    ensures !Clean(f, c, t) ==> Broken(f, base, p0, Apply(f, c, t))
  {
    hide Walk, Truncates, Oldest, Reach, Position, Misplaced, Ascending;
    var p, m := Position(f.log, c.cursor), t.committed;
    PollMoves(f, m, c.cursor);
    if Clean(f, c, t) {
      PrintedOn(f.log, base, p0, p, m);
    } else {
      var lo := Oldest(f, m, p);
      if lo == p {
        PrintedOn(f.log, base, p0, p, m);
        assert Ahead(f, base, p0, m, Apply(f, c, t));
      } else {
        WrongStart(f, base, p0, p, lo, m);
      }
    }
  }

  lemma PollOfBroken(f: Feed, base: seq<Event>, p0: nat, c: Client, t: Tick)
    requires Ascending(f.log) && t.Poll? && Enabled(f, c, t) && c.cursor.Some? && Position(f.log, c.cursor) <= c.seen
    requires Broken(f, base, p0, c)
    ensures Broken(f, base, p0, Apply(f, c, t))
  {
    hide Walk, Truncates, Reach, Position, Misplaced, Ascending;
    var p, m' := Position(f.log, c.cursor), t.committed;
    PollMoves(f, m', c.cursor);
    if Misplaced(f, base, p0, c.printed) {
      MisplacedStays(f, base, p0, c.printed, Walk(f.log, m', f.limit, f.maxPages, c.cursor).events);
    } else {
      var m: nat :| Ahead(f, base, p0, m, c);
      var lo := if Clean(f, c, t) then p else Oldest(f, m', p);
      if lo == m {
        PrintedOn(f.log, base, p0, m, m');
        assert Ahead(f, base, p0, m', Apply(f, c, t));
      } else {
        WrongStart(f, base, p0, m, lo, m');
      }
    }
  }

  /** A clean restart of an orderly run changes nothing but the snapshot. */
  lemma RestartIsIdle(f: Feed, c: Client, t: Tick)
    requires t.Restart? && Orderly(t) && Enabled(f, c, t) && c.cursor.Some? && c.saved == c.cursor
    ensures Apply(f, c, t) == c.(seen := t.snapshot)
  {
    assert c.printed + Walk(f.log, t.committed, f.limit, f.maxPages, c.cursor).events[..0] == c.printed;
  }

  /** What every undisturbed tick keeps: the cursor only moves up, within what the feed has shown. */
  lemma TickKeeps(f: Feed, c: Client, ticks: seq<Tick>)
    requires Ascending(f.log) && ticks != [] && IsRun(f, c, ticks) && Undisturbed(c, ticks)
    requires c.cursor.Some? && Position(f.log, c.cursor) <= c.seen
    ensures var z := Apply(f, c, ticks[0]);
            && z.cursor.Some? && z.cursor.value >= c.cursor.value && Position(f.log, z.cursor) <= z.seen
            && Undisturbed(z, ticks[1..])
  {
    var t := ticks[0];
    assert t in ticks && forall u :: u in ticks[1..] ==> u in ticks;
    match t
    case Fails =>
    case Poll(m, saves) => PollMoves(f, m, c.cursor);
    case Restart(_, _, _, _) => RestartIsIdle(f, c, t);
  }

  lemma {:induction false} CursorNeverFalls(f: Feed, c: Client, ticks: seq<Tick>)
    requires Ascending(f.log) && IsRun(f, c, ticks) && Undisturbed(c, ticks)
    requires c.cursor.Some? && Position(f.log, c.cursor) <= c.seen
    ensures After(f, c, ticks).cursor.Some? && After(f, c, ticks).cursor.value >= c.cursor.value
    decreases |ticks|
  {
    if ticks != [] {
      TickKeeps(f, c, ticks);
      CursorNeverFalls(f, Apply(f, c, ticks[0]), ticks[1..]);
    }
  }

  lemma {:induction false} BrokenStays(f: Feed, base: seq<Event>, p0: nat, c: Client, ticks: seq<Tick>)
    requires Ascending(f.log) && IsRun(f, c, ticks) && Undisturbed(c, ticks)
    requires c.cursor.Some? && Position(f.log, c.cursor) <= c.seen && Broken(f, base, p0, c)
    ensures Broken(f, base, p0, After(f, c, ticks))
    decreases |ticks|
  {
    if ticks != [] {
      var t := ticks[0];
      TickKeeps(f, c, ticks);
      BrokenAfter(f, base, p0, c, ticks);
      BrokenStays(f, base, p0, Apply(f, c, t), ticks[1..]);
    }
  }

  lemma BrokenAfter(f: Feed, base: seq<Event>, p0: nat, c: Client, ticks: seq<Tick>)
    requires Ascending(f.log) && ticks != [] && IsRun(f, c, ticks) && Undisturbed(c, ticks)
    requires c.cursor.Some? && Position(f.log, c.cursor) <= c.seen && Broken(f, base, p0, c)
    ensures Broken(f, base, p0, Apply(f, c, ticks[0]))
  {
    var t := ticks[0];
    if t.Poll? {
      PollOfBroken(f, base, p0, c, t);
    } else if t.Restart? {
      RestartIsIdle(f, c, t);
      if m: nat :| Ahead(f, base, p0, m, c) {
        assert Ahead(f, base, p0, m, Apply(f, c, t));
      }
    }
  }

  lemma {:induction false} ExactRuns(f: Feed, base: seq<Event>, p0: nat, c: Client, ticks: seq<Tick>)
    requires Ascending(f.log) && IsRun(f, c, ticks) && Undisturbed(c, ticks)
    requires c.cursor.Some? && Position(f.log, c.cursor) <= c.seen && Exact(f, base, p0, c)
    ensures Exact(f, base, p0, After(f, c, ticks)) <==> NeverOverflows(f, c, ticks)
    decreases |ticks|
  {
    if ticks != [] {
      hide Exact, Broken, Overflows;
      var t := ticks[0];
      var z := Apply(f, c, t);
      TickKeeps(f, c, ticks);
      if t.Poll? {
        PollOfExact(f, base, p0, c, t);
      } else {
        IdleKeepsExact(f, base, p0, c, ticks);
      }
      if Clean(f, c, t) {
        ExactRuns(f, base, p0, z, ticks[1..]);
      } else {
        BrokenStays(f, base, p0, z, ticks[1..]);
        BrokenIsNotExact(f, base, p0, After(f, c, ticks));
      }
    }
  }

  lemma IdleKeepsExact(f: Feed, base: seq<Event>, p0: nat, c: Client, ticks: seq<Tick>)
    requires ticks != [] && !ticks[0].Poll? && IsRun(f, c, ticks) && Undisturbed(c, ticks) && c.cursor.Some?
    requires Exact(f, base, p0, c)
    ensures Exact(f, base, p0, Apply(f, c, ticks[0]))
  {
    if ticks[0].Restart? {
      RestartIsIdle(f, c, ticks[0]);
    }
  }

  /**
   The concatenated output of a run is exactly the events between its first and its last cursor, in feed order,
   precisely when no poll found more new events than its pages could hold.
   */
  lemma ExactlyOnceIff(f: Feed, c: Client, ticks: seq<Tick>)
    requires Ascending(f.log) && IsRun(f, c, ticks) && Undisturbed(c, ticks)
    requires c.cursor.Some? && Position(f.log, c.cursor) <= c.seen
    ensures var z := After(f, c, ticks);
            var from, to := Position(f.log, c.cursor), Position(f.log, z.cursor);
            from <= to && (z.printed == c.printed + f.log[from..to] <==> NeverOverflows(f, c, ticks))
  {
    CursorNeverFalls(f, c, ticks);
    var z := After(f, c, ticks);
    PositionGrows(f.log, c.cursor.value, z.cursor.value);
    ExactRuns(f, c.printed, Position(f.log, c.cursor), c, ticks);
  }

  lemma PositionGrows(log: seq<Event>, x: int, y: int)
    requires Ascending(log) && x <= y
    ensures Position(log, Some(x)) <= Position(log, Some(y))
  {
    AtMostSplits(log, |log|, x);
    AtMostSplits(log, |log|, y);
    var p := Position(log, Some(x));
    assert p > 0 ==> log[p - 1].ingestSeq <= x;
  }

  /** A burst within the walk's reach never overflows, when the feed still holds an event at or before the cursor. */
  lemma SmallBurstsAreClean(f: Feed, m: nat, p: nat)
    requires 0 < p <= m && m - p < Reach(f.limit, f.maxPages)
    ensures !Overflows(f, m, p)
  {
  }

  /** What an overflow costs: past the walk's reach the oldest new events are never printed, and otherwise some repeat. */
  lemma OverflowCost(f: Feed, c: Client, m: nat, saves: bool, later: nat)
    requires Ascending(f.log) && c.cursor.Some? && Position(f.log, c.cursor) <= c.seen <= m <= later <= |f.log|
    requires Overflows(f, m, Position(f.log, c.cursor)) && later - Oldest(f, m, Position(f.log, c.cursor)) <= Reach(f.limit, f.maxPages)
    ensures var p := Position(f.log, c.cursor);
            var lo := Oldest(f, m, p);
            var once := Apply(f, c, Poll(m, saves));
            && p <= lo && (lo > p <==> m - p > Reach(f.limit, f.maxPages))
            && (forall e :: e in f.log[p..lo] ==> e !in once.printed[|c.printed|..])
            && lo < |f.log| && once.cursor == Some(f.log[lo].ingestSeq)
            && Apply(f, once, Poll(later, saves)).printed == once.printed + f.log[lo + 1..later]
  {
    hide Walk, Truncates, Position, Reach;
    var p := Position(f.log, c.cursor);
    var lo := Oldest(f, m, p);
    PollMoves(f, m, c.cursor);
    var once := Apply(f, c, Poll(m, saves));
    PollMoves(f, later, once.cursor);
    SmallBurstsAreClean(f, later, lo + 1);
    assert once.printed[|c.printed|..] == f.log[lo..m];
    forall e | e in f.log[p..lo] ensures e !in f.log[lo..m] {
      var k :| p <= k < lo && f.log[k] == e;
    }
    PositionOf(f.log, lo);
    OverflowCursor(f, c.cursor, m);
  }

  lemma OverflowCursor(f: Feed, cursor: Option<int>, m: nat)
    requires Ascending(f.log) && cursor.Some? && Position(f.log, cursor) <= m <= |f.log|
    requires Overflows(f, m, Position(f.log, cursor))
    ensures Oldest(f, m, Position(f.log, cursor)) < m
    ensures Walk(f.log, m, f.limit, f.maxPages, cursor).cursor
            == Some(f.log[Oldest(f, m, Position(f.log, cursor))].ingestSeq)
  {
    PositionAt(f.log, m, cursor.value);
    OverflowReach(f, m, Position(f.log, cursor));
  }

  /** A client that has seen one event, and a feed with as many more as one walk can read, and one. */
  function OnePastReach(limit: int, maxPages: int): Feed {
    Feed(seq(Reach(limit, maxPages) + 2, i => Event(i, "event")), limit, maxPages)
  }

  /** Whatever the page size and the number of pages, that one event more is passed by the cursor and never printed. */
  lemma AnyReachIsExceeded(limit: int, maxPages: int)
    ensures var f := OnePastReach(limit, maxPages);
            var c := Client(Some(0), Some(0), [], 1);
            var once := Apply(f, c, Poll(|f.log|, true));
            && Ascending(f.log) && Position(f.log, c.cursor) == 1 && f.log[1].ingestSeq == 1
            && Overflows(f, |f.log|, 1) && once.cursor == Some(2) && f.log[1] !in once.printed
  {
    var f := OnePastReach(limit, maxPages);
    var c := Client(Some(0), Some(0), [], 1);
    hide Reach, Walk;
    PositionOf(f.log, 0);
    assert f.log[0].ingestSeq == 0;
    OverflowCost(f, c, |f.log|, true, |f.log|);
    assert f.log[1] in f.log[1..2];
    var once := Apply(f, c, Poll(|f.log|, true));
    assert once.printed[|c.printed|..] == once.printed;
  }

  // ---- at least once, through restarts ----

  /** A restart that finds its saved cursor; a poll that does not overflow. */
  predicate Careful(f: Feed, c: Client, t: Tick) {
    && Clean(f, c, t)
    && (t.Restart? ==> t.loads && c.saved.Some? && !Overflows(f, t.committed, Position(f.log, c.cursor)))
  }

  ghost predicate AllCareful(f: Feed, c: Client, ticks: seq<Tick>)
    requires IsRun(f, c, ticks)
    decreases |ticks|
  {
    ticks == [] || (Careful(f, c, ticks[0]) && AllCareful(f, Apply(f, c, ticks[0]), ticks[1..]))
  }

  /** Everything from `p0` to position `p` was printed. */
  ghost predicate Covered(log: seq<Event>, p0: nat, p: nat, printed: seq<Event>) {
    forall i :: p0 <= i < p && i < |log| ==> log[i] in printed
  }

  ghost predicate Resumable(f: Feed, p0: nat, c: Client) {
    && c.cursor.Some? && p0 <= Position(f.log, c.cursor) <= c.seen
    && Covered(f.log, p0, Position(f.log, c.cursor), c.printed)
    && (c.saved.Some? ==> p0 <= Position(f.log, c.saved) <= c.seen && Covered(f.log, p0, Position(f.log, c.saved), c.printed))
  }

  lemma CoveredOn(log: seq<Event>, p0: nat, p: nat, m: nat, printed: seq<Event>)
    requires p <= m <= |log| && Covered(log, p0, p, printed)
    ensures Covered(log, p0, m, printed + log[p..m])
  {
    forall i | p0 <= i < m ensures log[i] in printed + log[p..m] {
      if i >= p {
        assert log[p..m][i - p] == log[i];
      }
    }
  }

  lemma CarefulKeeps(f: Feed, p0: nat, c: Client, t: Tick)
    requires Ascending(f.log) && Enabled(f, c, t) && Careful(f, c, t) && Resumable(f, p0, c)
    ensures Resumable(f, p0, Apply(f, c, t))
  {
    match t
    case Fails =>
    case Poll(m, _) =>
      PollMoves(f, m, c.cursor);
      CoveredOn(f.log, p0, Position(f.log, c.cursor), m, c.printed);
    case Restart(m, _, _, _) => PollMoves(f, m, c.cursor);
  }

  /**
   Through any sequence of kills and restarts that find the saved cursor, no event between the first cursor and
   the present one is missing from the output.
   */
  lemma {:induction false} NothingMissed(f: Feed, p0: nat, c: Client, ticks: seq<Tick>)
    requires Ascending(f.log) && IsRun(f, c, ticks) && AllCareful(f, c, ticks) && Resumable(f, p0, c)
    ensures Resumable(f, p0, After(f, c, ticks))
    decreases |ticks|
  {
    if ticks != [] {
      CarefulKeeps(f, p0, c, ticks[0]);
      NothingMissed(f, p0, Apply(f, c, ticks[0]), ticks[1..]);
    }
  }

  /** With no cursor at all, whatever the first non-empty poll finds is taken for seen and is never printed. */
  lemma BaselineSwallows(f: Feed, c: Client, m: nat, saves: bool, ticks: seq<Tick>)
    requires Ascending(f.log) && c.cursor.None? && c.seen <= m <= |f.log| && m > 0
    requires var z := Apply(f, c, Poll(m, saves)); IsRun(f, z, ticks) && NeverOverflows(f, z, ticks) && forall t :: t in ticks ==> !t.Restart?
    ensures var z := After(f, Apply(f, c, Poll(m, saves)), ticks);
            && m <= Position(f.log, z.cursor) && z.printed == c.printed + f.log[m..Position(f.log, z.cursor)]
            && forall e :: e in f.log[..m] ==> e !in z.printed[|c.printed|..]
  {
    var z := Apply(f, c, Poll(m, saves));
    PositionOf(f.log, m - 1);
    assert z.printed == c.printed;
    ExactlyOnceIff(f, z, ticks);
    var w := After(f, z, ticks);
    var q := Position(f.log, w.cursor);
    assert w.printed[|c.printed|..] == f.log[m..q];
    forall e | e in f.log[..m] ensures e !in f.log[m..q] {
      var k :| 0 <= k < m && f.log[k] == e;
    }
  }
}

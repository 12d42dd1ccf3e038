/**
 Whole runs of the task poller beside a center that keeps changing: one projection at a time, with refusals,
 crashes anywhere, a cursor file that may be lost, and cards created locally.
 */
module InboxRuns {
  import opened Options
  import opened Cards
  import opened Inbox

  /** A poll in progress knows its cursor; while it applies a page it has projected the first `k` tasks of it. */
  datatype Phase =
    | Idle
    | Polling(since: Option<int>)
    | Applying(since: Option<int>, page: seq<Task>, k: nat)

  datatype State = State(central: Central, cards: seq<Card>, stored: Option<int>, phase: Phase)

  datatype Step =
    | CentralWrite(task: Task)
    | LocalCreate(card: Card)
    | LoseCursor
    | Begin
    | Fetch(limit: int)
    | Project(cardId: string, fault: Fault)
    | Advance
    | Stop

  predicate Enabled(s: State, step: Step) {
    match step
    case CentralWrite(task) => task.changeSeq > s.central.clock
    case LocalCreate(card) => card.globalId.Some? ==> !HasCard(s.cards, card.globalId.value)
    case LoseCursor => true
    case Begin => s.phase.Idle?
    case Fetch(limit) => s.phase.Polling?
    case Project(_, _) => s.phase.Applying? && s.phase.k < |s.phase.page|
    case Advance => s.phase.Applying? && s.phase.k == |s.phase.page|
    case Stop => true
  }

  function Without(tasks: seq<Task>, id: string): seq<Task> {
    if tasks == [] then []
    else if tasks[|tasks| - 1].globalId == id then Without(tasks[..|tasks| - 1], id)
    else Without(tasks[..|tasks| - 1], id) + [tasks[|tasks| - 1]]
  }

  /** The row of the task is written with a new number: in change order it moves to the end. */
  function Upsert(c: Central, t: Task): Central {
    Central(Without(c.tasks, t.globalId) + [t], t.changeSeq)
  }

  function Apply(s: State, step: Step): State
    requires Enabled(s, step)
  {
    match step
    case CentralWrite(task) => s.(central := Upsert(s.central, task))
    case LocalCreate(card) => s.(cards := s.cards + [card])
    case LoseCursor => s.(stored := None)
    case Begin => s.(phase := Polling(s.stored))
    case Fetch(limit) =>
      var page := PageAfter(s.central, s.phase.since, limit);
      s.(phase := if page == [] then Idle else Applying(s.phase.since, page, 0))
    case Project(cardId, fault) =>
      var t := s.phase.page[s.phase.k];
      if Refused(s.cards, t, cardId, fault) then s.(phase := Idle)
      else s.(cards := Projected(s.cards, t, cardId),
              phase := if fault.NotReadBack? then Idle else s.phase.(k := s.phase.k + 1))
    case Advance => s.(stored := CursorPast(s.phase.page, s.phase.since), phase := Polling(CursorPast(s.phase.page, s.phase.since)))
    case Stop => s.(phase := Idle)
  }

  ghost predicate IsRun(s: State, steps: seq<Step>)
    decreases |steps|
  {
    steps == [] || (Enabled(s, steps[0]) && IsRun(Apply(s, steps[0]), steps[1..]))
  }

  ghost function After(s: State, steps: seq<Step>): State
    requires IsRun(s, steps)
    decreases |steps|
  {
    if steps == [] then s else After(Apply(s, steps[0]), steps[1..])
  }

  // ---- what every step keeps ----

  function LastSeq(page: seq<Task>): int
    requires page != []
  {
    page[|page| - 1].changeSeq
  }

  /** A page against a center that may have moved on: whatever it misses or holds in an old version lies past its end. */
  ghost predicate PageHolds(c: Central, since: Option<int>, page: seq<Task>) {
    && page != [] && LastSeq(page) <= c.clock && OneRowEach(page)
    && (since.Some? ==> since.value < LastSeq(page))
    && MissesNothing(c.tasks, since, page) && IsCurrent(c.tasks, page)
  }

  ghost predicate MissesNothing(tasks: seq<Task>, since: Option<int>, page: seq<Task>)
    requires page != []
  {
    forall t :: t in tasks && !Passed(t, since) && t.changeSeq <= LastSeq(page) ==> t in page
  }

  ghost predicate IsCurrent(tasks: seq<Task>, page: seq<Task>)
    requires page != []
  {
    forall t, u :: t in tasks && u in page && t.globalId == u.globalId ==> t == u || t.changeSeq > LastSeq(page)
  }

  ghost predicate ShownFirst(cards: seq<Card>, page: seq<Task>, k: nat) {
    k <= |page| && forall i :: 0 <= i < k ==> Shown(cards, page[i])
  }

  ghost predicate Inv(s: State) {
    && Mirror(s.central, s.stored, s.cards)
    && (!s.phase.Idle? ==> Mirror(s.central, s.phase.since, s.cards) && (s.stored.None? || s.stored == s.phase.since))
    && (s.phase.Applying? ==> PageHolds(s.central, s.phase.since, s.phase.page) && ShownFirst(s.cards, s.phase.page, s.phase.k))
  }

  lemma {:induction false} WithoutHas(tasks: seq<Task>, id: string, t: Task)
    ensures t in Without(tasks, id) <==> t in tasks && t.globalId != id
  {
    if tasks != [] {
      var earlier, last := tasks[..|tasks| - 1], tasks[|tasks| - 1];
      WithoutHas(earlier, id, t);
      assert tasks == earlier + [last];
    }
  }

  lemma {:induction false} WithoutIs(tasks: seq<Task>, id: string)
    requires InOrder(tasks) && OneRowEach(tasks)
    ensures InOrder(Without(tasks, id)) && OneRowEach(Without(tasks, id))
  {
    if tasks != [] {
      var earlier, last := tasks[..|tasks| - 1], tasks[|tasks| - 1];
      var rest := Without(earlier, id);
      WithoutIs(earlier, id);
      forall i | 0 <= i < |rest| ensures rest[i].changeSeq < last.changeSeq && rest[i].globalId != last.globalId {
        WithoutHas(earlier, id, rest[i]);
        var j :| 0 <= j < |earlier| && earlier[j] == rest[i];
        assert tasks[j] == rest[i];
      }
    }
  }

  lemma UpsertIs(c: Central, t: Task)
    requires ValidCentral(c) && t.changeSeq > c.clock
    ensures ValidCentral(Upsert(c, t)) && Evolves(c, Upsert(c, t))
    ensures forall u :: u in Upsert(c, t).tasks <==> u == t || (u in c.tasks && u.globalId != t.globalId)
  {
    WithoutIs(c.tasks, t.globalId);
    var rest := Without(c.tasks, t.globalId);
    forall u ensures u in rest <==> u in c.tasks && u.globalId != t.globalId {
      WithoutHas(c.tasks, t.globalId, u);
    }
    hide Without;
    forall u | u in rest ensures u.changeSeq <= c.clock {
      var i :| 0 <= i < |c.tasks| && c.tasks[i] == u;
    }
    assert forall i :: 0 <= i < |rest| ==> rest[i] in rest;
  }

  lemma WriteKeeps(s: State, t: Task)
    requires Inv(s) && t.changeSeq > s.central.clock
    ensures Inv(Apply(s, CentralWrite(t)))
  {
    UpsertIs(s.central, t);
    hide Upsert, Without, ShownFirst;
    var c := Upsert(s.central, t);
    MirrorSurvivesWrites(s.central, c, s.stored, s.cards);
    if !s.phase.Idle? {
      MirrorSurvivesWrites(s.central, c, s.phase.since, s.cards);
    }
  }

  lemma CreateShows(cards: seq<Card>, card: Card, t: Task)
    requires Shown(cards, t)
    ensures Shown(cards + [card], t)
  {
    var i: nat :| ShownAt(cards, t, i);
    assert ShownAt(cards + [card], t, i);
  }

  lemma CreateKeeps(s: State, card: Card)
    requires Inv(s) && Enabled(s, LocalCreate(card))
    ensures Inv(Apply(s, LocalCreate(card)))
  {
    forall t | Shown(s.cards, t) ensures Shown(s.cards + [card], t) {
      CreateShows(s.cards, card, t);
    }
    hide Shown, PageHolds;
    assert forall i :: 0 <= i < |s.cards| && card.globalId.Some? ==> !Carries(s.cards[i], card.globalId.value);
  }

  lemma FreshMissesNothing(tasks: seq<Task>, since: Option<int>, b: nat, e: nat)
    requires InOrder(tasks) && b < e <= |tasks| && Before(tasks, since) == b
    ensures MissesNothing(tasks, since, tasks[b..e])
  {
    hide Before, Passed;
    var page := tasks[b..e];
    forall t | t in tasks && !Passed(t, since) && t.changeSeq <= LastSeq(page) ensures t in page {
      var i :| 0 <= i < |tasks| && tasks[i] == t;
      PassedBefore(tasks, since, i);
      assert page[|page| - 1] == tasks[e - 1];
      assert i < e;
      assert page[i - b] == t;
    }
  }

  lemma FreshIsCurrent(tasks: seq<Task>, b: nat, e: nat)
    requires OneRowEach(tasks) && b < e <= |tasks|
    ensures IsCurrent(tasks, tasks[b..e])
  {
    var page := tasks[b..e];
    forall t, u | t in tasks && u in page && t.globalId == u.globalId ensures t == u {
      var i :| 0 <= i < |tasks| && tasks[i] == t;
      var j :| 0 <= j < |page| && page[j] == u;
      assert tasks[b + j] == u;
    }
  }

  /** A page just read misses nothing up to its end and holds only current rows. */
  lemma FreshPage(c: Central, since: Option<int>, b: nat, e: nat)
    requires ValidCentral(c) && b < e <= |c.tasks| && Before(c.tasks, since) == b
    ensures PageHolds(c, since, c.tasks[b..e])
  {
    hide Before, MissesNothing, IsCurrent;
    LaterThan(c, since, e - 1);
    FreshMissesNothing(c.tasks, since, b, e);
    FreshIsCurrent(c.tasks, b, e);
    assert c.tasks[b..e][e - b - 1] == c.tasks[e - 1];
  }

  lemma PassedBefore(tasks: seq<Task>, since: Option<int>, i: nat)
    requires InOrder(tasks) && i < |tasks|
    ensures Passed(tasks[i], since) <==> i < Before(tasks, since)
  {
    BeforeAt(tasks, |tasks|, since, i);
  }

  lemma FetchKeeps(s: State, limit: int)
    requires Inv(s) && s.phase.Polling?
    ensures Inv(Apply(s, Fetch(limit)))
  {
    hide PageAfter, Before, Shown, PageHolds, Unique;
    var c, since := s.central, s.phase.since;
    var page := PageAfter(c, since, limit);
    PageIs(c, since, limit);
    if page != [] {
      FreshPage(c, since, Before(c.tasks, since), Before(c.tasks, since) + |page|);
    }
  }

  /** A projection from a page that holds shows its own task and spares every task passed or projected before it. */
  lemma ProjectKeeps(s: State, cardId: string, fault: Fault)
    requires Inv(s) && Enabled(s, Project(cardId, fault))
    ensures Inv(Apply(s, Project(cardId, fault)))
  {
    var page, k := s.phase.page, s.phase.k;
    var t := page[k];
    if !Refused(s.cards, t, cardId, fault) {
      var after := Projected(s.cards, t, cardId);
      ProjectionShows(s.cards, t, cardId);
      forall u: Task | u.globalId != t.globalId && Shown(s.cards, u) ensures Shown(after, u) {
        ProjectionSpares(s.cards, t, cardId, u);
      }
      hide Projected, Refused, Shown, Unique;
      PassedStaysShown(s, t, after, s.stored);
      PassedStaysShown(s, t, after, s.phase.since);
      assert ShownFirst(after, page, k + 1);
    }
  }

  lemma PassedStaysShown(s: State, t: Task, after: seq<Card>, since: Option<int>)
    requires Inv(s) && s.phase.Applying? && t in s.phase.page && Unique(after)
    requires Shown(after, t) && forall u: Task :: u.globalId != t.globalId && Shown(s.cards, u) ==> Shown(after, u)
    requires since.None? || since == s.phase.since
    ensures Mirror(s.central, since, after)
  {
    hide Shown, Unique;
    forall u | u in s.central.tasks && Passed(u, since) ensures Shown(after, u) {
      if u.globalId == t.globalId {
        assert u == t;
      }
    }
  }

  lemma AdvanceKeeps(s: State)
    requires Inv(s) && Enabled(s, Advance)
    ensures Inv(Apply(s, Advance))
  {
    hide Shown, Unique;
    var page, since := s.phase.page, s.phase.since;
    forall t | t in s.central.tasks && t.changeSeq <= LastSeq(page) ensures Shown(s.cards, t) {
      if !Passed(t, since) {
        var i :| 0 <= i < |page| && page[i] == t;
      }
    }
  }

  lemma StepKeepsInv(s: State, step: Step)
    requires Inv(s) && Enabled(s, step)
    ensures Inv(Apply(s, step))
  {
    match step
    case CentralWrite(task) => WriteKeeps(s, task);
    case LocalCreate(card) => CreateKeeps(s, card);
    case Fetch(limit) => FetchKeeps(s, limit);
    case Project(cardId, fault) => ProjectKeeps(s, cardId, fault);
    case Advance => AdvanceKeeps(s);
    case _ => hide Unique, Shown;
  }

  lemma {:induction false} InvHolds(s: State, steps: seq<Step>)
    requires Inv(s) && IsRun(s, steps)
    ensures Inv(After(s, steps))
    decreases |steps|
  {
    if steps != [] {
      StepKeepsInv(s, steps[0]);
      InvHolds(Apply(s, steps[0]), steps[1..]);
    }
  }

  // ---- an undisturbed poll gets on ----

  /** A page in progress: its first `k` tasks are projected. */
  ghost predicate PageInProgress(s: State, cards: seq<Card>, ids: nat -> string) {
    && s.phase.Applying? && s.phase.k <= |s.phase.page| && s.phase.page != []
    && s.cards == ApplyAll(cards, s.phase.page[..s.phase.k], ids)
    && (forall t :: t in s.phase.page ==> t.globalId != "") && FreshIds(ids, cards)
  }

  /** When no projection is refused, the page is projected whole, in order, and the cursor stands behind it. */
  lemma {:induction false} PageIsARun(s: State, cards: seq<Card>, ids: nat -> string) returns (steps: seq<Step>)
    requires PageInProgress(s, cards, ids)
    ensures IsRun(s, steps)
    ensures var page := s.phase.page; var end := Some(LastSeq(page));
      After(s, steps) == State(s.central, ApplyAll(cards, page, ids), end, Polling(end))
    decreases |s.phase.page| - s.phase.k
  {
    hide ApplyAll, Projected, Refused, FreshIds;
    var page, k := s.phase.page, s.phase.k;
    if k == |page| {
      steps := [Advance];
      assert page[..k] == page;
      assert IsRun(Apply(s, Advance), []);
    } else {
      var step := Project(ids(k), NoFault);
      NoneRefused(cards, page, ids, k);
      ApplyOne(cards, page[..k], page[k], ids);
      assert page[..k + 1] == page[..k] + [page[k]];
      var more := PageIsARun(Apply(s, step), cards, ids);
      steps := [step] + more;
      assert steps[1..] == more;
    }
  }

  lemma NoneRefused(cards: seq<Card>, page: seq<Task>, ids: nat -> string, k: nat)
    requires k < |page| && page[k].globalId != "" && FreshIds(ids, cards)
    ensures !Refused(ApplyAll(cards, page[..k], ids), page[k], ids(k), NoFault)
  {
    hide ApplyAll, IdTaken;
    if IdTaken(ApplyAll(cards, page[..k], ids), ids(k)) {
      DrawnIds(cards, page[..k], ids, ids(k));
      assert false;
    }
  }

  /** Undisturbed, a poll with something pending moves the stored cursor to the end of its first page. */
  lemma PollGetsOn(s: State, limit: int, ids: nat -> string) returns (steps: seq<Step>)
    requires s.phase.Idle? && FreshIds(ids, s.cards)
    requires PageAfter(s.central, s.stored, limit) != []
    requires forall t :: t in PageAfter(s.central, s.stored, limit) ==> t.globalId != ""
    ensures IsRun(s, steps)
    ensures var page := PageAfter(s.central, s.stored, limit); var end := Some(LastSeq(page));
      After(s, steps) == State(s.central, ApplyAll(s.cards, page, ids), end, Polling(end))
  {
    hide PageAfter, FreshIds, ApplyAll;
    var polling := Apply(s, Begin);
    var fetched := Apply(polling, Fetch(limit));
    ApplyNone(s.cards, ids);
    assert fetched.phase.page[..0] == [];
    var more := PageIsARun(fetched, s.cards, ids);
    steps := [Begin, Fetch(limit)] + more;
    assert steps[1..] == [Fetch(limit)] + more && steps[1..][1..] == more;
  }

  // ---- what a run leaves ----

  /**
   After any run from a fresh poller, every central task at or before the stored cursor has exactly one local card,
   and the card shows the task's mapped status, its version and its content.
   */
  lemma CardsConverge(s: State, steps: seq<Step>, t: Task)
    requires ValidCentral(s.central) && Unique(s.cards) && s.stored.None? && s.phase.Idle? && IsRun(s, steps)
    requires var z := After(s, steps); t in z.central.tasks && Passed(t, z.stored)
    ensures var z := After(s, steps);
            exists i: nat :: ShownAt(z.cards, t, i) && forall j :: 0 <= j < |z.cards| && Carries(z.cards[j], t.globalId) ==> j == i
  {
    InvHolds(s, steps);
    var z := After(s, steps);
    var i: nat :| ShownAt(z.cards, t, i);
  }
}

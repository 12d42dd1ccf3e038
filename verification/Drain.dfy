/**
 The drain (outbox/drain.py) shipping outbox lines to the central event table (database/events.py).

 `Central` and `Drainer` are the program's objects, with one method per call; DrainRuns cuts a batch into the
 steps between which a crash can fall.
 */
module Drain {
  import opened Basics
  import opened Options
  import opened Outbox
  import opened OutboxReading

  datatype Outcome = Accepted | Duplicate | Refused | Other

  /** The reply to one POST of a batch, as the drain sees it. */
  datatype Response = Unreachable | Reply(status: int, results: Option<seq<Outcome>>)

  /**
   What network and server make of one POST; `refused` are the events that fail the server's validation. In a
   failed exchange the server may still have committed the batch before its reply was lost or garbled.
   */
  datatype Fate =
    | Answered(refused: set<Event>)
    | Failed(refused: set<Event>, committed: bool, reply: Response)

  predicate Commits(fate: Fate) {
    fate.Answered? || fate.committed
  }

  /** The replies that resolve a batch of n events: HTTP 200 with one known verdict per event. */
  predicate Resolving(response: Response, n: nat) {
    && response.Reply? && response.status == 200 && response.results.Some?
    && |response.results.value| == n
    && forall i :: 0 <= i < n ==> response.results.value[i] != Other
  }

  /** A failed exchange is one whose reply does not resolve the batch. */
  predicate Fits(fate: Fate, n: nat) {
    fate.Failed? ==> !Resolving(fate.reply, n)
  }

  // ---- ops.events ----

  function Ids(rows: seq<Event>): set<string> {
    set i | 0 <= i < |rows| :: rows[i].eventId
  }

  function InsertIfAbsent(rows: seq<Event>, event: Event): seq<Event> {
    if event.eventId in Ids(rows) then rows else rows + [event]
  }

  /** The server stores each valid event of the batch unless its id is there already. */
  function Ingest(rows: seq<Event>, events: seq<Event>, refused: set<Event>): seq<Event>
  {
    if events == [] then rows
    else
      var event, sofar := Last(events), Ingest(rows, Init(events), refused);
      if event in refused then sofar else InsertIfAbsent(sofar, event)
  }

  predicate HasId(rows: seq<Event>, id: string) {
    exists r :: r in rows && r.eventId == id
  }

  /** Event `i` of a batch is the first valid one of an id the table does not have. */
  predicate IsFirst(rows: seq<Event>, events: seq<Event>, refused: set<Event>, i: nat)
    requires i < |events|
  {
    && events[i] !in refused && !HasId(rows, events[i].eventId)
    && forall j :: 0 <= j < i && events[j] !in refused ==> events[j].eventId != events[i].eventId
  }

  lemma IdsAre(rows: seq<Event>, id: string)
    ensures id in Ids(rows) <==> HasId(rows, id)
  {
    if r :| r in rows && r.eventId == id {
      var i :| 0 <= i < |rows| && rows[i] == r;
    }
  }

  /** The ids of a table after a batch. */
  lemma {:induction false} IngestedIds(rows: seq<Event>, events: seq<Event>, refused: set<Event>, id: string)
    ensures HasId(Ingest(rows, events, refused), id) <==>
            HasId(rows, id) || exists j :: 0 <= j < |events| && events[j] !in refused && events[j].eventId == id
  {
    if events != [] {
      var init, last := Init(events), Last(events);
      var sofar := Ingest(rows, init, refused);
      IngestedIds(rows, init, refused, id);
      hide Ingest, InsertIfAbsent, HasId;
      InsertedIds(sofar, last, id);
      OneMoreIngested(rows, events, refused);
      if j :| 0 <= j < |init| && init[j] !in refused && init[j].eventId == id {
        assert events[j] == init[j];
      }
      if j :| 0 <= j < |events| && events[j] !in refused && events[j].eventId == id {
        assert j < |init| ==> init[j] == events[j];
      }
    }
  }

  lemma OneMoreIngested(rows: seq<Event>, events: seq<Event>, refused: set<Event>)
    requires events != []
    ensures var sofar := Ingest(rows, Init(events), refused);
            Ingest(rows, events, refused) == if Last(events) in refused then sofar else InsertIfAbsent(sofar, Last(events))
  {
  }

  lemma InsertedIds(rows: seq<Event>, event: Event, id: string)
    ensures HasId(InsertIfAbsent(rows, event), id) <==> HasId(rows, id) || id == event.eventId
  {
    IdsAre(rows, event.eventId);
    if event.eventId !in Ids(rows) {
      assert (rows + [event])[|rows|] == event;
      assert forall r :: r in rows + [event] <==> r in rows || r == event;
    }
  }

  /**
   What a batch does to the table, row by row: old rows stay, every new row is an event of the batch as it was sent
   and not refused, and of each id the table did not have the first such event is stored.
   */
  lemma {:induction false} IngestStores(rows: seq<Event>, events: seq<Event>, refused: set<Event>)
    ensures rows <= Ingest(rows, events, refused)
    ensures forall r :: r in Ingest(rows, events, refused) ==> r in rows || (r in events && r !in refused)
    ensures forall i :: 0 <= i < |events| && IsFirst(rows, events, refused, i) ==> events[i] in Ingest(rows, events, refused)
  {
    if events != [] {
      var init, last := Init(events), Last(events);
      var sofar, after := Ingest(rows, init, refused), Ingest(rows, events, refused);
      IngestStores(rows, init, refused);
      OneMoreIngested(rows, events, refused);
      IdsAre(sofar, last.eventId);
      IngestedIds(rows, init, refused, last.eventId);
      hide Ingest, HasId, Ids;
      assert events == init + [last];
      assert forall r :: r in sofar ==> r in after;
      forall i | 0 <= i < |events| && IsFirst(rows, events, refused, i) ensures events[i] in after {
        if i < |init| {
          assert init[i] == events[i] && IsFirst(rows, init, refused, i);
        } else {
          assert !exists j :: 0 <= j < |init| && init[j] !in refused && init[j].eventId == last.eventId;
          assert after[|sofar|] == last;
        }
      }
    }
  }

  lemma FirstAt(rows: seq<Event>, events: seq<Event>, refused: set<Event>, i: nat)
    requires i < |events|
    ensures events[i] !in refused ==> (IsFirst(rows, events, refused, i) <==> !HasId(Ingest(rows, events[..i], refused), events[i].eventId))
  {
    hide Ingest, HasId;
    IngestedIds(rows, events[..i], refused, events[i].eventId);
    assert forall j :: 0 <= j < i ==> events[..i][j] == events[j];
  }

  class Central {
    var rows: seq<Event>

    constructor ()
      ensures rows == []
    {
      rows := [];
    }

    method InsertEventIfAbsent(event: Event) returns (inserted: bool)
      modifies this
      ensures inserted <==> !HasId(old(rows), event.eventId)
      ensures rows == if inserted then old(rows) + [event] else old(rows)
      ensures rows == InsertIfAbsent(old(rows), event)
    {
      IdsAre(rows, event.eventId);
      inserted := event.eventId !in Ids(rows);
      if inserted {
        rows := rows + [event];
      }
    }

    /**
     One verdict per event, in order. A refused event is not stored; of the others the first of each new id is stored
     as it was sent, and accepted, and the rest are duplicates.
     */
    method IngestBatch(events: seq<Event>, refused: set<Event>) returns (results: seq<Outcome>)
      modifies this
      ensures rows == Ingest(old(rows), events, refused)
      ensures |results| == |events|
      ensures forall i :: 0 <= i < |events| ==> results[i] != Other && (results[i] == Refused <==> events[i] in refused)
      ensures forall i :: 0 <= i < |events| ==> (results[i] == Accepted <==> IsFirst(old(rows), events, refused, i))
      ensures old(rows) <= rows && forall r :: r in rows ==> r in old(rows) || (r in events && r !in refused)
      ensures forall i :: 0 <= i < |events| && IsFirst(old(rows), events, refused, i) ==> events[i] in rows
    {
      hide Ids, HasId, InsertIfAbsent;
      results := [];
      for i := 0 to |events|
        invariant |results| == i
        invariant rows == Ingest(old(rows), events[..i], refused)
        invariant forall k :: 0 <= k < i ==> results[k] != Other && (results[k] == Refused <==> events[k] in refused)
        invariant forall k :: 0 <= k < i ==> (results[k] == Accepted <==> IsFirst(old(rows), events, refused, k))
      {
        assert Init(events[..i + 1]) == events[..i];
        FirstAt(old(rows), events, refused, i);
        if events[i] in refused {
          results := results + [Refused];
        } else {
          var inserted := InsertEventIfAbsent(events[i]);
          results := results + [if inserted then Accepted else Duplicate];
        }
      }
      assert events[..|events|] == events;
      IngestStores(old(rows), events, refused);
    }

    /** One POST: what the drain gets back and what is committed. */
    method Post(events: seq<Event>, fate: Fate) returns (response: Response)
      requires Fits(fate, |events|)
      modifies this
      ensures rows == if Commits(fate) then Ingest(old(rows), events, fate.refused) else old(rows)
      ensures Resolving(response, |events|) <==> fate.Answered?
      ensures fate.Answered? ==> forall i :: 0 <= i < |events| ==>
                (response.results.value[i] == Refused <==> events[i] in fate.refused)
    {
      var results := [];
      if Commits(fate) {
        results := IngestBatch(events, fate.refused);
      }
      response := if fate.Answered? then Reply(200, Some(results)) else fate.reply;
    }
  }

  // ---- one batch ----

  /** A line with the event it parsed to. */
  datatype Parsed = Parsed(raw: Bytes, event: Event)

  function Sendable(pending: seq<PendingEvent>): seq<Parsed> {
    if pending == [] then []
    else if Last(pending).envelope.Some? then
      Sendable(Init(pending)) + [Parsed(Last(pending).raw, Last(pending).envelope.value)]
    else Sendable(Init(pending))
  }

  function Events(toSend: seq<Parsed>): (events: seq<Event>)
    ensures |events| == |toSend| && forall i :: 0 <= i < |toSend| ==> events[i] == toSend[i].event
  {
    seq(|toSend|, i requires 0 <= i < |toSend| => toSend[i].event)
  }

  function Malformed(pending: seq<PendingEvent>): seq<DeadLetter> {
    if pending == [] then []
    else if Last(pending).envelope.None? then
      Malformed(Init(pending)) + [DeadLetter(Last(pending).raw, Unparseable)]
    else Malformed(Init(pending))
  }

  function RefusedLines(toSend: seq<Parsed>, refused: set<Event>): seq<DeadLetter> {
    if toSend == [] then []
    else if Last(toSend).event in refused then
      RefusedLines(Init(toSend), refused) + [DeadLetter(Last(toSend).raw, Rejected)]
    else RefusedLines(Init(toSend), refused)
  }

  /** What a resolved batch dead-letters: the malformed lines, then the refused ones. */
  function ToDeadLetter(pending: seq<PendingEvent>, refused: set<Event>): seq<DeadLetter> {
    Malformed(pending) + RefusedLines(Sendable(pending), refused)
  }

  /** The lines at the positions `at`, in order: those that decode, each with its event. */
  ghost predicate SentFrom(pending: seq<PendingEvent>, toSend: seq<Parsed>, at: seq<nat>) {
    && |at| == |toSend| && Rising(at, |pending|)
    && (forall i: nat :: i < |pending| ==> (i in at <==> pending[i].envelope.Some?))
    && forall k: nat :: k < |at| ==> Some(toSend[k].event) == pending[at[k]].envelope && toSend[k].raw == pending[at[k]].raw
  }

  /** The lines at the positions `at`, in order: those that do not decode, dead-lettered as such. */
  ghost predicate UnparseableFrom(pending: seq<PendingEvent>, letters: seq<DeadLetter>, at: seq<nat>) {
    && |at| == |letters| && Rising(at, |pending|)
    && (forall i: nat :: i < |pending| ==> (i in at <==> pending[i].envelope.None?))
    && forall k: nat :: k < |at| ==> letters[k].raw == pending[at[k]].raw && letters[k].reason == Unparseable
  }

  /** The lines at the positions `at`, in order: those whose event is refused, dead-lettered as such. */
  ghost predicate RejectedFrom(toSend: seq<Parsed>, refused: set<Event>, letters: seq<DeadLetter>, at: seq<nat>) {
    && |at| == |letters| && Rising(at, |toSend|)
    && (forall i: nat :: i < |toSend| ==> (i in at <==> toSend[i].event in refused))
    && forall k: nat :: k < |at| ==> letters[k].raw == toSend[at[k]].raw && letters[k].reason == Rejected
  }

  /** Every line of a batch goes one way: to be sent if it decodes, to the dead letters if not. */
  lemma {:induction false} TriageMeans(pending: seq<PendingEvent>) returns (sent: seq<nat>, bad: seq<nat>)
    ensures SentFrom(pending, Sendable(pending), sent) && UnparseableFrom(pending, Malformed(pending), bad)
    decreases |pending|
  {
    hide *;
    if pending == [] {
      sent, bad := [], [];
      NothingTriaged();
    } else {
      var init, last := Init(pending), Last(pending);
      sent, bad := TriageMeans(init);
      OneMoreTriaged(pending);
      if last.envelope.Some? {
        SentMore(init, Sendable(init), sent, last);
        UnparseableSkip(init, Malformed(init), bad, last);
        sent := sent + [|init|];
      } else {
        SentSkip(init, Sendable(init), sent, last);
        UnparseableMore(init, Malformed(init), bad, last);
        bad := bad + [|init|];
      }
    }
  }

  lemma NothingTriaged()
    ensures SentFrom([], Sendable([]), []) && UnparseableFrom([], Malformed([]), [])
  {
  }

  lemma OneMoreTriaged(pending: seq<PendingEvent>)
    requires pending != []
    ensures var init, last := Init(pending), Last(pending);
      && pending == init + [last] && |init| < |pending|
      && Sendable(pending) == Sendable(init) + (if last.envelope.Some? then [Parsed(last.raw, last.envelope.value)] else [])
      && Malformed(pending) == Malformed(init) + (if last.envelope.None? then [DeadLetter(last.raw, Unparseable)] else [])
      && (last.envelope.None? ==> Sendable(pending) == Sendable(init)) && (last.envelope.Some? ==> Malformed(pending) == Malformed(init))
  {
  }

  lemma SentMore(pending: seq<PendingEvent>, toSend: seq<Parsed>, at: seq<nat>, p: PendingEvent)
    requires SentFrom(pending, toSend, at) && p.envelope.Some?
    ensures SentFrom(pending + [p], toSend + [Parsed(p.raw, p.envelope.value)], at + [|pending|])
  {
    RisingMore(at, |pending|);
  }

  lemma SentSkip(pending: seq<PendingEvent>, toSend: seq<Parsed>, at: seq<nat>, p: PendingEvent)
    requires SentFrom(pending, toSend, at) && p.envelope.None?
    ensures SentFrom(pending + [p], toSend, at)
  {
    RisingMore(at, |pending|);
  }

  lemma UnparseableMore(pending: seq<PendingEvent>, letters: seq<DeadLetter>, at: seq<nat>, p: PendingEvent)
    requires UnparseableFrom(pending, letters, at) && p.envelope.None?
    ensures UnparseableFrom(pending + [p], letters + [DeadLetter(p.raw, Unparseable)], at + [|pending|])
  {
    RisingMore(at, |pending|);
  }

  lemma UnparseableSkip(pending: seq<PendingEvent>, letters: seq<DeadLetter>, at: seq<nat>, p: PendingEvent)
    requires UnparseableFrom(pending, letters, at) && p.envelope.Some?
    ensures UnparseableFrom(pending + [p], letters, at)
  {
    RisingMore(at, |pending|);
  }

  lemma {:induction false} RejectedMean(toSend: seq<Parsed>, refused: set<Event>) returns (at: seq<nat>)
    ensures RejectedFrom(toSend, refused, RefusedLines(toSend, refused), at)
  {
    if toSend == [] {
      at := [];
    } else {
      var init, last := Init(toSend), Last(toSend);
      at := RejectedMean(init, refused);
      assert toSend == init + [last];
      RejectedMore(init, refused, RefusedLines(init, refused), at, last);
      hide RejectedFrom;
      if last.event in refused {
        at := at + [|init|];
      }
    }
  }

  lemma RejectedMore(toSend: seq<Parsed>, refused: set<Event>, letters: seq<DeadLetter>, at: seq<nat>, p: Parsed)
    requires RejectedFrom(toSend, refused, letters, at)
    ensures p.event in refused ==> RejectedFrom(toSend + [p], refused, letters + [DeadLetter(p.raw, Rejected)], at + [|toSend|])
    ensures p.event !in refused ==> RejectedFrom(toSend + [p], refused, letters, at)
  {
    RisingMore(at, |toSend|);
  }

  datatype BatchResult = Empty | Progress | TransportError

  function ResultOf(pending: seq<PendingEvent>, fate: Fate): BatchResult {
    if pending == [] then Empty
    else if Sendable(pending) != [] && fate.Failed? then TransportError
    else Progress
  }

  /** A batch with nothing to send is not posted, so no exchange happens. */
  predicate FitsBatch(fate: Fate, pending: seq<PendingEvent>) {
    Sendable(pending) != [] ==> Fits(fate, |Sendable(pending)|)
  }

  /** The exchange of the batch fails. */
  predicate FailsBatch(fate: Fate, pending: seq<PendingEvent>) {
    Sendable(pending) != [] && fate.Failed?
  }

  class Drainer {
    const dir: SyncDir
    const central: Central
    const batchSize: int

    constructor (dir: SyncDir, central: Central, batchSize: int)
      ensures this.dir == dir && this.central == central && this.batchSize == batchSize
    {
      this.dir, this.central, this.batchSize := dir, central, batchSize;
    }

    ghost function Pending(rd: Reader): seq<PendingEvent>
      reads this, dir
    {
      Batch(rd, dir.outbox, CursorOf(dir.outbox, dir.cursor), batchSize)
    }

    /** Nothing but the central table changes unless the whole batch is resolved. */
    method DrainBatch(rd: Reader, fate: Fate) returns (r: BatchResult)
      requires FitsBatch(fate, Pending(rd))
      modifies dir, central
      ensures dir.outbox == old(dir.outbox)
      ensures r == ResultOf(old(Pending(rd)), fate)
      ensures r != Progress ==> dir.cursor == old(dir.cursor) && dir.dead == old(dir.dead)
      ensures r == Progress ==>
                && dir.dead == old(dir.dead) + ToDeadLetter(old(Pending(rd)), fate.refused)
                && dir.cursor == Stored(EndOf(old(Pending(rd)), 0), Generation(dir.outbox))
      ensures central.rows == if Commits(fate) then Ingest(old(central.rows), Events(Sendable(old(Pending(rd)))), fate.refused)
                              else old(central.rows)
    {
      var maxBytes := batchSize * MAX_LINE_BYTES;
      var pending := dir.ReadPending(rd, None, Some(batchSize), Some(maxBytes));
      if pending == [] {
        return Empty;
      }
      var toDeadLetter, toSend := Triage(pending);
      if toSend != [] {
        var response := central.Post(Events(toSend), fate);
        var resolved, refusedLines := Judge(response, toSend, fate);
        if !resolved {
          return TransportError;
        }
        toDeadLetter := toDeadLetter + refusedLines;
      }
      WriteDeadLetters(toDeadLetter);
      var _ := dir.WriteCursor(Last(pending).endOffset);
      return Progress;
    }

    ghost function AllPending(rd: Reader): seq<seq<PendingEvent>>
      reads this, dir
    {
      Batches(rd, dir.outbox, CursorOf(dir.outbox, dir.cursor), batchSize)
    }

    /**
     Batches until one is empty or the transport fails; `fates(k)` is what happens to the k-th POST. It stops at the
     first batch whose exchange fails.
     */
    method DrainAll(rd: Reader, fates: nat -> Fate) returns (batches: nat, failed: bool)
      requires forall k: nat :: k < |AllPending(rd)| ==> FitsBatch(fates(k), AllPending(rd)[k])
      modifies dir, central
      ensures dir.outbox == old(dir.outbox)
      ensures batches <= |old(AllPending(rd))| && AllPending(rd) == old(AllPending(rd))[batches..]
      ensures forall k: nat :: k < batches ==> !FailsBatch(fates(k), old(AllPending(rd))[k])
      ensures if failed then batches < |old(AllPending(rd))| && FailsBatch(fates(batches), old(AllPending(rd))[batches])
              else batches == |old(AllPending(rd))| && Pending(rd) == []
      ensures var start := old(CursorOf(dir.outbox, dir.cursor));
              !failed && batchSize > 0 && AtBoundary(dir.outbox, start) && OrdinaryLines(rd, dir.outbox, start) ==>
                batches == CeilDiv(|ParseAll(rd, dir.outbox, start, |dir.outbox|)|, batchSize)
    {
      batches, failed := 0, false;
      ghost var first, all := CursorOf(dir.outbox, dir.cursor), AllPending(rd);
      hide *;
      PendingIs(rd);
      if batchSize > 0 && AtBoundary(dir.outbox, first) && OrdinaryLines(rd, dir.outbox, first) {
        BatchesRefineParse(rd, dir.outbox, first, batchSize);
      }
      while true
        invariant dir.outbox == old(dir.outbox) && batches <= |all|
        invariant Batches(rd, dir.outbox, CursorOf(dir.outbox, dir.cursor), batchSize) == all[batches..]
        invariant forall k: nat :: k < batches ==> !FailsBatch(fates(k), all[k])
        decreases |dir.outbox| - CursorOf(dir.outbox, dir.cursor)
      {
        ghost var start, pending := CursorOf(dir.outbox, dir.cursor), Pending(rd);
        PendingIs(rd);
        BatchesStep(rd, dir.outbox, start, batchSize, pending, all, batches);
        NothingToSend(fates(batches), pending);
        var r := DrainBatch(rd, fates(batches));
        PendingIs(rd);
        ResultMeans(pending, fates(batches));
        if r == Empty {
          return;
        }
        if r == TransportError {
          return batches, true;
        }
        CursorMoved(dir.outbox, pending, start);
        batches := batches + 1;
      }
    }

    lemma PendingIs(rd: Reader)
      ensures Pending(rd) == Batch(rd, dir.outbox, CursorOf(dir.outbox, dir.cursor), batchSize)
      ensures AllPending(rd) == Batches(rd, dir.outbox, CursorOf(dir.outbox, dir.cursor), batchSize)
    {
    }

    method WriteDeadLetters(letters: seq<DeadLetter>)
      modifies dir`dead
      ensures dir.dead == old(dir.dead) + letters
    {
      for i := 0 to |letters|
        invariant dir.dead == old(dir.dead) + letters[..i]
      {
        dir.WriteDeadLetter(letters[i].raw, letters[i].reason);
      }
    }
  }

  /** The batch at hand is the next of all batches, and those after it are read from its end. */
  lemma BatchesStep(rd: Reader, f: Bytes, pos: nat, size: int, pending: seq<PendingEvent>, all: seq<seq<PendingEvent>>, k: nat)
    requires pos <= |f| && pending == Batch(rd, f, pos, size) && k <= |all| && Batches(rd, f, pos, size) == all[k..]
    ensures pos <= EndOf(pending, pos) <= |f|
    ensures if pending == [] then k == |all|
            else k < |all| && pending == all[k] && pos < EndOf(pending, pos)
                 && Batches(rd, f, EndOf(pending, pos), size) == all[k + 1..]
  {
    hide Parse, WindowEnd, Cap;
    EndsWithin(rd, f, pos, WindowEnd(pos, Some(size * MAX_LINE_BYTES), |f|), Cap(Some(size), |f|));
    if pending != [] {
      var rest := Batches(rd, f, EndOf(pending, pos), size);
      assert all[k..] == [pending] + rest;
      assert all[k + 1..] == all[k..][1..] == rest;
    }
  }

  lemma NothingToSend(fate: Fate, pending: seq<PendingEvent>)
    ensures pending == [] ==> FitsBatch(fate, pending)
  {
  }

  lemma ResultMeans(pending: seq<PendingEvent>, fate: Fate)
    ensures ResultOf(pending, fate) == Empty <==> pending == []
    ensures ResultOf(pending, fate) == TransportError <==> pending != [] && FailsBatch(fate, pending)
  {
  }

  /** The cursor written after a batch is read back as the batch's end. */
  lemma CursorMoved(f: Bytes, pending: seq<PendingEvent>, pos: nat)
    requires pending != [] && EndOf(pending, pos) <= |f|
    ensures CursorOf(f, Stored(EndOf(pending, 0), Generation(f))) == EndOf(pending, pos)
  {
  }

  /** The first pass of a batch: what would be dead-lettered unsent, and what is sent. */
  method Triage(pending: seq<PendingEvent>) returns (toDeadLetter: seq<DeadLetter>, toSend: seq<Parsed>)
    ensures toDeadLetter == Malformed(pending) && toSend == Sendable(pending)
  {
    toDeadLetter, toSend := [], [];
    for i := 0 to |pending|
      invariant toDeadLetter == Malformed(pending[..i]) && toSend == Sendable(pending[..i])
    {
      assert Init(pending[..i + 1]) == pending[..i];
      if pending[i].envelope.None? {
        toDeadLetter := toDeadLetter + [DeadLetter(pending[i].raw, Unparseable)];
      } else {
        toSend := toSend + [Parsed(pending[i].raw, pending[i].envelope.value)];
      }
    }
    assert pending[..|pending|] == pending;
  }

  /** The checks on a reply: anything but HTTP 200 with one known verdict per event is a transport failure. */
  method Judge(response: Response, toSend: seq<Parsed>, ghost fate: Fate) returns (resolved: bool, refusedLines: seq<DeadLetter>)
    requires Resolving(response, |toSend|) ==> forall i :: 0 <= i < |toSend| ==>
               (response.results.value[i] == Refused <==> toSend[i].event in fate.refused)
    ensures resolved <==> Resolving(response, |toSend|)
    ensures resolved <==> response.Reply? && response.status == 200 && response.results.Some?
                          && |response.results.value| == |toSend| && Other !in response.results.value
    ensures resolved ==> refusedLines == RefusedLines(toSend, fate.refused)
  {
    refusedLines := [];
    if !response.Reply? || response.status != 200 {
      return false, [];
    }
    if response.results.None? || |response.results.value| != |toSend| {
      return false, [];
    }
    var results := response.results.value;
    for i := 0 to |toSend|
      invariant forall k :: 0 <= k < i ==> results[k] != Other
      invariant Resolving(response, |toSend|) ==> refusedLines == RefusedLines(toSend[..i], fate.refused)
    {
      assert Init(toSend[..i + 1]) == toSend[..i];
      if results[i] == Refused {
        refusedLines := refusedLines + [DeadLetter(toSend[i].raw, Rejected)];
      } else if results[i] == Other {
        return false, [];
      }
    }
    assert toSend[..|toSend|] == toSend;
    resolved := true;
  }
}

/**
 Whole runs of the up-sync plane. A state is the outbox, the cursor file, the dead-letter log and the central
 table; a run is any sequence of the steps below: producers append (whole, torn or interleaved), the drain goes
 through a batch one effect at a time, the exchange with the server fails or not, the process dies anywhere,
 and the outbox is deleted between batches.
 */
module DrainRuns {
  import opened Basics
  import opened Options
  import opened Outbox
  import opened OutboxReading
  import opened Drain

  datatype Phase =
    | Idle
    | Reading(pending: seq<PendingEvent>)
    | Resolved(pending: seq<PendingEvent>, todo: seq<DeadLetter>)

  /**
   `foreign` records that the stored cursor was written before the outbox was last deleted; `sent` is the
   history of lines the server accepted or already had.
   */
  datatype State = State(
    outbox: Bytes, cursor: CursorFile, dead: seq<DeadLetter>, rows: seq<Event>,
    foreign: bool, sent: seq<Bytes>, phase: Phase)

  datatype Step =
    | Write(data: Bytes)
    | TooLong(line: Bytes)
    | Remove
    | LoseCursor(left: CursorFile)
    | Read
    | Exchange(fate: Fate)
    | WriteDead
    | Advance
    | Crash

  predicate Enabled(s: State, step: Step) {
    match step
    case Write(data) => HeadsDiffer(s, s.outbox + data)
    case TooLong(_) => true
    case Remove => s.phase.Idle?
    case LoseCursor(left) => !left.Stored?
    case Read => s.phase.Idle?
    case Exchange(fate) => s.phase.Reading? && FitsBatch(fate, s.phase.pending)
    case WriteDead => s.phase.Resolved? && s.phase.todo != []
    case Advance => s.phase.Resolved? && s.phase.todo == []
    case Crash => true
  }

  /** The assumption on recreated outboxes: the new head never hashes to the token of an earlier incarnation. */
  predicate HeadsDiffer(s: State, outbox: Bytes) {
    s.foreign && s.cursor.Stored? && outbox != [] ==> Generation(outbox) != s.cursor.generation
  }

  function Apply(rd: Reader, size: nat, s: State, step: Step): State
    requires Enabled(s, step)
  {
    match step
    case Write(data) => s.(outbox := s.outbox + data)
    case TooLong(line) => s.(dead := s.dead + [DeadLetter(line, Oversized)])
    case Remove => s.(outbox := [], foreign := true)
    case LoseCursor(left) => s.(cursor := left)
    case Read =>
      var pending := Batch(rd, s.outbox, CursorOf(s.outbox, s.cursor), size);
      s.(phase := if pending == [] then Idle else Reading(pending))
    case Exchange(fate) =>
      var toSend := Sendable(s.phase.pending);
      var rows := if Commits(fate) then Ingest(s.rows, Events(toSend), fate.refused) else s.rows;
      if toSend != [] && fate.Failed? then s.(rows := rows, phase := Idle)
      else s.(rows := rows, sent := s.sent + Delivered(toSend, fate.refused),
              phase := Resolved(s.phase.pending, ToDeadLetter(s.phase.pending, fate.refused)))
    case WriteDead => s.(dead := s.dead + [s.phase.todo[0]], phase := s.phase.(todo := s.phase.todo[1..]))
    case Advance =>
      s.(cursor := Stored(EndOf(s.phase.pending, 0), Generation(s.outbox)), foreign := false, phase := Idle)
    case Crash => s.(phase := Idle)
  }

  function Delivered(toSend: seq<Parsed>, refused: set<Event>): seq<Bytes> {
    if toSend == [] then []
    else if Last(toSend).event in refused then Delivered(Init(toSend), refused)
    else Delivered(Init(toSend), refused) + [Last(toSend).raw]
  }

  ghost predicate IsRun(rd: Reader, size: nat, s: State, steps: seq<Step>)
    decreases |steps|
  {
    steps == [] || (Enabled(s, steps[0]) && IsRun(rd, size, Apply(rd, size, s, steps[0]), steps[1..]))
  }

  ghost function After(rd: Reader, size: nat, s: State, steps: seq<Step>): State
    requires IsRun(rd, size, s, steps)
    decreases |steps|
  {
    if steps == [] then s else After(rd, size, Apply(rd, size, s, steps[0]), steps[1..])
  }

  ghost predicate Initial(s: State) {
    UniqueIds(s.rows) && !s.cursor.Stored? && !s.foreign && s.phase.Idle?
  }

  /** Dead letters are for good, and every line refused for its size is among them. */
  lemma {:induction false} DeadLettersStay(rd: Reader, size: nat, s: State, steps: seq<Step>)
    requires IsRun(rd, size, s, steps)
    ensures s.dead <= After(rd, size, s, steps).dead
    ensures forall line :: TooLong(line) in steps ==> DeadLetter(line, Oversized) in After(rd, size, s, steps).dead
    decreases |steps|
  {
    if steps != [] {
      var next := Apply(rd, size, s, steps[0]);
      DeadLettersStay(rd, size, next, steps[1..]);
      assert steps == [steps[0]] + steps[1..];
      if steps[0].TooLong? {
        assert next.dead[|s.dead|] == DeadLetter(steps[0].line, Oversized);
        assert DeadLetter(steps[0].line, Oversized) in next.dead;
      }
    }
  }

  // ---- safety: no event is lost ----

  /** A raw line is accounted for: stored centrally under its event id, or dead-lettered. */
  ghost predicate Handled(rd: Reader, s: State, raw: Bytes) {
    || (rd.decode(raw).Some? && rd.decode(raw).value.eventId in Ids(s.rows))
    || raw in Raws(s.dead)
  }

  function Raws(letters: seq<DeadLetter>): (raws: seq<Bytes>)
    ensures |raws| == |letters| && forall i :: 0 <= i < |letters| ==> raws[i] == letters[i].raw
  {
    seq(|letters|, i requires 0 <= i < |letters| => letters[i].raw)
  }

  /** Every complete non-blank line ending at or before `upTo` is accounted for, or is among `excused`. */
  ghost predicate Covered(rd: Reader, s: State, upTo: nat, excused: seq<Bytes>) {
    forall b: nat, e: nat :: IsLine(s.outbox, b, e) && e <= upTo && !rd.blank(s.outbox[b..e - 1]) ==>
      Handled(rd, s, s.outbox[b..e - 1]) || s.outbox[b..e - 1] in excused
  }

  ghost predicate UniqueIds(rows: seq<Event>) {
    forall i, j :: 0 <= i < j < |rows| ==> rows[i].eventId != rows[j].eventId
  }

  /** What the plane promises at every moment. */
  ghost predicate Safe(rd: Reader, s: State) {
    && UniqueIds(s.rows)
    && AtBoundary(s.outbox, CursorOf(s.outbox, s.cursor))
    && Covered(rd, s, CursorOf(s.outbox, s.cursor), [])
  }

  function PendingRaws(pending: seq<PendingEvent>): (raws: seq<Bytes>)
    ensures |raws| == |pending| && forall i :: 0 <= i < |pending| ==> raws[i] == pending[i].raw
  {
    seq(|pending|, i requires 0 <= i < |pending| => pending[i].raw)
  }

  ghost predicate Inv(rd: Reader, s: State) {
    && UniqueIds(s.rows)
    && CursorInv(rd, s)
    && match s.phase {
         case Idle => true
         case Reading(pending) =>
           && BatchInv(s, pending)
           && (forall p :: p in pending ==> p.envelope == rd.decode(p.raw))
           && Covered(rd, s, EndOf(pending, 0), PendingRaws(pending))
         case Resolved(pending, todo) => BatchInv(s, pending) && Covered(rd, s, EndOf(pending, 0), Raws(todo))
       }
  }

  ghost predicate CursorInv(rd: Reader, s: State) {
    s.cursor.Stored? ==>
      && s.cursor.generation.Some?
      && s.cursor.offset >= 0
      && if s.foreign then HeadsDiffer(s, s.outbox)
         else s.cursor.offset <= |s.outbox| && AtBoundary(s.outbox, s.cursor.offset) && Covered(rd, s, s.cursor.offset, [])
  }

  ghost predicate BatchInv(s: State, pending: seq<PendingEvent>) {
    pending != [] && 0 < EndOf(pending, 0) && AtBoundary(s.outbox, EndOf(pending, 0))
  }

  lemma InvIsSafe(rd: Reader, s: State)
    requires Inv(rd, s)
    ensures Safe(rd, s)
  {
  }

  /** A line of the longer outbox that ends in the old part is a line of the old outbox. */
  lemma LineOfPrefix(f: Bytes, more: Bytes, b: nat, e: nat)
    requires IsLine(f + more, b, e) && e <= |f|
    ensures IsLine(f, b, e) && (f + more)[b..e - 1] == f[b..e - 1]
  {
    assert f[e - 1] == (f + more)[e - 1];
    if b > 0 { assert f[b - 1] == (f + more)[b - 1]; }
    forall i | b <= i < e - 1 ensures f[i] != NEWLINE { assert (f + more)[i] == f[i]; }
  }

  /** Coverage survives appends and a growing log and table. */
  lemma CoveredGrows(rd: Reader, s: State, t: State, upTo: nat, excused: seq<Bytes>, excused': seq<Bytes>)
    requires Covered(rd, s, upTo, excused) && upTo <= |s.outbox|
    requires s.outbox <= t.outbox && Ids(s.rows) <= Ids(t.rows)
    requires forall raw :: raw in Raws(s.dead) ==> raw in Raws(t.dead)
    requires forall raw :: raw in excused ==> raw in excused' || Handled(rd, t, raw)
    ensures Covered(rd, t, upTo, excused')
  {
    var more := t.outbox[|s.outbox|..];
    assert t.outbox == s.outbox + more;
    forall b: nat, e: nat | IsLine(t.outbox, b, e) && e <= upTo && !rd.blank(t.outbox[b..e - 1])
      ensures Handled(rd, t, t.outbox[b..e - 1]) || t.outbox[b..e - 1] in excused'
    {
      LineOfPrefix(s.outbox, more, b, e);
    }
  }

  // ---- the idempotent sink ----

  lemma {:induction false} IngestGrows(rows: seq<Event>, events: seq<Event>, refused: set<Event>)
    ensures rows <= Ingest(rows, events, refused)
    ensures Ids(rows) <= Ids(Ingest(rows, events, refused))
    ensures UniqueIds(rows) ==> UniqueIds(Ingest(rows, events, refused))
    ensures forall event :: event in events && event !in refused ==> event.eventId in Ids(Ingest(rows, events, refused))
  {
    if events != [] {
      IngestGrows(rows, Init(events), refused);
      InsertKeepsUnique(Ingest(rows, Init(events), refused), Last(events));
      forall event | event in events ensures event in Init(events) || event == Last(events) {
      }
    }
  }

  lemma InsertKeepsUnique(rows: seq<Event>, event: Event)
    ensures rows <= InsertIfAbsent(rows, event)
    ensures Ids(InsertIfAbsent(rows, event)) == Ids(rows) + {event.eventId}
    ensures UniqueIds(rows) ==> UniqueIds(InsertIfAbsent(rows, event))
  {
    var after := InsertIfAbsent(rows, event);
    if event.eventId !in Ids(rows) {
      assert after[|rows|] == event;
      forall i | 0 <= i < |rows| ensures after[i] == rows[i] && rows[i].eventId in Ids(rows) {
      }
    }
  }

  // ---- every step keeps the invariant ----

  lemma WriteKeepsInv(rd: Reader, s: State, data: Bytes)
    requires Inv(rd, s) && HeadsDiffer(s, s.outbox + data)
    ensures Inv(rd, s.(outbox := s.outbox + data))
  {
    var t := s.(outbox := s.outbox + data);
    if s.cursor.Stored? && !s.foreign {
      CoveredGrows(rd, s, t, s.cursor.offset, [], []);
    }
    match s.phase
    case Idle =>
    case Reading(pending) => CoveredGrows(rd, s, t, EndOf(pending, 0), PendingRaws(pending), PendingRaws(pending));
    case Resolved(pending, todo) => CoveredGrows(rd, s, t, EndOf(pending, 0), Raws(todo), Raws(todo));
  }

  /** A growing log or table keeps everything, whatever the phase becomes. */
  lemma GrowthKeepsCursorInv(rd: Reader, s: State, t: State)
    requires CursorInv(rd, s) && t.outbox == s.outbox && t.cursor == s.cursor && t.foreign == s.foreign
    requires Ids(s.rows) <= Ids(t.rows) && forall raw :: raw in Raws(s.dead) ==> raw in Raws(t.dead)
    ensures CursorInv(rd, t)
  {
    if s.cursor.Stored? && !s.foreign {
      CoveredGrows(rd, s, t, s.cursor.offset, [], []);
    }
  }

  lemma RawsGrow(dead: seq<DeadLetter>, more: seq<DeadLetter>)
    ensures Raws(dead + more) == Raws(dead) + Raws(more)
  {
  }

  lemma TooLongKeepsInv(rd: Reader, s: State, line: Bytes)
    requires Inv(rd, s)
    ensures Inv(rd, s.(dead := s.dead + [DeadLetter(line, Oversized)]))
  {
    var t := s.(dead := s.dead + [DeadLetter(line, Oversized)]);
    RawsGrow(s.dead, [DeadLetter(line, Oversized)]);
    GrowthKeepsCursorInv(rd, s, t);
    match s.phase
    case Idle =>
    case Reading(pending) => CoveredGrows(rd, s, t, EndOf(pending, 0), PendingRaws(pending), PendingRaws(pending));
    case Resolved(pending, todo) => CoveredGrows(rd, s, t, EndOf(pending, 0), Raws(todo), Raws(todo));
  }

  lemma ReadKeepsInv(rd: Reader, size: nat, s: State)
    requires Inv(rd, s) && s.phase.Idle?
    ensures Inv(rd, Apply(rd, size, s, Read))
  {
    var f, start := s.outbox, CursorOf(s.outbox, s.cursor);
    var hi := WindowEnd(start, Some(size * MAX_LINE_BYTES), |f|);
    var cap := Cap(Some(size), |f|);
    var pending := Batch(rd, f, start, size);
    if pending != [] {
      EndsAtBoundary(rd, f, start, hi, cap);
      assert EndOf(pending, 0) == EndOf(pending, start);
      forall i | 0 <= i < |pending| ensures pending[i].envelope == rd.decode(pending[i].raw) {
        var _ := ParseSound(rd, f, start, hi, cap, i);
      }
      forall b: nat, e: nat | IsLine(f, b, e) && e <= EndOf(pending, 0) && !rd.blank(f[b..e - 1])
        ensures Handled(rd, s, f[b..e - 1]) || f[b..e - 1] in PendingRaws(pending)
      {
        if e > start {
          assert start > 0 ==> f[start - 1] == NEWLINE;
          assert b >= start;
          ParseComplete(rd, f, start, hi, cap, b, e, pending);
          var i :| 0 <= i < |pending| && pending[i] == RecordOf(rd, f, b, e);
          assert PendingRaws(pending)[i] == f[b..e - 1];
        }
      }
    }
  }

  lemma RawsSnoc(letters: seq<DeadLetter>, letter: DeadLetter)
    ensures Raws(letters + [letter]) == Raws(letters) + [letter.raw]
    ensures letter.raw in Raws(letters + [letter])
    ensures forall raw :: raw in Raws(letters) ==> raw in Raws(letters + [letter])
  {
    RawsGrow(letters, [letter]);
    assert Raws(letters + [letter])[|letters|] == letter.raw;
  }

  lemma {:induction false} SortedOut(pending: seq<PendingEvent>, refused: set<Event>, i: nat)
    requires i < |pending|
    ensures match pending[i].envelope
            case None => pending[i].raw in Raws(Malformed(pending))
            case Some(event) => Parsed(pending[i].raw, event) in Sendable(pending)
  {
    var init := Init(pending);
    assert pending == init + [Last(pending)];
    if i < |init| {
      SortedOut(init, refused, i);
    }
    if Last(pending).envelope.None? {
      RawsSnoc(Malformed(init), DeadLetter(Last(pending).raw, Unparseable));
    }
  }

  lemma {:induction false} RefusedAreListed(toSend: seq<Parsed>, refused: set<Event>, p: Parsed)
    requires p in toSend && p.event in refused
    ensures p.raw in Raws(RefusedLines(toSend, refused))
  {
    var init := Init(toSend);
    if Last(toSend).event in refused {
      RawsSnoc(RefusedLines(init, refused), DeadLetter(Last(toSend).raw, Rejected));
    }
    if p != Last(toSend) {
      RefusedAreListed(init, refused, p);
    }
  }

  /** A line of a resolved batch is dead-lettered, or its event is in the table. */
  lemma ExchangeHandles(rd: Reader, pending: seq<PendingEvent>, refused: set<Event>, i: nat, t: State)
    requires i < |pending| && pending[i].envelope == rd.decode(pending[i].raw)
    requires forall k :: 0 <= k < |Sendable(pending)| && Events(Sendable(pending))[k] !in refused ==>
      Events(Sendable(pending))[k].eventId in Ids(t.rows)
    ensures pending[i].raw in Raws(ToDeadLetter(pending, refused)) || Handled(rd, t, pending[i].raw)
  {
    var toSend := Sendable(pending);
    RawsGrow(Malformed(pending), RefusedLines(toSend, refused));
    SortedOut(pending, refused, i);
    if pending[i].envelope.Some? {
      var p := Parsed(pending[i].raw, pending[i].envelope.value);
      var k :| 0 <= k < |toSend| && toSend[k] == p;
      assert Events(toSend)[k] == p.event;
      if p.event in refused {
        RefusedAreListed(toSend, refused, p);
      }
    }
  }

  lemma ExchangeKeepsInv(rd: Reader, size: nat, s: State, fate: Fate)
    requires Inv(rd, s) && Enabled(s, Exchange(fate))
    ensures Inv(rd, Apply(rd, size, s, Exchange(fate)))
  {
    var pending, t := s.phase.pending, Apply(rd, size, s, Exchange(fate));
    var toSend := Sendable(pending);
    IngestGrows(s.rows, Events(toSend), fate.refused);
    GrowthKeepsCursorInv(rd, s, t);
    if t.phase.Resolved? {
      var todo := ToDeadLetter(pending, fate.refused);
      RawsGrow(Malformed(pending), RefusedLines(toSend, fate.refused));
      forall raw | raw in PendingRaws(pending)
        ensures raw in Raws(todo) || Handled(rd, t, raw)
      {
        var i :| 0 <= i < |pending| && pending[i].raw == raw;
        ExchangeHandles(rd, pending, fate.refused, i, t);
      }
      CoveredGrows(rd, s, t, EndOf(pending, 0), PendingRaws(pending), Raws(todo));
    }
  }

  lemma WriteDeadKeepsInv(rd: Reader, size: nat, s: State)
    requires Inv(rd, s) && Enabled(s, WriteDead)
    ensures Inv(rd, Apply(rd, size, s, WriteDead))
  {
    var t := Apply(rd, size, s, WriteDead);
    var pending, todo := s.phase.pending, s.phase.todo;
    RawsGrow(s.dead, [todo[0]]);
    assert Raws([todo[0]])[0] == todo[0].raw;
    GrowthKeepsCursorInv(rd, s, t);
    assert Raws(todo) == [todo[0].raw] + Raws(todo[1..]);
    CoveredGrows(rd, s, t, EndOf(pending, 0), Raws(todo), Raws(todo[1..]));
  }

  lemma StepKeepsInv(rd: Reader, size: nat, s: State, step: Step)
    requires Inv(rd, s) && Enabled(s, step)
    ensures Inv(rd, Apply(rd, size, s, step))
  {
    match step
    case Write(data) => WriteKeepsInv(rd, s, data);
    case TooLong(line) => TooLongKeepsInv(rd, s, line);
    case Remove =>
    case LoseCursor(left) =>
    case Read => ReadKeepsInv(rd, size, s);
    case Exchange(fate) => ExchangeKeepsInv(rd, size, s, fate);
    case WriteDead => WriteDeadKeepsInv(rd, size, s);
    case Advance => CoveredGrows(rd, s, Apply(rd, size, s, step), EndOf(s.phase.pending, 0), Raws(s.phase.todo), []);
    case Crash =>
  }

  lemma {:induction false} InvHolds(rd: Reader, size: nat, s: State, steps: seq<Step>)
    requires Inv(rd, s) && IsRun(rd, size, s, steps)
    ensures Inv(rd, After(rd, size, s, steps))
    decreases |steps|
  {
    if steps != [] {
      StepKeepsInv(rd, size, s, steps[0]);
      InvHolds(rd, size, Apply(rd, size, s, steps[0]), steps[1..]);
    }
  }

  // ---- where rows come from ----

  /** A complete line of the outbox. */
  ghost predicate LineIn(f: Bytes, raw: Bytes) {
    exists b: nat, e: nat :: IsLine(f, b, e) && f[b..e - 1] == raw
  }

  /** The line was in the outbox at some moment of the run. */
  ghost predicate EverIn(rd: Reader, size: nat, s: State, steps: seq<Step>, raw: Bytes)
    requires IsRun(rd, size, s, steps)
    decreases |steps|
  {
    LineIn(s.outbox, raw) || (steps != [] && EverIn(rd, size, Apply(rd, size, s, steps[0]), steps[1..], raw))
  }

  /** The event is what such a line decodes to. */
  ghost predicate Shipped(rd: Reader, size: nat, s: State, steps: seq<Step>, event: Event)
    requires IsRun(rd, size, s, steps)
  {
    exists raw :: EverIn(rd, size, s, steps, raw) && rd.decode(raw) == Some(event)
  }

  /** What the drain holds to be sent are lines of the outbox, decoded. */
  ghost predicate InHand(rd: Reader, s: State) {
    s.phase.Reading? ==>
      forall i :: 0 <= i < |s.phase.pending| ==>
        s.phase.pending[i].envelope == rd.decode(s.phase.pending[i].raw) && LineIn(s.outbox, s.phase.pending[i].raw)
  }

  ghost predicate LineDecodes(rd: Reader, f: Bytes, event: Event) {
    exists raw :: LineIn(f, raw) && rd.decode(raw) == Some(event)
  }

  lemma LineStays(f: Bytes, more: Bytes, raw: Bytes)
    requires LineIn(f, raw)
    ensures LineIn(f + more, raw)
  {
    var b: nat, e: nat :| IsLine(f, b, e) && f[b..e - 1] == raw;
    assert (f + more)[b..e - 1] == f[b..e - 1];
    assert IsLine(f + more, b, e);
  }

  lemma ReadIsInHand(rd: Reader, size: nat, s: State)
    requires Enabled(s, Read) && AtBoundary(s.outbox, CursorOf(s.outbox, s.cursor))
    ensures InHand(rd, Apply(rd, size, s, Read))
  {
    hide IsLine, Parse, LineIn;
    var f, start := s.outbox, CursorOf(s.outbox, s.cursor);
    var hi, cap := WindowEnd(start, Some(size * MAX_LINE_BYTES), |f|), Cap(Some(size), |f|);
    var pending := Batch(rd, f, start, size);
    forall i | 0 <= i < |pending| ensures pending[i].envelope == rd.decode(pending[i].raw) && LineIn(f, pending[i].raw) {
      var b := ParseSound(rd, f, start, hi, cap, i);
      RecordIsLine(rd, f, b, pending[i].endOffset);
    }
  }

  lemma RecordIsLine(rd: Reader, f: Bytes, b: nat, e: nat)
    requires IsLine(f, b, e)
    ensures var p := RecordOf(rd, f, b, e); p.envelope == rd.decode(p.raw) && LineIn(f, p.raw)
  {
  }

  lemma {:induction false} SendableIsPending(pending: seq<PendingEvent>, p: Parsed)
    requires p in Sendable(pending)
    ensures exists i :: 0 <= i < |pending| && pending[i].raw == p.raw && pending[i].envelope == Some(p.event)
  {
    var init, last := Init(pending), Last(pending);
    if last.envelope.Some? && p == Parsed(last.raw, last.envelope.value) {
      assert pending[|pending| - 1] == last;
    } else {
      SendableIsPending(init, p);
      var i :| 0 <= i < |init| && init[i].raw == p.raw && init[i].envelope == Some(p.event);
      assert pending[i] == init[i];
    }
  }

  /** An exchange adds nothing to the table but decoded lines of the outbox. */
  lemma ExchangeAdds(rd: Reader, size: nat, s: State, fate: Fate, r: Event)
    requires InHand(rd, s) && Enabled(s, Exchange(fate)) && r in Apply(rd, size, s, Exchange(fate)).rows && r !in s.rows
    ensures LineDecodes(rd, s.outbox, r)
  {
    hide LineIn, Ingest;
    var toSend := Sendable(s.phase.pending);
    IngestStores(s.rows, Events(toSend), fate.refused);
    var k :| 0 <= k < |toSend| && Events(toSend)[k] == r;
    assert toSend[k] in toSend;
    SendableIsPending(s.phase.pending, toSend[k]);
    var i :| 0 <= i < |s.phase.pending| && s.phase.pending[i].raw == toSend[k].raw && s.phase.pending[i].envelope == Some(r);
    assert LineIn(s.outbox, s.phase.pending[i].raw) && rd.decode(s.phase.pending[i].raw) == Some(r);
  }

  lemma StepKeepsInHand(rd: Reader, size: nat, s: State, step: Step)
    requires InHand(rd, s) && Enabled(s, step) && AtBoundary(s.outbox, CursorOf(s.outbox, s.cursor))
    ensures InHand(rd, Apply(rd, size, s, step))
  {
    hide LineIn, AtBoundary, Sendable, Ingest;
    match step
    case Write(data) =>
      if s.phase.Reading? {
        forall i | 0 <= i < |s.phase.pending| ensures LineIn(s.outbox + data, s.phase.pending[i].raw) {
          LineStays(s.outbox, data, s.phase.pending[i].raw);
        }
      }
    case Read => ReadIsInHand(rd, size, s);
    case _ =>
  }

  lemma StepAdds(rd: Reader, size: nat, s: State, step: Step, r: Event)
    requires InHand(rd, s) && Enabled(s, step) && r in Apply(rd, size, s, step).rows
    ensures r in s.rows || LineDecodes(rd, s.outbox, r)
  {
    hide LineDecodes, InHand, Ingest;
    if step.Exchange? && r !in s.rows {
      ExchangeAdds(rd, size, s, step.fate, r);
    }
  }

  /** Every stored row was there at the start or is, unaltered, what a line of the outbox decodes to. */
  lemma {:induction false} RowsHaveOrigin(rd: Reader, size: nat, s: State, steps: seq<Step>, r: Event)
    requires Inv(rd, s) && InHand(rd, s) && IsRun(rd, size, s, steps) && r in After(rd, size, s, steps).rows
    ensures r in s.rows || Shipped(rd, size, s, steps, r)
    decreases |steps|
  {
    hide Inv, InHand, LineIn, Enabled, Apply;
    if steps != [] {
      var t := Apply(rd, size, s, steps[0]);
      InvIsSafe(rd, s);
      StepKeepsInv(rd, size, s, steps[0]);
      StepKeepsInHand(rd, size, s, steps[0]);
      RowsHaveOrigin(rd, size, t, steps[1..], r);
      if r in t.rows {
        StepAdds(rd, size, s, steps[0], r);
        if raw :| LineIn(s.outbox, raw) && rd.decode(raw) == Some(r) {
          assert EverIn(rd, size, s, steps, raw);
        }
      } else {
        var raw :| EverIn(rd, size, t, steps[1..], raw) && rd.decode(raw) == Some(r);
        assert EverIn(rd, size, s, steps, raw);
      }
    }
  }

  lemma {:induction false} PresentIsEver(rd: Reader, size: nat, s: State, steps: seq<Step>, raw: Bytes)
    requires IsRun(rd, size, s, steps) && LineIn(After(rd, size, s, steps).outbox, raw)
    ensures EverIn(rd, size, s, steps, raw)
    decreases |steps|
  {
    hide LineIn, Enabled, Apply;
    if steps != [] {
      PresentIsEver(rd, size, Apply(rd, size, s, steps[0]), steps[1..], raw);
    }
  }

  /** A line in the table: a row under its id that was there at the start or is, unaltered, what some line decodes to. */
  ghost predicate HasRow(rd: Reader, size: nat, s: State, steps: seq<Step>, raw: Bytes)
    requires IsRun(rd, size, s, steps)
  {
    && rd.decode(raw).Some?
    && exists r :: r in After(rd, size, s, steps).rows && r.eventId == rd.decode(raw).value.eventId
                   && (r in s.rows || Shipped(rd, size, s, steps, r))
  }

  /** Every complete non-blank line ending at or before `upTo` is dead-lettered or in the table. */
  ghost predicate Accounted(rd: Reader, size: nat, s: State, steps: seq<Step>, upTo: nat)
    requires IsRun(rd, size, s, steps)
  {
    var t := After(rd, size, s, steps);
    forall b: nat, e: nat :: IsLine(t.outbox, b, e) && e <= upTo && !rd.blank(t.outbox[b..e - 1]) ==>
      t.outbox[b..e - 1] in Raws(t.dead) || HasRow(rd, size, s, steps, t.outbox[b..e - 1])
  }

  /**
   No event is lost: in every reachable state, all complete lines up to the cursor are dead-lettered or stored, and
   every row of the table was there at the start or is what a line of the outbox decodes to.
   */
  lemma {:induction false} NoEventIsLost(rd: Reader, size: nat, s: State, steps: seq<Step>)
    requires Initial(s) && IsRun(rd, size, s, steps)
    ensures var t := After(rd, size, s, steps);
            && Safe(rd, t) && Accounted(rd, size, s, steps, CursorOf(t.outbox, t.cursor))
            && forall r :: r in t.rows ==> r in s.rows || Shipped(rd, size, s, steps, r)
  {
    InvHolds(rd, size, s, steps);
    var t := After(rd, size, s, steps);
    InvIsSafe(rd, t);
    hide Shipped, Inv, After, IsRun, IsLine;
    forall r | r in t.rows ensures r in s.rows || Shipped(rd, size, s, steps, r) {
      RowsHaveOrigin(rd, size, s, steps, r);
    }
    forall b: nat, e: nat | IsLine(t.outbox, b, e) && e <= CursorOf(t.outbox, t.cursor) && !rd.blank(t.outbox[b..e - 1])
      ensures t.outbox[b..e - 1] in Raws(t.dead) || HasRow(rd, size, s, steps, t.outbox[b..e - 1])
    {
      var raw := t.outbox[b..e - 1];
      assert Handled(rd, t, raw) || raw in [];
      if raw !in Raws(t.dead) {
        IdsAre(t.rows, rd.decode(raw).value.eventId);
      }
    }
  }

  ghost predicate Known(rd: Reader, size: nat, s: State, steps: seq<Step>, event: Event)
    requires IsRun(rd, size, s, steps)
  {
    event in s.rows || Shipped(rd, size, s, steps, event)
  }

  /** Different events never share an id, neither in the table at the start nor among the lines of the run. */
  ghost predicate IdsNameEvents(rd: Reader, size: nat, s: State, steps: seq<Step>)
    requires IsRun(rd, size, s, steps)
  {
    forall a: Event, b: Event :: Known(rd, size, s, steps, a) && Known(rd, size, s, steps, b) && a.eventId == b.eventId ==> a == b
  }

  /** When ids name events, every complete line up to the cursor that is not dead-lettered is itself in the table. */
  lemma EveryEventIsStored(rd: Reader, size: nat, s: State, steps: seq<Step>, b: nat, e: nat)
    requires Initial(s) && IsRun(rd, size, s, steps) && IdsNameEvents(rd, size, s, steps)
    requires var t := After(rd, size, s, steps);
      IsLine(t.outbox, b, e) && e <= CursorOf(t.outbox, t.cursor) && !rd.blank(t.outbox[b..e - 1])
    ensures var t := After(rd, size, s, steps); var raw := t.outbox[b..e - 1];
            raw in Raws(t.dead) || (rd.decode(raw).Some? && rd.decode(raw).value in t.rows)
  {
    NoEventIsLost(rd, size, s, steps);
    var t := After(rd, size, s, steps);
    var raw := t.outbox[b..e - 1];
    assert LineIn(t.outbox, raw);
    PresentIsEver(rd, size, s, steps, raw);
    hide IsRun, After, Safe, LineIn, EverIn;
    if raw !in Raws(t.dead) {
      assert HasRow(rd, size, s, steps, raw);
      var own := rd.decode(raw).value;
      assert Shipped(rd, size, s, steps, own);
      var r :| r in t.rows && r.eventId == own.eventId && (r in s.rows || Shipped(rd, size, s, steps, r));
      assert Known(rd, size, s, steps, own) && Known(rd, size, s, steps, r);
    }
  }
}

/**
 Line by line accounting over runs of the drain: a batch as the drain performs it is a run of the steps of
 DrainRuns, and while the drain does not die and the cursor is not lost, every line before the cursor was
 delivered or dead-lettered exactly once, however often its batch had to be retried.
 */
module DrainAccounting {
  import opened Basics
  import opened Options
  import opened Outbox
  import opened OutboxReading
  import opened Drain
  import opened DrainRuns

  // ---- a batch is a run ----

  lemma {:induction false} RunAppend(rd: Reader, size: nat, s: State, a: seq<Step>, b: seq<Step>)
    requires IsRun(rd, size, s, a) && IsRun(rd, size, After(rd, size, s, a), b)
    ensures IsRun(rd, size, s, a + b) && After(rd, size, s, a + b) == After(rd, size, After(rd, size, s, a), b)
    decreases |a|
  {
    if a == [] {
      assert a + b == b;
    } else {
      assert (a + b)[1..] == a[1..] + b;
      RunAppend(rd, size, Apply(rd, size, s, a[0]), a[1..], b);
    }
  }

  lemma {:induction false} DeadLettersAreARun(rd: Reader, size: nat, s: State) returns (steps: seq<Step>)
    requires s.phase.Resolved?
    ensures IsRun(rd, size, s, steps)
    ensures After(rd, size, s, steps) == s.(dead := s.dead + s.phase.todo, phase := s.phase.(todo := []))
    decreases if s.phase.Resolved? then |s.phase.todo| else 0
  {
    if s.phase.todo == [] {
      assert s.dead + s.phase.todo == s.dead;
      steps := [];
    } else {
      var rest := DeadLettersAreARun(rd, size, Apply(rd, size, s, WriteDead));
      assert s.dead + s.phase.todo == (s.dead + [s.phase.todo[0]]) + s.phase.todo[1..];
      steps := [WriteDead] + rest;
      assert steps[1..] == rest;
    }
  }

  /** What the drain does in one batch is one run of the machine, with the effect its contract states. */
  lemma BatchIsARun(rd: Reader, size: nat, s: State, fate: Fate) returns (steps: seq<Step>)
    requires s.phase.Idle?
    requires FitsBatch(fate, Batch(rd, s.outbox, CursorOf(s.outbox, s.cursor), size))
    ensures IsRun(rd, size, s, steps)
    ensures var pending := Batch(rd, s.outbox, CursorOf(s.outbox, s.cursor), size);
            var t := After(rd, size, s, steps);
            && t.phase.Idle? && t.outbox == s.outbox
            && (ResultOf(pending, fate) != Progress ==> t.cursor == s.cursor && t.dead == s.dead)
            && (ResultOf(pending, fate) == Progress ==>
                  && t.dead == s.dead + ToDeadLetter(pending, fate.refused)
                  && t.cursor == Stored(EndOf(pending, 0), Generation(s.outbox)))
            && t.rows == if Commits(fate) then Ingest(s.rows, Events(Sendable(pending)), fate.refused) else s.rows
  {
    var pending := Batch(rd, s.outbox, CursorOf(s.outbox, s.cursor), size);
    var s1 := Apply(rd, size, s, Read);
    if pending == [] {
      steps := [Read];
      assert After(rd, size, s, steps) == s1;
    } else {
      var s2 := Apply(rd, size, s1, Exchange(fate));
      steps := [Read, Exchange(fate)];
      assert steps[1..] == [Exchange(fate)] && steps[1..][1..] == [];
      assert IsRun(rd, size, s1, [Exchange(fate)]) && After(rd, size, s1, [Exchange(fate)]) == s2;
      assert IsRun(rd, size, s, steps) && After(rd, size, s, steps) == s2;
      if ResultOf(pending, fate) == Progress {
        var writes := DeadLettersAreARun(rd, size, s2);
        var s3 := After(rd, size, s2, writes);
        RunAppend(rd, size, s, steps, writes);
        assert [Advance][1..] == [];
        assert IsRun(rd, size, s3, [Advance]) && After(rd, size, s3, [Advance]) == Apply(rd, size, s3, Advance);
        RunAppend(rd, size, s, steps + writes, [Advance]);
        steps := steps + writes + [Advance];
      }
    }
  }

  // ---- conservation ----

  /** The raw lines the drain dead-lettered; the producer's oversized lines never were in the outbox. */
  function Drained(dead: seq<DeadLetter>): seq<Bytes> {
    if dead == [] then []
    else if Last(dead).reason == Oversized then Drained(Init(dead))
    else Drained(Init(dead)) + [Last(dead).raw]
  }

  ghost function LinesBefore(rd: Reader, f: Bytes, c: nat): multiset<Bytes>
    requires c <= |f|
  {
    multiset(PendingRaws(ParseAll(rd, f, 0, c)))
  }

  /** Every line before the cursor was delivered or dead-lettered, and counted once. */
  ghost predicate Balanced(rd: Reader, s: State) {
    && CursorOf(s.outbox, s.cursor) <= |s.outbox|
    && LinesBefore(rd, s.outbox, CursorOf(s.outbox, s.cursor)) == multiset(s.sent) + multiset(Drained(s.dead))
  }

  /** The steps of an outage: transport failures and retries, but no crash, no deletion, no lost cursor. */
  ghost predicate Calm(steps: seq<Step>) {
    forall i :: 0 <= i < |steps| ==> !steps[i].Crash? && !steps[i].Remove? && !steps[i].LoseCursor?
  }

  ghost predicate Ledger(rd: Reader, s: State) {
    var c := CursorOf(s.outbox, s.cursor);
    && |s.outbox| >= GENERATION_SAMPLE_BYTES && !s.foreign
    && (s.cursor.Stored? ==> s.cursor.generation == Generation(s.outbox) && 0 <= s.cursor.offset <= |s.outbox|)
    && AtBoundary(s.outbox, c)
    && match s.phase {
         case Idle => Balanced(rd, s)
         case Reading(pending) => Balanced(rd, s) && IsNext(rd, s, pending)
         case Resolved(pending, todo) =>
           && IsNext(rd, s, pending)
           && (forall i :: 0 <= i < |todo| ==> todo[i].reason != Oversized)
           && LinesBefore(rd, s.outbox, c) + multiset(PendingRaws(pending))
              == multiset(s.sent) + multiset(Drained(s.dead)) + multiset(Raws(todo))
       }
  }

  /** The batch in hand is exactly the records between the cursor and its end. */
  ghost predicate IsNext(rd: Reader, s: State, pending: seq<PendingEvent>) {
    var c, e := CursorOf(s.outbox, s.cursor), EndOf(pending, 0);
    c < e <= |s.outbox| && AtBoundary(s.outbox, e) && pending == ParseAll(rd, s.outbox, c, e)
  }

  lemma HeadStable(f: Bytes, more: Bytes)
    requires |f| >= GENERATION_SAMPLE_BYTES
    ensures Generation(f + more) == Generation(f)
  {
    assert (f + more)[..GENERATION_SAMPLE_BYTES] == f[..GENERATION_SAMPLE_BYTES];
  }

  lemma WriteKeepsLedger(rd: Reader, size: nat, s: State, data: Bytes)
    requires Ledger(rd, s)
    ensures Ledger(rd, s.(outbox := s.outbox + data))
  {
    hide Parse, Batch;
    var t, c := s.(outbox := s.outbox + data), CursorOf(s.outbox, s.cursor);
    HeadStable(s.outbox, data);
    assert CursorOf(t.outbox, t.cursor) == c;
    ParseStable(rd, s.outbox, data, 0, c, c);
    if !s.phase.Idle? {
      var e := EndOf(s.phase.pending, 0);
      ParseStable(rd, s.outbox, data, c, e, e - c);
    }
  }

  lemma ReadKeepsLedger(rd: Reader, size: nat, s: State)
    requires Ledger(rd, s) && s.phase.Idle?
    ensures Ledger(rd, Apply(rd, size, s, Read))
  {
    var f, c := s.outbox, CursorOf(s.outbox, s.cursor);
    var hi, cap := WindowEnd(c, Some(size * MAX_LINE_BYTES), |f|), Cap(Some(size), |f|);
    var pending := Batch(rd, f, c, size);
    if pending != [] {
      EndsAtBoundary(rd, f, c, hi, cap);
      BatchFillsRange(rd, f, c, hi, cap, pending);
      assert EndOf(pending, 0) == EndOf(pending, c);
    }
  }

  /** A batch splits into delivered, malformed and refused lines. */
  lemma {:induction false} BatchIsPartitioned(pending: seq<PendingEvent>, refused: set<Event>)
    ensures multiset(PendingRaws(pending)) ==
            multiset(Delivered(Sendable(pending), refused)) + multiset(Raws(Malformed(pending)))
            + multiset(Raws(RefusedLines(Sendable(pending), refused)))
    ensures forall i :: 0 <= i < |Malformed(pending)| ==> Malformed(pending)[i].reason != Oversized
  {
    if pending != [] {
      var init, last := Init(pending), Last(pending);
      BatchIsPartitioned(init, refused);
      RawsOfPending(pending);
      ghost var p := multiset(PendingRaws(init));
      ghost var d, r := multiset(Delivered(Sendable(init), refused)), multiset(Raws(RefusedLines(Sendable(init), refused)));
      ghost var m := multiset(Raws(Malformed(init)));
      if last.envelope.None? {
        RawsAdded(Malformed(init), DeadLetter(last.raw, Unparseable));
      } else {
        var toSend := Sendable(init) + [Parsed(last.raw, last.envelope.value)];
        SentIsPartitioned(Sendable(init), Parsed(last.raw, last.envelope.value), refused);
        assert Sendable(pending) == toSend && Malformed(pending) == Malformed(init);
        hide Sendable, Malformed, Delivered, RefusedLines, Raws, PendingRaws;
        OneMoreSent(p, d, m, r, multiset(Delivered(toSend, refused)), multiset(Raws(RefusedLines(toSend, refused))), last.raw);
      }
    }
  }

  lemma OneMoreSent<T>(p: multiset<T>, d: multiset<T>, m: multiset<T>, r: multiset<T>, d': multiset<T>, r': multiset<T>, x: T)
    requires p == d + m + r && d' + r' == d + r + multiset{x}
    ensures p + multiset{x} == d' + m + r'
  {
    calc {
      p + multiset{x};
      d + r + multiset{x} + m;
      d' + r' + m;
      d' + m + r';
    }
  }

  lemma RawsOfPending(pending: seq<PendingEvent>)
    requires pending != []
    ensures multiset(PendingRaws(pending)) == multiset(PendingRaws(Init(pending))) + multiset{Last(pending).raw}
  {
    assert PendingRaws(pending) == PendingRaws(Init(pending)) + [Last(pending).raw];
  }

  lemma RawsAdded(letters: seq<DeadLetter>, letter: DeadLetter)
    ensures multiset(Raws(letters + [letter])) == multiset(Raws(letters)) + multiset{letter.raw}
  {
    hide Raws;
    RawsSnoc(letters, letter);
  }

  lemma SentIsPartitioned(toSend: seq<Parsed>, last: Parsed, refused: set<Event>)
    ensures multiset(Delivered(toSend + [last], refused)) + multiset(Raws(RefusedLines(toSend + [last], refused)))
            == multiset(Delivered(toSend, refused)) + multiset(Raws(RefusedLines(toSend, refused))) + multiset{last.raw}
  {
    hide Raws;
    assert Init(toSend + [last]) == toSend;
    if last.event in refused {
      RawsAdded(RefusedLines(toSend, refused), DeadLetter(last.raw, Rejected));
    }
  }

  lemma {:induction false} RefusedAreNotOversized(toSend: seq<Parsed>, refused: set<Event>)
    ensures forall i :: 0 <= i < |RefusedLines(toSend, refused)| ==> RefusedLines(toSend, refused)[i].reason != Oversized
  {
    if toSend != [] {
      RefusedAreNotOversized(Init(toSend), refused);
    }
  }

  lemma ExchangeKeepsLedger(rd: Reader, size: nat, s: State, fate: Fate)
    requires Ledger(rd, s) && Enabled(s, Exchange(fate))
    ensures Ledger(rd, Apply(rd, size, s, Exchange(fate)))
  {
    hide Parse, Batch, Sendable, Malformed, RefusedLines, Delivered, Drained, Raws, PendingRaws, LinesBefore, Generation, AtBoundary, Ingest;
    var pending := s.phase.pending;
    var t, toSend := Apply(rd, size, s, Exchange(fate)), Sendable(pending);
    if t.phase.Resolved? {
      BatchIsPartitioned(pending, fate.refused);
      RefusedAreNotOversized(toSend, fate.refused);
      RawsGrow(Malformed(pending), RefusedLines(toSend, fate.refused));
      BatchResolved(LinesBefore(rd, s.outbox, CursorOf(s.outbox, s.cursor)), PendingRaws(pending), s.sent, Drained(s.dead),
                    Delivered(toSend, fate.refused), Raws(Malformed(pending)), Raws(RefusedLines(toSend, fate.refused)));
    }
  }

  lemma BatchResolved<T>(lines: multiset<T>, pending: seq<T>, sent: seq<T>, dead: seq<T>, more: seq<T>, bad: seq<T>, refused: seq<T>)
    requires lines == multiset(sent) + multiset(dead)
    requires multiset(pending) == multiset(more) + multiset(bad) + multiset(refused)
    ensures lines + multiset(pending) == multiset(sent + more) + multiset(dead) + multiset(bad + refused)
  {
  }

  lemma WriteDeadKeepsLedger(rd: Reader, size: nat, s: State)
    requires Ledger(rd, s) && Enabled(s, WriteDead)
    ensures Ledger(rd, Apply(rd, size, s, WriteDead))
  {
    hide Drained, Raws, PendingRaws, Parse, Batch, LinesBefore, Generation, AtBoundary;
    var todo := s.phase.todo;
    DrainedAdded(s.dead, todo[0]);
    RawsTaken(todo);
    ghost var lines := LinesBefore(rd, s.outbox, CursorOf(s.outbox, s.cursor)) + multiset(PendingRaws(s.phase.pending));
    OneMoved(lines, multiset(s.sent), multiset(Drained(s.dead)), multiset(Raws(todo[1..])), todo[0].raw);
  }

  lemma DrainedAdded(dead: seq<DeadLetter>, letter: DeadLetter)
    requires letter.reason != Oversized
    ensures multiset(Drained(dead + [letter])) == multiset(Drained(dead)) + multiset{letter.raw}
  {
    assert Init(dead + [letter]) == dead;
  }

  lemma RawsTaken(letters: seq<DeadLetter>)
    requires letters != []
    ensures multiset(Raws(letters)) == multiset{letters[0].raw} + multiset(Raws(letters[1..]))
  {
    assert Raws(letters) == [letters[0].raw] + Raws(letters[1..]);
  }

  lemma OneMoved<T>(all: multiset<T>, sent: multiset<T>, dead: multiset<T>, rest: multiset<T>, x: T)
    requires all == sent + dead + (multiset{x} + rest)
    ensures all == sent + (dead + multiset{x}) + rest
  {
  }

  lemma AdvanceKeepsLedger(rd: Reader, size: nat, s: State)
    requires Ledger(rd, s) && Enabled(s, Advance)
    ensures Ledger(rd, Apply(rd, size, s, Advance))
  {
    hide Parse, Batch;
    var c, e := CursorOf(s.outbox, s.cursor), EndOf(s.phase.pending, 0);
    SplitAtBoundary(rd, s.outbox, 0, c, e);
    assert PendingRaws(ParseAll(rd, s.outbox, 0, e)) == PendingRaws(ParseAll(rd, s.outbox, 0, c)) + PendingRaws(s.phase.pending);
    assert s.phase.todo == [] && Raws(s.phase.todo) == [];
  }

  lemma CalmStepKeepsLedger(rd: Reader, size: nat, s: State, step: Step)
    requires Ledger(rd, s) && Enabled(s, step) && !step.Crash? && !step.Remove? && !step.LoseCursor?
    ensures Ledger(rd, Apply(rd, size, s, step))
  {
    match step
    case Write(data) => WriteKeepsLedger(rd, size, s, data);
    case TooLong(line) => assert Init(s.dead + [DeadLetter(line, Oversized)]) == s.dead;
    case Read => ReadKeepsLedger(rd, size, s);
    case Exchange(fate) => ExchangeKeepsLedger(rd, size, s, fate);
    case WriteDead => WriteDeadKeepsLedger(rd, size, s);
    case Advance => AdvanceKeepsLedger(rd, size, s);
  }

  lemma {:induction false} LedgerHolds(rd: Reader, size: nat, s: State, steps: seq<Step>)
    requires Ledger(rd, s) && IsRun(rd, size, s, steps) && Calm(steps)
    ensures Ledger(rd, After(rd, size, s, steps))
    decreases |steps|
  {
    if steps != [] {
      CalmStepKeepsLedger(rd, size, s, steps[0]);
      LedgerHolds(rd, size, Apply(rd, size, s, steps[0]), steps[1..]);
    }
  }

  /** Conservation: each line before the cursor was delivered or dead-lettered exactly once, whatever failed in between. */
  lemma {:induction false} LinesAreConserved(rd: Reader, size: nat, s: State, steps: seq<Step>)
    requires Initial(s) && s.sent == [] && Drained(s.dead) == [] && |s.outbox| >= GENERATION_SAMPLE_BYTES
    requires IsRun(rd, size, s, steps) && Calm(steps)
    ensures var t := After(rd, size, s, steps); !t.phase.Resolved? ==> Balanced(rd, t)
  {
    assert PendingRaws(ParseAll(rd, s.outbox, 0, 0)) == [];
    LedgerHolds(rd, size, s, steps);
  }
}

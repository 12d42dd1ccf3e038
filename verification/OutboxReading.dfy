/**
 What bounded reading and the persisted cursor promise: reads hand out exactly the complete lines, successive
 batches add up to the one-shot parse, and a stored cursor comes back unless the head it was hashed from grew.
 */
module OutboxReading {
  import opened Basics
  import opened Options
  import opened Outbox

  /** `f[b..e]` is one complete line with its newline. */
  ghost predicate IsLine(f: Bytes, b: nat, e: nat) {
    && b < e <= |f|
    && AtBoundary(f, b)
    && f[e - 1] == NEWLINE
    && forall i :: b <= i < e - 1 ==> f[i] != NEWLINE
  }

  ghost predicate AtBoundary(f: Bytes, pos: nat) {
    pos <= |f| && (pos == 0 || f[pos - 1] == NEWLINE)
  }

  function RecordOf(rd: Reader, f: Bytes, b: nat, e: nat): PendingEvent
    requires b < e <= |f|
  {
    PendingEvent(rd.decode(f[b..e - 1]), f[b..e - 1], e)
  }

  /** Where a batch ends: the cursor it would write. */
  function EndOf(r: seq<PendingEvent>, pos: nat): nat {
    if r == [] then pos else r[|r| - 1].endOffset
  }

  /** The first line within reach of a read, and what is read after it. */
  lemma FirstLine(rd: Reader, f: Bytes, pos: nat, hi: nat, cap: nat) returns (n: nat, less: nat)
    requires pos <= hi <= |f| && cap > 0 && FindNewline(f, pos, hi) < hi
    ensures n == FindNewline(f, pos, hi) < hi
    ensures less == if rd.blank(f[pos..n]) then cap else cap - 1
    ensures var rest := Parse(rd, f, n + 1, hi, less);
            Parse(rd, f, pos, hi, cap) == if rd.blank(f[pos..n]) then rest else [RecordOf(rd, f, pos, n + 1)] + rest
  {
    n := FindNewline(f, pos, hi);
    less := if rd.blank(f[pos..n]) then cap else cap - 1;
  }

  lemma {:induction false} EndsWithin(rd: Reader, f: Bytes, pos: nat, hi: nat, cap: nat)
    requires pos <= hi <= |f|
    ensures var r := Parse(rd, f, pos, hi, cap); pos <= EndOf(r, pos) <= hi && (r != [] ==> pos < EndOf(r, pos))
    decreases hi - pos
  {
    hide FindNewline;
    var n := FindNewline(f, pos, hi);
    if cap > 0 && n < hi {
      EndsWithin(rd, f, n + 1, hi, if rd.blank(f[pos..n]) then cap else cap - 1);
    }
  }

  // ---- soundness and completeness of one read ----

  /** The line found at `pos` when a newline is in reach; any other line starts after it. */
  lemma LineStarts(f: Bytes, pos: nat, hi: nat, b: nat, e: nat)
    requires pos <= hi <= |f| && AtBoundary(f, pos) && pos <= b && e <= hi && IsLine(f, b, e)
    ensures var n := FindNewline(f, pos, hi); n < hi && (b <= n ==> b == pos && e == n + 1)
  {
    var n := FindNewline(f, pos, hi);
    assert f[e - 1] == NEWLINE;
    if pos < b <= n {
      assert false;
    }
  }

  /** Every record handed out is a complete non-blank line of the range. */
  lemma {:induction false} ParseSound(rd: Reader, f: Bytes, pos: nat, hi: nat, cap: nat, i: nat) returns (b: nat)
    requires pos <= hi <= |f| && AtBoundary(f, pos)
    requires i < |Parse(rd, f, pos, hi, cap)|
    ensures var p := Parse(rd, f, pos, hi, cap)[i];
            && pos <= b < p.endOffset <= hi && IsLine(f, b, p.endOffset)
            && !rd.blank(p.raw) && p == RecordOf(rd, f, b, p.endOffset)
    decreases hi - pos
  {
    var n := FindNewline(f, pos, hi);
    if rd.blank(f[pos..n]) {
      b := ParseSound(rd, f, n + 1, hi, cap, i);
    } else if i == 0 {
      b := pos;
    } else {
      b := ParseSound(rd, f, n + 1, hi, cap - 1, i - 1);
    }
  }

  lemma LineIs(f: Bytes, b: nat, e: nat)
    requires IsLine(f, b, e)
    ensures b < e <= |f|
  {
  }

  lemma AfterNewline(f: Bytes, pos: nat, hi: nat)
    requires pos <= hi <= |f| && FindNewline(f, pos, hi) < hi
    ensures AtBoundary(f, FindNewline(f, pos, hi) + 1)
  {
  }

  lemma ReadsSome(rd: Reader, f: Bytes, pos: nat, hi: nat, cap: nat, e: nat)
    requires pos <= hi <= |f| && pos < e
    requires |Parse(rd, f, pos, hi, cap)| < cap || e <= EndOf(Parse(rd, f, pos, hi, cap), pos)
    ensures cap > 0
  {
  }

  lemma SameEnd(r: seq<PendingEvent>, pos: nat, pos': nat)
    ensures r != [] ==> EndOf(r, pos) == EndOf(r, pos')
  {
  }

  lemma NoEnd(pos: nat)
    ensures EndOf([], pos) == pos
  {
  }

  lemma FirstEnd(first: PendingEvent, rest: seq<PendingEvent>, pos: nat)
    ensures EndOf([first] + rest, pos) == EndOf(rest, first.endOffset)
    ensures ([first] + rest)[0] == first && forall i :: 0 <= i < |rest| ==> ([first] + rest)[i + 1] == rest[i]
  {
  }

  lemma RecordEnds(rd: Reader, f: Bytes, b: nat, e: nat)
    requires b < e <= |f|
    ensures RecordOf(rd, f, b, e).endOffset == e
  {
  }

  /** A complete non-blank line is handed out if the read was not cut off before it. */
  lemma {:induction false} ParseReaches(rd: Reader, f: Bytes, pos: nat, hi: nat, cap: nat, b: nat, e: nat) returns (i: nat)
    requires pos <= hi <= |f| && AtBoundary(f, pos)
    requires pos <= b && e <= hi && IsLine(f, b, e) && !rd.blank(f[b..e - 1])
    requires |Parse(rd, f, pos, hi, cap)| < cap || e <= EndOf(Parse(rd, f, pos, hi, cap), pos)
    ensures i < |Parse(rd, f, pos, hi, cap)| && Parse(rd, f, pos, hi, cap)[i] == RecordOf(rd, f, b, e)
    decreases hi - pos
  {
    hide *;
    LineStarts(f, pos, hi, b, e);
    LineIs(f, b, e);
    ReadsSome(rd, f, pos, hi, cap, e);
    var n, less := FirstLine(rd, f, pos, hi, cap);
    AfterNewline(f, pos, hi);
    var rest := Parse(rd, f, n + 1, hi, less);
    SameEnd(rest, pos, n + 1);
    if less == cap {
      if rest == [] { NoEnd(n + 1); NoEnd(pos); }
      i := ParseReaches(rd, f, n + 1, hi, less, b, e);
    } else {
      FirstEnd(RecordOf(rd, f, pos, n + 1), rest, pos);
      RecordEnds(rd, f, pos, n + 1);
      if b == pos {
        i := 0;
      } else {
        if rest == [] { NoEnd(n + 1); }
        var k := ParseReaches(rd, f, n + 1, hi, less, b, e);
        i := k + 1;
      }
    }
  }

  lemma {:induction false} EndsAreLast(rd: Reader, f: Bytes, pos: nat, hi: nat, cap: nat, i: nat)
    requires pos <= hi <= |f| && i < |Parse(rd, f, pos, hi, cap)|
    ensures Parse(rd, f, pos, hi, cap)[i].endOffset <= EndOf(Parse(rd, f, pos, hi, cap), pos)
    decreases hi - pos
  {
    var n, less := FirstLine(rd, f, pos, hi, cap);
    hide Parse, FindNewline, RecordOf, EndOf;
    EndsWithin(rd, f, n + 1, hi, less);
    var rest := Parse(rd, f, n + 1, hi, less);
    SameEnd(rest, pos, n + 1);
    if less == cap {
      EndsAreLast(rd, f, n + 1, hi, less, i);
    } else {
      FirstEnd(RecordOf(rd, f, pos, n + 1), rest, pos);
      RecordEnds(rd, f, pos, n + 1);
      if i > 0 {
        EndsAreLast(rd, f, n + 1, hi, less, i - 1);
      }
    }
  }

  /** A read hands out no more than it may, and each record ends after the one before: none comes twice. */
  lemma {:induction false} EndsRise(rd: Reader, f: Bytes, pos: nat, hi: nat, cap: nat)
    requires pos <= hi <= |f|
    ensures |Parse(rd, f, pos, hi, cap)| <= cap
    ensures Rises(pos, Parse(rd, f, pos, hi, cap))
    decreases hi - pos
  {
    if cap == 0 || FindNewline(f, pos, hi) == hi {
    } else {
      var n, less := FirstLine(rd, f, pos, hi, cap);
      EndsRise(rd, f, n + 1, hi, less);
      hide Parse, FindNewline;
    }
  }

  ghost predicate Rises(pos: nat, r: seq<PendingEvent>) {
    && (forall i :: 0 <= i < |r| ==> pos < r[i].endOffset)
    && forall i, j :: 0 <= i < j < |r| ==> r[i].endOffset < r[j].endOffset
  }

  /** Neither bound of a read is exceeded: not the number of records, not the bytes from its start. */
  lemma ReadIsBounded(rd: Reader, f: Bytes, start: nat, maxEvents: Option<int>, maxBytes: Option<int>)
    requires start <= |f|
    ensures var r := Parse(rd, f, start, WindowEnd(start, maxBytes, |f|), Cap(maxEvents, |f|));
            && (maxEvents.Some? ==> |r| <= Max(maxEvents.value, 0))
            && (maxBytes.Some? && maxBytes.value >= 0 ==>
                  forall i :: 0 <= i < |r| ==> start < r[i].endOffset <= start + maxBytes.value)
  {
    hide Parse;
    var hi, cap := WindowEnd(start, maxBytes, |f|), Cap(maxEvents, |f|);
    var r := Parse(rd, f, start, hi, cap);
    EndsRise(rd, f, start, hi, cap);
    EndsWithin(rd, f, start, hi, cap);
    forall i | 0 <= i < |r| ensures start < r[i].endOffset <= hi {
      EndsAreLast(rd, f, start, hi, cap, i);
    }
  }

  /** A complete non-blank line of the range is handed out exactly when the read got to it. */
  lemma ParseComplete(rd: Reader, f: Bytes, pos: nat, hi: nat, cap: nat, b: nat, e: nat, r: seq<PendingEvent>)
    requires pos <= hi <= |f| && AtBoundary(f, pos) && r == Parse(rd, f, pos, hi, cap)
    requires pos <= b && e <= hi && IsLine(f, b, e) && !rd.blank(f[b..e - 1])
    ensures RecordOf(rd, f, b, e) in r <==> |r| < cap || e <= EndOf(r, pos)
  {
    hide Parse, FindNewline;
    if |r| < cap || e <= EndOf(r, pos) {
      var _ := ParseReaches(rd, f, pos, hi, cap, b, e);
    } else if RecordOf(rd, f, b, e) in r {
      var i :| 0 <= i < |r| && r[i] == RecordOf(rd, f, b, e);
      EndsAreLast(rd, f, pos, hi, cap, i);
    }
  }

  lemma {:induction false} EndsAtBoundary(rd: Reader, f: Bytes, pos: nat, hi: nat, cap: nat)
    requires pos <= hi <= |f| && AtBoundary(f, pos)
    ensures var r := Parse(rd, f, pos, hi, cap);
            AtBoundary(f, EndOf(r, pos)) && pos <= EndOf(r, pos) <= hi && (r != [] ==> pos < EndOf(r, pos))
  {
    var r := Parse(rd, f, pos, hi, cap);
    if r != [] {
      var _ := ParseSound(rd, f, pos, hi, cap, |r| - 1);
    }
  }

  // ---- batches against the one-shot parse ----

  lemma {:induction false} CapIsNoLimit(rd: Reader, f: Bytes, pos: nat, hi: nat, cap: nat, more: nat)
    requires pos <= hi <= |f| && hi - pos <= cap && hi - pos <= more
    ensures Parse(rd, f, pos, hi, cap) == Parse(rd, f, pos, hi, more)
    decreases hi - pos
  {
    if FindNewline(f, pos, hi) < hi {
      var n, less := FirstLine(rd, f, pos, hi, cap);
      var _, less' := FirstLine(rd, f, pos, hi, more);
      CapIsNoLimit(rd, f, n + 1, hi, less, less');
    }
  }

  /** One step of the one-shot parse. */
  lemma ParseAllStep(rd: Reader, f: Bytes, pos: nat, hi: nat)
    requires pos <= hi <= |f|
    ensures var n := FindNewline(f, pos, hi);
            ParseAll(rd, f, pos, hi) ==
              if n == hi then []
              else if rd.blank(f[pos..n]) then ParseAll(rd, f, n + 1, hi)
              else [RecordOf(rd, f, pos, n + 1)] + ParseAll(rd, f, n + 1, hi)
  {
    hide FindNewline, RecordOf;
    if FindNewline(f, pos, hi) < hi {
      var n, less := FirstLine(rd, f, pos, hi, hi - pos);
      CapIsNoLimit(rd, f, n + 1, hi, less, hi - n - 1);
    }
  }

  /** Reading a range in two goes, split at a line boundary, reads the same records. */
  lemma {:induction false} SplitAtBoundary(rd: Reader, f: Bytes, pos: nat, mid: nat, hi: nat)
    requires pos <= mid <= hi <= |f| && AtBoundary(f, mid)
    ensures ParseAll(rd, f, pos, hi) == ParseAll(rd, f, pos, mid) + ParseAll(rd, f, mid, hi)
    decreases mid - pos
  {
    if pos < mid {
      var n := FindNewline(f, pos, mid);
      assert n < mid by { assert f[mid - 1] == NEWLINE; }
      SameNewline(f, pos, mid, hi);
      ParseAllStep(rd, f, pos, mid);
      ParseAllStep(rd, f, pos, hi);
      SplitAtBoundary(rd, f, n + 1, mid, hi);
      if !rd.blank(f[pos..n]) {
        ConsAssoc(RecordOf(rd, f, pos, n + 1), ParseAll(rd, f, n + 1, mid), ParseAll(rd, f, mid, hi));
      }
    }
  }

  lemma ConsAssoc<T>(x: T, a: seq<T>, b: seq<T>)
    ensures [x] + (a + b) == ([x] + a) + b
  {
  }

  lemma ReadNeedsRoom(rd: Reader, f: Bytes, pos: nat, hi: nat, cap: nat)
    requires pos <= hi <= |f| && Parse(rd, f, pos, hi, cap) != []
    ensures cap > 0 && FindNewline(f, pos, hi) < hi
  {
  }

  /** Whatever bounded a non-empty batch, it is all of its own range. */
  lemma {:induction false} BatchFillsRange(rd: Reader, f: Bytes, pos: nat, hi: nat, cap: nat, r: seq<PendingEvent>)
    requires pos <= hi <= |f| && r == Parse(rd, f, pos, hi, cap) && r != []
    ensures pos < EndOf(r, pos) <= hi && ParseAll(rd, f, pos, EndOf(r, pos)) == r
    decreases hi - pos
  {
    ReadNeedsRoom(rd, f, pos, hi, cap);
    hide *;
    var n, less := FirstLine(rd, f, pos, hi, cap);
    var rest, e := Parse(rd, f, n + 1, hi, less), EndOf(r, pos);
    FirstEnd(RecordOf(rd, f, pos, n + 1), rest, pos);
    RecordEnds(rd, f, pos, n + 1);
    SameEnd(rest, pos, n + 1);
    NoEnd(n + 1);
    if rest != [] {
      BatchFillsRange(rd, f, n + 1, hi, less, rest);
    }
    SameNewline(f, pos, e, hi);
    ParseAllStep(rd, f, pos, e);
  }

  lemma {:induction false} SameNewline(f: Bytes, pos: nat, lo: nat, hi: nat)
    requires pos <= lo <= hi <= |f|
    ensures FindNewline(f, pos, lo) < lo ==> FindNewline(f, pos, hi) == FindNewline(f, pos, lo)
    ensures FindNewline(f, pos, hi) < lo ==> FindNewline(f, pos, hi) == FindNewline(f, pos, lo)
    decreases lo - pos
  {
    if pos < lo && f[pos] != NEWLINE {
      SameNewline(f, pos + 1, lo, hi);
    }
  }

  /** Appending never changes what was readable before. */
  lemma {:induction false} ParseStable(rd: Reader, f: Bytes, more: Bytes, pos: nat, hi: nat, cap: nat)
    requires pos <= hi <= |f|
    ensures Parse(rd, f + more, pos, hi, cap) == Parse(rd, f, pos, hi, cap)
    decreases hi - pos
  {
    NewlineStable(f, more, pos, hi);
    var n := FindNewline(f, pos, hi);
    assert (f + more)[pos..n] == f[pos..n];
    if cap > 0 && n < hi {
      ParseStable(rd, f, more, n + 1, hi, if rd.blank(f[pos..n]) then cap else cap - 1);
    }
  }

  lemma {:induction false} NewlineStable(f: Bytes, more: Bytes, pos: nat, hi: nat)
    requires pos <= hi <= |f|
    ensures FindNewline(f + more, pos, hi) == FindNewline(f, pos, hi)
    decreases hi - pos
  {
    if pos < hi && f[pos] != NEWLINE {
      NewlineStable(f, more, pos + 1, hi);
    }
  }

  /** Lines the outbox is meant to hold from `pos` on: none blank, none over the line cap. */
  ghost predicate OrdinaryLines(rd: Reader, f: Bytes, pos: nat) {
    forall b: nat, e: nat :: pos <= b && IsLine(f, b, e) ==> !rd.blank(f[b..e - 1]) && e - b <= MAX_LINE_BYTES
  }

  /** The first line is within the byte bound, and what is left of the bound is enough for the others. */
  lemma OrdinaryFirst(rd: Reader, f: Bytes, pos: nat, hi: nat, size: nat)
    requires pos <= hi <= |f| && AtBoundary(f, pos) && OrdinaryLines(rd, f, pos) && size > 0
    requires hi == |f| || hi - pos >= size * MAX_LINE_BYTES
    requires FindNewline(f, pos, |f|) < |f|
    ensures var n := FindNewline(f, pos, |f|);
            && n < hi && !rd.blank(f[pos..n]) && AtBoundary(f, n + 1) && OrdinaryLines(rd, f, n + 1)
            && (hi == |f| || hi - (n + 1) >= (size - 1) * MAX_LINE_BYTES)
  {
    assert IsLine(f, pos, FindNewline(f, pos, |f|) + 1);
  }

  /** The byte bound of a batch never cuts it short when lines are ordinary. */
  lemma {:induction false} WindowHoldsBatch(rd: Reader, f: Bytes, pos: nat, hi: nat, size: nat)
    requires pos <= hi <= |f| && AtBoundary(f, pos) && OrdinaryLines(rd, f, pos)
    requires hi == |f| || hi - pos >= size * MAX_LINE_BYTES
    ensures var all := ParseAll(rd, f, pos, |f|);
            Parse(rd, f, pos, hi, size) == all[..Min(size, |all|)]
    decreases size
  {
    hide FindNewline, ParseAll, RecordOf, AtBoundary, OrdinaryLines;
    var n := FindNewline(f, pos, |f|);
    SameNewline(f, pos, hi, |f|);
    ParseAllStep(rd, f, pos, |f|);
    if size > 0 && n < |f| {
      OrdinaryFirst(rd, f, pos, hi, size);
      var _, less := FirstLine(rd, f, pos, hi, size);
      hide Parse;
      WindowHoldsBatch(rd, f, n + 1, hi, less);
      TakeCons(RecordOf(rd, f, pos, n + 1), ParseAll(rd, f, n + 1, |f|), less);
    }
  }

  lemma TakeCons<T>(x: T, rest: seq<T>, k: nat)
    ensures ([x] + rest)[..Min(k + 1, |rest| + 1)] == [x] + rest[..Min(k, |rest|)]
  {
  }

  /** The batches a drain reads from `pos` while nothing is appended. */
  function Batches(rd: Reader, f: Bytes, pos: nat, size: int): seq<seq<PendingEvent>>
    requires pos <= |f|
    decreases |f| - pos
  {
    var batch := Batch(rd, f, pos, size);
    EndsWithin(rd, f, pos, WindowEnd(pos, Some(size * MAX_LINE_BYTES), |f|), Cap(Some(size), |f|));
    if batch == [] then [] else [batch] + Batches(rd, f, EndOf(batch, pos), size)
  }

  function Batch(rd: Reader, f: Bytes, pos: nat, size: int): seq<PendingEvent>
    requires pos <= |f|
  {
    Parse(rd, f, pos, WindowEnd(pos, Some(size * MAX_LINE_BYTES), |f|), Cap(Some(size), |f|))
  }

  function Concat(batches: seq<seq<PendingEvent>>): seq<PendingEvent> {
    if batches == [] then [] else batches[0] + Concat(batches[1..])
  }

  function CeilDiv(n: nat, d: nat): nat
    requires d > 0
  {
    (n + d - 1) / d
  }

  /** Batched reading is the one-shot parse, in ceil(n / size) batches. */
  lemma {:induction false} BatchesRefineParse(rd: Reader, f: Bytes, pos: nat, size: nat)
    requires AtBoundary(f, pos) && OrdinaryLines(rd, f, pos) && size > 0
    ensures Concat(Batches(rd, f, pos, size)) == ParseAll(rd, f, pos, |f|)
    ensures |Batches(rd, f, pos, size)| == CeilDiv(|ParseAll(rd, f, pos, |f|)|, size)
    decreases |f| - pos
  {
    var all := ParseAll(rd, f, pos, |f|);
    var hi := WindowEnd(pos, Some(size * MAX_LINE_BYTES), |f|);
    var batch := Batch(rd, f, pos, size);
    WindowHoldsBatch(rd, f, pos, hi, size);
    assert batch == all[..Min(size, |all|)];
    if batch != [] {
      EndsAtBoundary(rd, f, pos, hi, size);
      BatchFillsRange(rd, f, pos, hi, size, batch);
      SplitAtBoundary(rd, f, pos, EndOf(batch, pos), |f|);
      BatchesRefineParse(rd, f, EndOf(batch, pos), size);
      var rest := ParseAll(rd, f, EndOf(batch, pos), |f|);
      assert Batches(rd, f, pos, size)[1..] == Batches(rd, f, EndOf(batch, pos), size);
      CeilStep(|all|, |rest|, size);
    }
  }

  lemma CeilStep(n: nat, rest: nat, d: nat)
    requires d > 0 && n > 0 && rest == n - Min(d, n)
    ensures CeilDiv(n, d) == 1 + CeilDiv(rest, d)
  {
    if n <= d {
      QuotientIs(n + d - 1, d, 1);
      QuotientIs(d - 1, d, 0);
    } else {
      var q := (n - 1) / d;
      assert n - 1 == q * d + (n - 1) % d;
      QuotientIs(n + d - 1, d, q + 1);
    }
  }

  lemma QuotientIs(x: nat, d: nat, q: nat)
    requires d > 0 && q * d <= x < q * d + d
    ensures x / d == q
  {
    var k := x / d;
    assert x == k * d + x % d;
    if k < q {
      MulMonotone(k + 1, q, d);
      assert false;
    } else if k > q {
      MulMonotone(q + 1, k, d);
      assert false;
    }
  }

  lemma MulMonotone(a: nat, b: nat, d: nat)
    requires a <= b
    ensures a * d <= b * d
  {
  }

  /** Some complete non-blank line past `pos` ends by `hi`. */
  ghost predicate LineLeft(rd: Reader, f: Bytes, pos: nat, hi: nat) {
    exists b: nat, e: nat :: pos <= b && e <= hi && IsLine(f, b, e) && !rd.blank(f[b..e - 1])
  }

  lemma EmptyExact(rd: Reader, f: Bytes, pos: nat, hi: nat, cap: nat)
    requires pos <= hi <= |f| && AtBoundary(f, pos) && cap > 0
    ensures Parse(rd, f, pos, hi, cap) == [] <==> !LineLeft(rd, f, pos, hi)
  {
    var r := Parse(rd, f, pos, hi, cap);
    if r != [] {
      var b := ParseSound(rd, f, pos, hi, cap, 0);
      assert IsLine(f, b, r[0].endOffset);
    } else if LineLeft(rd, f, pos, hi) {
      var b: nat, e: nat :| pos <= b && e <= hi && IsLine(f, b, e) && !rd.blank(f[b..e - 1]);
      var _ := ParseReaches(rd, f, pos, hi, cap, b, e);
    }
  }

  /** A batch is empty exactly when no complete non-blank line ends inside its byte window. */
  lemma EmptyBatchExact(rd: Reader, f: Bytes, pos: nat, size: nat)
    requires AtBoundary(f, pos) && size > 0
    ensures Batch(rd, f, pos, size) == [] <==> !LineLeft(rd, f, pos, Min(pos + size * MAX_LINE_BYTES, |f|))
  {
    EmptyExact(rd, f, pos, WindowEnd(pos, Some(size * MAX_LINE_BYTES), |f|), size);
  }

  /** With ordinary lines, "empty" means that no complete line is left past the cursor. */
  lemma EmptyMeansDrained(rd: Reader, f: Bytes, pos: nat, size: nat)
    requires AtBoundary(f, pos) && size > 0 && OrdinaryLines(rd, f, pos)
    ensures Batch(rd, f, pos, size) == [] <==> !exists b: nat, e: nat :: pos <= b && IsLine(f, b, e)
  {
    WindowHoldsBatch(rd, f, pos, WindowEnd(pos, Some(size * MAX_LINE_BYTES), |f|), size);
    if pos < |f| {
      EmptyExact(rd, f, pos, |f|, |f| - pos);
    }
  }

  // ---- the persisted cursor ----

  /** Read back after `more` was appended, a cursor is what was written or, exactly when its short head has grown, 0. */
  lemma CursorResetExact(f: Bytes, more: Bytes, offset: nat)
    requires offset <= |f|
    ensures var back := CursorOf(f + more, Stored(offset, Generation(f)));
      && (back == offset || back == 0)
      && (back == offset <==> offset == 0 || |f| >= GENERATION_SAMPLE_BYTES || more == [])
  {
    if f != [] {
      var was, now := Generation(f).value, Generation(f + more).value;
      if |f| >= GENERATION_SAMPLE_BYTES {
        assert was == now;
      } else if more != [] {
        assert |now| > |was|;
      } else {
        assert f + more == f;
      }
    }
  }

  /** One incarnation: `written[i]` is the outbox when cursor i is written, `read[i]` at the last read before the next write. */
  ghost predicate OneIncarnation(written: seq<Bytes>, read: seq<Bytes>, offsets: seq<nat>) {
    && |written| == |read| == |offsets|
    && (forall i :: 0 <= i < |written| ==> offsets[i] <= |written[i]| && written[i] <= read[i])
    && (forall i :: 0 <= i < |written| - 1 ==> read[i] <= written[i + 1])
  }

  function Resets(written: seq<Bytes>, read: seq<Bytes>, offsets: seq<nat>): nat
    requires |written| == |read| == |offsets|
  {
    if written == [] then 0
    else
      var k := |written| - 1;
      Resets(written[..k], read[..k], offsets[..k])
      + if CursorOf(read[k], Stored(offsets[k], Generation(written[k]))) != offsets[k] then 1 else 0
  }

  /** However long an incarnation lives, fewer cursors are lost to a reset than the head sample has bytes. */
  lemma {:induction false} ResetsAreFinite(written: seq<Bytes>, read: seq<Bytes>, offsets: seq<nat>)
    requires OneIncarnation(written, read, offsets)
    ensures Resets(written, read, offsets) < GENERATION_SAMPLE_BYTES
  {
    ResetsBounded(written, read, offsets);
  }

  lemma {:induction false} ResetsBounded(written: seq<Bytes>, read: seq<Bytes>, offsets: seq<nat>)
    requires OneIncarnation(written, read, offsets)
    ensures Resets(written, read, offsets) < GENERATION_SAMPLE_BYTES
    ensures written != [] ==> Resets(written, read, offsets) <= |read[|read| - 1]|
    ensures Resets(written, read, offsets) > 0 ==> Resets(written, read, offsets) < |read[|read| - 1]|
  {
    if written != [] {
      var k := |written| - 1;
      ResetsBounded(written[..k], read[..k], offsets[..k]);
      var more := read[k][|written[k]|..];
      assert written[k] + more == read[k];
      CursorResetExact(written[k], more, offsets[k]);
      if k > 0 {
        assert |read[k - 1]| <= |written[k]| <= |read[k]|;
      }
    }
  }
}

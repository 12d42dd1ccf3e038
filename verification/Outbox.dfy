/**
 The repo-local outbox (outbox/store.py): an append-only byte file of newline-terminated lines, a
 cursor file holding a byte offset and a token of the outbox head, and a dead-letter log.

 An absent outbox and an empty one behave alike in every operation here, so both are `[]`.
 */
module Outbox {
  import opened Basics
  import opened Options

  type Byte = b: int | 0 <= b < 256
  type Bytes = seq<Byte>

  const NEWLINE: Byte := 10
  const MAX_LINE_BYTES: nat := 65536
  const GENERATION_SAMPLE_BYTES: nat := 4096

  datatype Event = Event(eventId: string, body: string)

  /** What the code asks of a raw line: is it blank once stripped, and does it validate as an envelope? */
  datatype Reader = Reader(blank: Bytes -> bool, decode: Bytes -> Option<Event>)

  /** One line handed to the drain; `endOffset` is the byte just after its newline. */
  datatype PendingEvent = PendingEvent(envelope: Option<Event>, raw: Bytes, endOffset: nat)

  datatype Reason = Oversized | Unparseable | Rejected
  datatype DeadLetter = DeadLetter(raw: Bytes, reason: Reason)

  /** The cursor file: absent, not a usable object, or an offset with the head token taken when it was written. */
  datatype CursorFile = Missing | Unreadable | Stored(offset: int, generation: Option<Bytes>)

  datatype Append = Appended | DeadLettered | ValueError

  /** The head token. SHA-256 is taken to be injective, so the token is the sampled head itself. */
  function Generation(outbox: Bytes): Option<Bytes> {
    if outbox == [] then None else Some(outbox[..Min(|outbox|, GENERATION_SAMPLE_BYTES)])
  }

  function CursorOf(outbox: Bytes, cursor: CursorFile): nat {
    match cursor
    case Stored(offset, generation) =>
      if offset < 0 then 0
      else if generation.Some? && Generation(outbox).Some? && generation != Generation(outbox) then 0
      else if offset > |outbox| then 0
      else offset
    case _ => 0
  }

  /** The first newline of `f` in `[pos, hi)`, or `hi` when there is none. */
  function FindNewline(f: Bytes, pos: nat, hi: nat): (n: nat)
    requires pos <= hi <= |f|
    ensures pos <= n <= hi
    ensures n < hi ==> f[n] == NEWLINE
    ensures forall i :: pos <= i < n ==> f[i] != NEWLINE
    decreases hi - pos
  {
    if pos == hi || f[pos] == NEWLINE then pos else FindNewline(f, pos + 1, hi)
  }

  /** The records read from `[pos, hi)`: complete non-blank lines in order, at most `cap` of them. */
  function Parse(rd: Reader, f: Bytes, pos: nat, hi: nat, cap: nat): (r: seq<PendingEvent>)
    requires pos <= hi <= |f|
    decreases hi - pos
  {
    if cap == 0 then []
    else
      var n := FindNewline(f, pos, hi);
      if n == hi then []
      else if rd.blank(f[pos..n]) then Parse(rd, f, n + 1, hi, cap)
      else [PendingEvent(rd.decode(f[pos..n]), f[pos..n], n + 1)] + Parse(rd, f, n + 1, hi, cap - 1)
  }

  /** Every record of `[pos, hi)`: a line takes at least its newline, so `hi - pos` is no limit. */
  function ParseAll(rd: Reader, f: Bytes, pos: nat, hi: nat): seq<PendingEvent>
    requires pos <= hi <= |f|
  {
    Parse(rd, f, pos, hi, hi - pos)
  }

  function Cap(maxEvents: Option<int>, size: nat): nat {
    match maxEvents
    case None => size
    case Some(k) => Max(k, 0)
  }

  /** How far a bounded read from `start` reaches; a negative bound reads to the end. */
  function WindowEnd(start: nat, maxBytes: Option<int>, size: nat): (hi: nat)
    requires start <= size
    ensures start <= hi <= size
  {
    if maxBytes.None? || maxBytes.value < 0 then size else Min(start + maxBytes.value, size)
  }

  class SyncDir {
    var outbox: Bytes
    var cursor: CursorFile
    var dead: seq<DeadLetter>

    constructor (outbox: Bytes, cursor: CursorFile, dead: seq<DeadLetter>)
      ensures this.outbox == outbox && this.cursor == cursor && this.dead == dead
    {
      this.outbox, this.cursor, this.dead := outbox, cursor, dead;
    }

    method AppendLine(line: Bytes) returns (r: Append)
      modifies this
      ensures r == ValueError <==> NEWLINE in line
      ensures r == DeadLettered <==> NEWLINE !in line && |line| + 1 > MAX_LINE_BYTES
      ensures outbox == if r == Appended then old(outbox) + line + [NEWLINE] else old(outbox)
      ensures dead == if r == DeadLettered then old(dead) + [DeadLetter(line, Oversized)] else old(dead)
      ensures cursor == old(cursor)
    {
      if NEWLINE in line {
        return ValueError;
      }
      var data := line + [NEWLINE];
      if |data| > MAX_LINE_BYTES {
        WriteDeadLetter(line, Oversized);
        return DeadLettered;
      }
      outbox := outbox + data;
      return Appended;
    }

    method WriteDeadLetter(raw: Bytes, reason: Reason)
      modifies this`dead
      ensures dead == old(dead) + [DeadLetter(raw, reason)]
    {
      dead := dead + [DeadLetter(raw, reason)];
    }

    method ReadCursor() returns (offset: nat)
      ensures offset == CursorOf(outbox, cursor)
      ensures offset <= |outbox|
    {
      if !cursor.Stored? {
        return 0;
      }
      if cursor.offset < 0 {
        return 0;
      }
      var current := Generation(outbox);
      if cursor.generation.Some? && current.Some? && cursor.generation != current {
        return 0;
      }
      if cursor.offset > |outbox| {
        return 0;
      }
      return cursor.offset;
    }

    method WriteCursor(offset: int) returns (ok: bool)
      modifies this`cursor
      ensures ok <==> offset >= 0
      ensures cursor == if ok then Stored(offset, Generation(outbox)) else old(cursor)
    {
      if offset < 0 {
        return false;
      }
      cursor := Stored(offset, Generation(outbox));
      return true;
    }

    /** The bounded read of complete lines from an explicit or the persisted cursor. */
    method ReadPending(rd: Reader, from: Option<int>, maxEvents: Option<int>, maxBytes: Option<int>)
        returns (records: seq<PendingEvent>)
      ensures var start := Min(Max(if from.None? then CursorOf(outbox, cursor) else from.value, 0), |outbox|);
              records == Parse(rd, outbox, start, WindowEnd(start, maxBytes, |outbox|), Cap(maxEvents, |outbox|))
    {
      var start: int := 0;
      if from.None? {
        start := ReadCursor();
      } else {
        start := from.value;
      }
      if start < 0 {
        start := 0;
      }
      if start > |outbox| {
        start := |outbox|;
      }
      records := ScanLines(rd, outbox, start, WindowEnd(start, maxBytes, |outbox|), maxEvents);
    }
  }

  /** The read loop; `pos` is kept as an offset into the whole file instead of into the chunk read. */
  method ScanLines(rd: Reader, f: Bytes, start: nat, hi: nat, maxEvents: Option<int>)
      returns (records: seq<PendingEvent>)
    requires start <= hi <= |f|
    ensures records == Parse(rd, f, start, hi, Cap(maxEvents, |f|))
  {
    hide Parse, FindNewline;
    records := [];
    var pos := start;
    ghost var cap := Cap(maxEvents, |f|);
    while true
      invariant start <= pos <= hi && |records| <= cap
      invariant maxEvents.None? ==> |records| <= pos
      invariant records == [] ==> Parse(rd, f, pos, hi, cap) == Parse(rd, f, start, hi, cap)
      invariant records != [] ==> records + Parse(rd, f, pos, hi, cap - |records|) == Parse(rd, f, start, hi, cap)
      decreases hi - pos
    {
      ParseStep(rd, f, pos, hi, cap - |records|);
      NothingAdded(records);
      if maxEvents.Some? && |records| >= maxEvents.value {
        break;
      }
      var newline := FindNewline(f, pos, hi);
      if newline == hi {
        break;
      }
      var raw := f[pos..newline];
      pos := newline + 1;
      if rd.blank(raw) {
        continue;
      }
      var record := PendingEvent(rd.decode(raw), raw, newline + 1);
      Assoc(records, record, Parse(rd, f, pos, hi, cap - |records| - 1));
      records := records + [record];
    }
  }

  lemma ParseStep(rd: Reader, f: Bytes, pos: nat, hi: nat, cap: nat)
    requires pos <= hi <= |f|
    ensures var n := FindNewline(f, pos, hi);
            Parse(rd, f, pos, hi, cap) ==
              if cap == 0 || n == hi then []
              else if rd.blank(f[pos..n]) then Parse(rd, f, n + 1, hi, cap)
              else [PendingEvent(rd.decode(f[pos..n]), f[pos..n], n + 1)] + Parse(rd, f, n + 1, hi, cap - 1)
  {
    hide FindNewline;
  }

  lemma Assoc<T>(a: seq<T>, x: T, b: seq<T>)
    ensures (a + [x]) + b == a + ([x] + b)
  {
  }
}

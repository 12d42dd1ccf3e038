/**
 Packing segments into overlapping chunks and conversations into message chunks (memory_core/chunking.py).
 */
module Chunking {
  import opened Options
  import opened Tokeniser
  import opened Segments

  /** A chunk spans the segments `start <= i < end`. */
  datatype Window = Window(start: nat, end: nat)

  /** Estimated tokens of the segments from `i` up to `j`. */
  function Span(segs: seq<Text>, i: nat, j: nat): nat
    requires i <= j <= |segs|
  {
    SumTokens(segs[i..j])
  }

  lemma {:induction false} SumConcat(a: seq<Text>, b: seq<Text>)
    ensures SumTokens(a + b) == SumTokens(a) + SumTokens(b)
  {
    if b == [] {
      assert a + b == a;
    } else {
      assert (a + b)[..|a + b| - 1] == a + b[..|b| - 1];
      SumConcat(a, b[..|b| - 1]);
    }
  }

  lemma SpanSplits(segs: seq<Text>, i: nat, k: nat, j: nat)
    requires i <= k <= j <= |segs|
    ensures Span(segs, i, j) == Span(segs, i, k) + Span(segs, k, j)
  {
    assert segs[i..j] == segs[i..k] + segs[k..j];
    SumConcat(segs[i..k], segs[k..j]);
  }

  lemma SpanOfNone(segs: seq<Text>, i: nat)
    requires i <= |segs|
    ensures Span(segs, i, i) == 0
  {
    assert segs[i..i] == [] && SumTokens([]) == 0;
  }

  lemma SpanOfOne(segs: seq<Text>, i: nat)
    requires i < |segs|
    ensures Span(segs, i, i + 1) == EstimateTokens(segs[i])
  {
    assert segs[i..i + 1] == [segs[i]] && [segs[i]][..0] == [];
    assert SumTokens([]) == 0;
  }

  lemma {:induction false} SpanPositive(segs: seq<Text>, i: nat, j: nat, target: nat)
    requires i < j <= |segs| && WithinBudget(segs, target)
    ensures Span(segs, i, j) > 0
  {
    SpanSplits(segs, i, i + 1, j);
    SpanOfOne(segs, i);
    assert segs[i] in segs;
  }

  // ---- which overlap is carried over ----

  /** The segments from `p` up to and including `end` fit one chunk. */
  predicate Fits(segs: seq<Text>, target: nat, p: nat, end: nat)
    requires p <= end < |segs|
  {
    Span(segs, p, end + 1) <= target
  }

  /** From `p` on, the window's tail fits the overlap budget and still leaves room for the next segment. */
  predicate Carries(segs: seq<Text>, target: nat, overlap: int, p: nat, end: nat)
    requires p <= end < |segs|
  {
    Span(segs, p, end) <= overlap && Fits(segs, target, p, end)
  }

  function LeastCarry(segs: seq<Text>, target: nat, overlap: int, p: nat, end: nat): (q: nat)
    requires p <= end < |segs|
    ensures p <= q <= end
    decreases end - p
  {
    if p == end || Carries(segs, target, overlap, p, end) then p else LeastCarry(segs, target, overlap, p + 1, end)
  }

  /** Where the next chunk starts: the longest carried tail; none when the overlap budget takes in the whole window. */
  function NextStart(segs: seq<Text>, target: nat, overlap: int, w: Window): (q: nat)
    requires w.start < w.end < |segs|
    ensures w.start <= q <= w.end
  {
    if Span(segs, w.start, w.end) <= overlap then w.end
    else LeastCarry(segs, target, overlap, w.start, w.end)
  }

  lemma {:induction false} LeastCarryIs(segs: seq<Text>, target: nat, overlap: int, p: nat, end: nat, q: nat)
    requires p <= q <= end < |segs| && (q < end ==> Carries(segs, target, overlap, q, end))
    requires forall k :: p <= k < q ==> !Carries(segs, target, overlap, k, end)
    ensures LeastCarry(segs, target, overlap, p, end) == q
    decreases end - p
  {
    if p < q {
      LeastCarryIs(segs, target, overlap, p + 1, end, q);
    }
  }

  /** The backward walk of a flush: the longest tail within the overlap budget, unless that is the whole window. */
  method OverlapSeed(segs: seq<Text>, w: Window, overlap: int, ghost target: nat) returns (p: nat)
    requires w.start < w.end <= |segs| && WithinBudget(segs, target)
    ensures w.start < p <= w.end
    ensures Span(segs, w.start, w.end) <= overlap ==> p == w.end
    ensures Span(segs, w.start, w.end) > overlap ==>
              (p < w.end ==> Span(segs, p, w.end) <= overlap) && forall k :: w.start <= k < p ==> Span(segs, k, w.end) > overlap
  {
    hide WithinBudget, SumTokens, EstimateTokens;
    if overlap <= 0 {
      SpanPositive(segs, w.start, w.end, target);
      forall k | w.start <= k < w.end ensures Span(segs, k, w.end) > overlap { SpanPositive(segs, k, w.end, target); }
      return w.end;
    }
    var start := w.end;
    var seedTokens := 0;
    SpanOfNone(segs, start);
    while start > w.start
      invariant w.start <= start <= w.end
      invariant seedTokens == Span(segs, start, w.end) <= overlap
    {
      var segTokens := EstimateTokens(segs[start - 1]);
      SpanSplits(segs, start - 1, start, w.end);
      SpanOfOne(segs, start - 1);
      if seedTokens + segTokens > overlap {
        break;
      }
      start := start - 1;
      seedTokens := seedTokens + segTokens;
      if seedTokens >= overlap {
        break;
      }
    }
    if start == w.start {
      return w.end;
    }
    p := start;
    SpanSplits(segs, p - 1, p, w.end);
    SpanPositive(segs, p - 1, p, target);
    assert Span(segs, p - 1, w.end) > overlap;
    forall k | w.start <= k < p ensures Span(segs, k, w.end) > overlap {
      SpanSplits(segs, k, p - 1, w.end);
    }
  }

  /** Drop leading carried segments until the incoming one fits. */
  method TrimSeed(segs: seq<Text>, from: nat, end: nat, target: nat) returns (p: nat)
    requires from <= end < |segs|
    ensures from <= p <= end
    ensures p < end ==> Fits(segs, target, p, end)
    ensures forall k :: from <= k < p ==> !Fits(segs, target, k, end)
  {
    p := from;
    while p < end && Span(segs, p, end) + EstimateTokens(segs[end]) > target
      invariant from <= p <= end
      invariant forall k :: from <= k < p ==> !Fits(segs, target, k, end)
    {
      SpanSplits(segs, p, end, end + 1);
      SpanOfOne(segs, end);
      p := p + 1;
    }
    if p < end {
      SpanSplits(segs, p, end, end + 1);
      SpanOfOne(segs, end);
    }
  }

  // ---- packings ----

  /** A window holds what fits and closes only when the next segment would not. */
  ghost predicate Greedy(segs: seq<Text>, target: nat, w: Window) {
    && w.start < w.end <= |segs|
    && Span(segs, w.start, w.end) <= target
    && (w.end < |segs| ==> Span(segs, w.start, w.end + 1) > target)
  }

  ghost predicate Chained(segs: seq<Text>, target: nat, overlap: int, windows: seq<Window>) {
    && (forall k :: 0 <= k < |windows| ==> Greedy(segs, target, windows[k]))
    && (forall k :: 0 <= k < |windows| - 1 ==> windows[k].end < |segs|)
    && (windows != [] ==> windows[0].start == 0)
    && forall k :: 0 <= k < |windows| - 1 ==> windows[k + 1].start == NextStart(segs, target, overlap, windows[k])
  }

  /** The windows of a packed text; they are determined by the segments, the budget and the overlap. */
  ghost predicate IsPacking(segs: seq<Text>, target: nat, overlap: int, windows: seq<Window>) {
    && Chained(segs, target, overlap, windows)
    && (windows == [] <==> segs == [])
    && (windows != [] ==> windows[|windows| - 1].end == |segs|)
  }

  function Render(segs: seq<Text>, w: Window): Text
    requires w.start <= w.end <= |segs|
  {
    Join(segs[w.start..w.end], BLANK)
  }

  ghost predicate Renders(segs: seq<Text>, windows: seq<Window>, chunks: seq<Text>) {
    && |chunks| == |windows|
    && forall k :: 0 <= k < |chunks| ==> windows[k].start <= windows[k].end <= |segs| && chunks[k] == Render(segs, windows[k])
  }

  ghost function StartAfter(segs: seq<Text>, target: nat, overlap: int, windows: seq<Window>): nat
    requires forall k :: 0 <= k < |windows| ==> windows[k].start < windows[k].end < |segs|
  {
    if windows == [] then 0 else NextStart(segs, target, overlap, windows[|windows| - 1])
  }

  /** The windows emitted so far, with the next one to start at `start`. */
  ghost predicate Open(segs: seq<Text>, target: nat, overlap: int, windows: seq<Window>, chunks: seq<Text>, start: nat) {
    && Chained(segs, target, overlap, windows) && Renders(segs, windows, chunks)
    && (forall k :: 0 <= k < |windows| ==> windows[k].start < windows[k].end < |segs|)
    && start == StartAfter(segs, target, overlap, windows)
  }

  /** The packing loop; `current` is kept as the range `start .. i` of segments. */
  method Pack(segs: seq<Text>, target: nat, overlap: int) returns (chunks: seq<Text>, ghost windows: seq<Window>)
    requires WithinBudget(segs, target)
    ensures IsPacking(segs, target, overlap, windows) && Renders(segs, windows, chunks)
    ensures chunks == [] <==> segs == []
  {
    hide *;
    chunks, windows := [], [];
    var start: nat, currentTokens := 0, 0;
    PackBegins(segs, target, overlap);
    if segs == [] {
      return;
    }
    for i := 0 to |segs|
      invariant start <= i && (i > 0 ==> start < i) && currentTokens == Span(segs, start, i) <= target
      invariant Open(segs, target, overlap, windows, chunks, start)
    {
      WithinBudgetAt(segs, target, i);
      var segTokens := EstimateTokens(segs[i]);
      SpanOfOne(segs, i);
      SpanSplits(segs, start, i, i + 1);
      if start < i && currentTokens + segTokens > target {
        IsGreedy(segs, target, start, i);
        chunks, windows, start := CloseWindow(segs, target, overlap, windows, chunks, Window(start, i));
        currentTokens := Span(segs, start, i);
        SpanSplits(segs, start, i, i + 1);
      }
      currentTokens := currentTokens + segTokens;
    }
    var w := Window(start, |segs|);
    IsGreedy(segs, target, start, |segs|);
    OpenCloses(segs, target, overlap, windows, chunks, w);
    chunks, windows := chunks + [Render(segs, w)], windows + [w];
  }

  lemma PackBegins(segs: seq<Text>, target: nat, overlap: int)
    ensures Open(segs, target, overlap, [], [], 0) && Span(segs, 0, 0) == 0
    ensures segs == [] ==> IsPacking(segs, target, overlap, []) && Renders(segs, [], [])
  {
    assert segs[0..0] == [] && SumTokens([]) == 0;
  }

  lemma IsGreedy(segs: seq<Text>, target: nat, start: nat, end: nat)
    requires start < end <= |segs| && Span(segs, start, end) <= target
    requires end < |segs| ==> Span(segs, start, end + 1) > target
    ensures Greedy(segs, target, Window(start, end))
  {
  }

  lemma WithinBudgetAt(segs: seq<Text>, target: nat, i: nat)
    requires WithinBudget(segs, target) && i < |segs|
    ensures 0 < EstimateTokens(segs[i]) <= target
  {
    assert segs[i] in segs;
  }

  /** Flush the window and seed the next one. */
  method CloseWindow(segs: seq<Text>, target: nat, overlap: int, ghost windows: seq<Window>, chunks: seq<Text>, w: Window)
      returns (chunks': seq<Text>, ghost windows': seq<Window>, next: nat)
    requires Open(segs, target, overlap, windows, chunks, w.start) && Greedy(segs, target, w) && w.end < |segs|
    requires WithinBudget(segs, target)
    ensures Open(segs, target, overlap, windows', chunks', next)
    ensures next <= w.end && Span(segs, next, w.end + 1) <= target
  {
    hide Open, Render, NextStart, Span, WithinBudget;
    next := NextWindow(segs, target, overlap, w);
    OpenExtends(segs, target, overlap, windows, chunks, w, next);
    chunks', windows' := chunks + [Render(segs, w)], windows + [w];
  }

  lemma OpenExtends(
      segs: seq<Text>, target: nat, overlap: int, windows: seq<Window>, chunks: seq<Text>, w: Window, next: nat)
    requires Open(segs, target, overlap, windows, chunks, w.start) && Greedy(segs, target, w) && w.end < |segs|
    requires next == NextStart(segs, target, overlap, w)
    ensures Open(segs, target, overlap, windows + [w], chunks + [Render(segs, w)], next)
  {
    hide SumTokens, NextStart, Render;
  }

  lemma OpenCloses(segs: seq<Text>, target: nat, overlap: int, windows: seq<Window>, chunks: seq<Text>, w: Window)
    requires Open(segs, target, overlap, windows, chunks, w.start) && Greedy(segs, target, w) && w.end == |segs|
    ensures IsPacking(segs, target, overlap, windows + [w]) && Renders(segs, windows + [w], chunks + [Render(segs, w)])
  {
    hide SumTokens, NextStart, Render;
  }

  method NextWindow(segs: seq<Text>, target: nat, overlap: int, w: Window) returns (start: nat)
    requires w.start < w.end < |segs| && WithinBudget(segs, target)
    ensures start == NextStart(segs, target, overlap, w) && Span(segs, start, w.end + 1) <= target
  {
    var seed := OverlapSeed(segs, w, overlap, target);
    start := TrimSeed(segs, seed, w.end, target);
    if Span(segs, w.start, w.end) > overlap {
      forall k | w.start <= k < start ensures !Carries(segs, target, overlap, k, w.end) {
        if k < seed {
          assert Span(segs, k, w.end) > overlap;
        } else {
          assert !Fits(segs, target, k, w.end);
        }
      }
      if start < w.end {
        SpanSplits(segs, seed, start, w.end);
      }
      LeastCarryIs(segs, target, overlap, w.start, w.end, start);
    }
    if start == w.end {
      SpanOfOne(segs, w.end);
      assert segs[w.end] in segs;
    }
  }

  // ---- what a packing promises ----

  /** The next start moves on, leaves no gap, carries at most the overlap budget, and makes room for the next segment. */
  lemma NextStartMoves(segs: seq<Text>, target: nat, overlap: int, w: Window)
    requires w.start < w.end < |segs| && WithinBudget(segs, target)
    ensures var q := NextStart(segs, target, overlap, w);
            && w.start < q <= w.end
            && Span(segs, q, w.end) <= (if overlap < 0 then 0 else overlap)
            && Span(segs, q, w.end + 1) <= target
  {
    var q := NextStart(segs, target, overlap, w);
    assert segs[w.end..w.end] == [] && SumTokens([]) == 0;
    SpanOfOne(segs, w.end);
    assert segs[w.end] in segs;
    if Span(segs, w.start, w.end) > overlap {
      LeastCarryMeans(segs, target, overlap, w.start, w.end);
    }
  }

  /**
   `q` begins the longest proper tail of the window that the overlap budget allows and that leaves room for the next
   segment. Where the budget would take in the whole window, nothing is carried.
   */
  ghost predicate IsCarried(segs: seq<Text>, target: nat, overlap: int, w: Window, q: nat)
    requires w.start < w.end < |segs|
  {
    && w.start < q <= w.end
    && if Span(segs, w.start, w.end) <= overlap then q == w.end
       else
         && (q < w.end ==> Span(segs, q, w.end) <= overlap && Span(segs, q, w.end + 1) <= target)
         && forall j :: w.start < j < q ==> Span(segs, j, w.end) > overlap || Span(segs, j, w.end + 1) > target
  }

  /** The next start, without its search. */
  lemma NextStartIs(segs: seq<Text>, target: nat, overlap: int, w: Window, q: nat)
    requires w.start < w.end < |segs| && WithinBudget(segs, target)
    ensures q == NextStart(segs, target, overlap, w) <==> IsCarried(segs, target, overlap, w, q)
  {
    hide SumTokens, WithinBudget;
    NextStartMoves(segs, target, overlap, w);
    if Span(segs, w.start, w.end) > overlap {
      LeastCarryMeans(segs, target, overlap, w.start, w.end);
      LeastIsFirst(segs, target, overlap, w.start, w.end);
      var least := NextStart(segs, target, overlap, w);
      forall j | w.start < j < least ensures Span(segs, j, w.end) > overlap || Span(segs, j, w.end + 1) > target {
        assert !Carries(segs, target, overlap, j, w.end);
      }
      if IsCarried(segs, target, overlap, w, q) {
        forall k | w.start <= k < q ensures !Carries(segs, target, overlap, k, w.end) {
        }
        LeastCarryIs(segs, target, overlap, w.start, w.end, q);
      }
    }
  }

  lemma {:induction false} LeastIsFirst(segs: seq<Text>, target: nat, overlap: int, p: nat, end: nat)
    requires p <= end < |segs|
    ensures forall j :: p <= j < LeastCarry(segs, target, overlap, p, end) ==> !Carries(segs, target, overlap, j, end)
    decreases end - p
  {
    hide Carries;
    if p < end && !Carries(segs, target, overlap, p, end) {
      LeastIsFirst(segs, target, overlap, p + 1, end);
    }
  }

  /** Between consecutive windows of a packing exactly the longest allowed tail is repeated. */
  lemma OverlapIsLongest(segs: seq<Text>, target: nat, overlap: int, windows: seq<Window>, k: nat)
    requires IsPacking(segs, target, overlap, windows) && WithinBudget(segs, target) && k + 1 < |windows|
    ensures windows[k].start < windows[k].end < |segs| && IsCarried(segs, target, overlap, windows[k], windows[k + 1].start)
  {
    hide NextStart, WithinBudget, SumTokens, IsCarried;
    assert Greedy(segs, target, windows[k]);
    NextStartIs(segs, target, overlap, windows[k], windows[k + 1].start);
  }

  lemma {:induction false} LeastCarryMeans(segs: seq<Text>, target: nat, overlap: int, p: nat, end: nat)
    requires p <= end < |segs|
    ensures var q := LeastCarry(segs, target, overlap, p, end); q == end || Carries(segs, target, overlap, q, end)
    decreases end - p
  {
    if p < end && !Carries(segs, target, overlap, p, end) {
      LeastCarryMeans(segs, target, overlap, p + 1, end);
    }
  }

  /** Consecutive windows: both ends move on, no gap, and the overlap is a bounded proper tail of the earlier one. */
  lemma WindowsAdvance(segs: seq<Text>, target: nat, overlap: int, windows: seq<Window>, k: nat)
    requires IsPacking(segs, target, overlap, windows) && WithinBudget(segs, target) && k + 1 < |windows|
    ensures windows[k].start < windows[k + 1].start <= windows[k].end < windows[k + 1].end
    ensures Span(segs, windows[k + 1].start, windows[k].end) <= (if overlap < 0 then 0 else overlap)
  {
    hide WithinBudget, SumTokens, NextStart;
    var w, v := windows[k], windows[k + 1];
    assert Greedy(segs, target, v) && Greedy(segs, target, w);
    NextStartMoves(segs, target, overlap, w);
    if v.end <= w.end {
      SpanSplits(segs, v.start, v.end + 1, w.end + 1);
    }
  }

  /** Every segment is in some window. */
  lemma {:induction false} WindowsCover(segs: seq<Text>, target: nat, overlap: int, windows: seq<Window>, i: nat, k: nat) returns (j: nat)
    requires IsPacking(segs, target, overlap, windows) && WithinBudget(segs, target)
    requires i < |segs| && k < |windows| && windows[k].start <= i
    ensures k <= j < |windows| && windows[j].start <= i < windows[j].end
    decreases |windows| - k
  {
    if i < windows[k].end {
      j := k;
    } else {
      assert k + 1 < |windows|;
      WindowsAdvance(segs, target, overlap, windows, k);
      j := WindowsCover(segs, target, overlap, windows, i, k + 1);
    }
  }

  /** Every chunk, re-estimated, fits the budget. */
  lemma ChunkWithinBudget(segs: seq<Text>, target: nat, overlap: int, windows: seq<Window>, chunks: seq<Text>, k: nat)
    requires IsPacking(segs, target, overlap, windows) && Renders(segs, windows, chunks) && k < |chunks|
    ensures EstimateTokens(chunks[k]) == Span(segs, windows[k].start, windows[k].end) <= target
  {
    JoinEstimate(segs[windows[k].start..windows[k].end], BLANK);
    assert Greedy(segs, target, windows[k]);
  }

  // ---- prose ----

  /** `int(x)`: towards zero. */
  function Truncate(x: real): (t: int)
    ensures if 0.0 <= x then 0 <= t && t as real <= x < (t + 1) as real else t <= 0 && (t - 1) as real < x <= t as real
  {
    if x < 0.0 then -((-x).Floor) else x.Floor
  }

  /** The end of the greedy window from `start`, which takes in at least the segments before `end`. */
  function GreedyEnd(segs: seq<Text>, target: nat, start: nat, end: nat): (e: nat)
    requires start <= end <= |segs|
    ensures end <= e <= |segs|
    decreases |segs| - end
  {
    if end < |segs| && Span(segs, start, end + 1) <= target then GreedyEnd(segs, target, start, end + 1) else end
  }

  /** The windows from `start` on, one after the other. */
  function WindowsFrom(segs: seq<Text>, target: nat, overlap: int, start: nat): seq<Window>
    requires WithinBudget(segs, target) && start < |segs|
    decreases |segs| - start
  {
    var w := Window(start, GreedyEnd(segs, target, start, start + 1));
    if w.end == |segs| then [w]
    else
      NextStartMoves(segs, target, overlap, w);
      [w] + WindowsFrom(segs, target, overlap, NextStart(segs, target, overlap, w))
  }

  function Windows(segs: seq<Text>, target: nat, overlap: int): seq<Window>
    requires WithinBudget(segs, target)
  {
    if segs == [] then [] else WindowsFrom(segs, target, overlap, 0)
  }

  /** A packing seen from its first window on. */
  ghost predicate PacksFrom(segs: seq<Text>, target: nat, overlap: int, windows: seq<Window>, start: nat) {
    && windows != [] && windows[0].start == start && windows[|windows| - 1].end == |segs|
    && (forall k :: 0 <= k < |windows| ==> Greedy(segs, target, windows[k]))
    && (forall k :: 0 <= k < |windows| - 1 ==> windows[k].end < |segs|)
    && forall k :: 0 <= k < |windows| - 1 ==> windows[k + 1].start == NextStart(segs, target, overlap, windows[k])
  }

  lemma {:induction false} GreedyEndIs(segs: seq<Text>, target: nat, start: nat, from: nat, end: nat)
    requires start < from <= end <= |segs| && Greedy(segs, target, Window(start, end))
    ensures GreedyEnd(segs, target, start, from) == end
    decreases end - from
  {
    if from < end {
      SpanSplits(segs, start, from + 1, end);
      hide Span;
      GreedyEndIs(segs, target, start, from + 1, end);
    }
  }

  lemma {:induction false} GreedyEndFits(segs: seq<Text>, target: nat, start: nat, end: nat)
    requires start < end <= |segs| && Span(segs, start, end) <= target
    ensures Greedy(segs, target, Window(start, GreedyEnd(segs, target, start, end)))
    decreases |segs| - end
  {
    if end < |segs| && Span(segs, start, end + 1) <= target {
      GreedyEndFits(segs, target, start, end + 1);
    }
  }

  lemma {:induction false} WindowsFromPack(segs: seq<Text>, target: nat, overlap: int, start: nat)
    requires WithinBudget(segs, target) && start < |segs|
    ensures PacksFrom(segs, target, overlap, WindowsFrom(segs, target, overlap, start), start)
    decreases |segs| - start
  {
    SpanOfOne(segs, start);
    WithinBudgetAt(segs, target, start);
    GreedyEndFits(segs, target, start, start + 1);
    var w := Window(start, GreedyEnd(segs, target, start, start + 1));
    hide Span, NextStart, GreedyEnd, Greedy, WithinBudget;
    if w.end < |segs| {
      NextStartMoves(segs, target, overlap, w);
      var next := NextStart(segs, target, overlap, w);
      WindowsFromPack(segs, target, overlap, next);
      OneWindowMore(segs, target, overlap, w, WindowsFrom(segs, target, overlap, next), next);
    }
  }

  lemma OneWindowMore(segs: seq<Text>, target: nat, overlap: int, w: Window, rest: seq<Window>, next: nat)
    requires Greedy(segs, target, w) && w.end < |segs| && next == NextStart(segs, target, overlap, w)
    requires PacksFrom(segs, target, overlap, rest, next)
    ensures PacksFrom(segs, target, overlap, [w] + rest, w.start)
  {
    hide Greedy, NextStart;
    var windows := [w] + rest;
    forall k | 0 <= k < |windows| - 1 ensures windows[k].end < |segs| {
      assert k > 0 ==> windows[k] == rest[k - 1];
    }
    forall k | 0 <= k < |windows| ensures Greedy(segs, target, windows[k]) {
      assert k > 0 ==> windows[k] == rest[k - 1];
    }
    forall k | 0 <= k < |windows| - 1 ensures windows[k].start < windows[k].end < |segs|
                                              && windows[k + 1].start == NextStart(segs, target, overlap, windows[k])
    {
      GreedyInRange(segs, target, windows[k]);
      assert windows[k + 1] == rest[k] && (k > 0 ==> windows[k] == rest[k - 1]);
    }
  }

  lemma GreedyInRange(segs: seq<Text>, target: nat, w: Window)
    requires Greedy(segs, target, w)
    ensures w.start < w.end <= |segs|
  {
  }

  /** The windows of a packing are determined: there is one packing, and it is the computed one. */
  lemma WindowsPack(segs: seq<Text>, target: nat, overlap: int)
    requires WithinBudget(segs, target)
    ensures IsPacking(segs, target, overlap, Windows(segs, target, overlap))
  {
    if segs != [] {
      WindowsFromPack(segs, target, overlap, 0);
    }
  }

  lemma {:induction false} PackingIsWindows(segs: seq<Text>, target: nat, overlap: int, windows: seq<Window>, k: nat)
    requires WithinBudget(segs, target) && IsPacking(segs, target, overlap, windows) && k < |windows|
    ensures windows[k].start < |segs| && windows[k..] == WindowsFrom(segs, target, overlap, windows[k].start)
    decreases |windows| - k
  {
    hide Greedy, Span, NextStart, WithinBudget, GreedyEnd;
    var w := windows[k];
    assert Greedy(segs, target, w);
    GreedyInRange(segs, target, w);
    GreedyEndIs(segs, target, w.start, w.start + 1, w.end);
    if k + 1 < |windows| {
      PackingIsWindows(segs, target, overlap, windows, k + 1);
      assert windows[k..] == [w] + windows[k + 1..];
    } else {
      assert windows[k..] == [w];
    }
  }

  function RenderAll(segs: seq<Text>, windows: seq<Window>): seq<Text>
    requires forall k :: 0 <= k < |windows| ==> windows[k].start <= windows[k].end <= |segs|
  {
    seq(|windows|, k requires 0 <= k < |windows| => Render(segs, windows[k]))
  }

  /** What `chunk_prose` makes of a text, as a function of the text, the target and the overlap. */
  function ProseChunks(text: Text, target: nat, overlap: int): seq<Text>
    requires target > 0
  {
    SegmentationSplits(Strip(text), target);
    var segs := SegmentsOf(Strip(text), target);
    WindowsPack(segs, target, overlap);
    WindowsInRange(segs, target, overlap, Windows(segs, target, overlap));
    RenderAll(segs, Windows(segs, target, overlap))
  }

  lemma WindowsInRange(segs: seq<Text>, target: nat, overlap: int, windows: seq<Window>)
    requires IsPacking(segs, target, overlap, windows)
    ensures forall k :: 0 <= k < |windows| ==> windows[k].start < windows[k].end <= |segs|
  {
    forall k | 0 <= k < |windows| ensures windows[k].start < windows[k].end <= |segs| {
      assert Greedy(segs, target, windows[k]);
    }
  }

  /** The chunks of a text are the rendered windows of the packing of its segments. */
  lemma ProseIsPacked(text: Text, target: nat, overlap: int)
    requires target > 0
    ensures var segs := SegmentsOf(Strip(text), target);
            && WithinBudget(segs, target) && Squeeze(Concat(segs)) == Squeeze(text)
            && IsPacking(segs, target, overlap, Windows(segs, target, overlap))
            && Renders(segs, Windows(segs, target, overlap), ProseChunks(text, target, overlap))
  {
    var segs := SegmentsOf(Strip(text), target);
    SegmentationSplits(Strip(text), target);
    StripKeeps(text);
    WindowsPack(segs, target, overlap);
    WindowsInRange(segs, target, overlap, Windows(segs, target, overlap));
    hide SegmentsOf, Strip, Windows, IsPacking, Squeeze, Concat, Render, WithinBudget;
  }

  /**
   The chunks of a text, said outright: each is a run of segments that fits the target and would not with the next one,
   the first starts at the first segment and the last ends at the last, and each next one starts with the longest tail
   of the one before that the overlap budget allows.
   */
  lemma ProseOverlaps(text: Text, target: nat, overlap: int) returns (segs: seq<Text>, windows: seq<Window>)
    requires target > 0
    ensures segs == SegmentsOf(Strip(text), target) && Renders(segs, windows, ProseChunks(text, target, overlap))
    ensures (windows == [] <==> segs == []) && (windows != [] ==> windows[0].start == 0 && windows[|windows| - 1].end == |segs|)
    ensures forall k :: 0 <= k < |windows| ==> Greedy(segs, target, windows[k])
    ensures forall k :: 0 <= k < |windows| - 1 ==>
      windows[k].start < windows[k].end < |segs| && IsCarried(segs, target, overlap, windows[k], windows[k + 1].start)
  {
    segs := SegmentsOf(Strip(text), target);
    ProseIsPacked(text, target, overlap);
    windows := Windows(segs, target, overlap);
    hide Windows, SegmentsOf, Strip, IsCarried, NextStart, Greedy, WithinBudget, Renders, ProseChunks;
    forall k | 0 <= k < |windows| - 1
      ensures windows[k].start < windows[k].end < |segs| && IsCarried(segs, target, overlap, windows[k], windows[k + 1].start)
    {
      OverlapIsLongest(segs, target, overlap, windows, k);
    }
  }

  lemma ProseWithinBudget(text: Text, target: nat, overlap: int)
    requires target > 0
    ensures forall c :: c in ProseChunks(text, target, overlap) ==> EstimateTokens(c) <= target
  {
    var segs := SegmentsOf(Strip(text), target);
    var chunks := ProseChunks(text, target, overlap);
    ProseIsPacked(text, target, overlap);
    hide ProseChunks, SegmentsOf, Strip, Windows, IsPacking, Squeeze, Concat, Renders, EstimateTokens;
    RendersCount(segs, Windows(segs, target, overlap), chunks);
    forall c | c in chunks ensures EstimateTokens(c) <= target {
      var k :| 0 <= k < |chunks| && chunks[k] == c;
      ChunkWithinBudget(segs, target, overlap, Windows(segs, target, overlap), chunks, k);
    }
  }

  lemma RendersCount(segs: seq<Text>, windows: seq<Window>, chunks: seq<Text>)
    requires Renders(segs, windows, chunks)
    ensures |chunks| == |windows|
  {
  }

  /** A packed text renders to its chunks, whichever way its windows were found. */
  lemma PackedIsProse(text: Text, target: nat, overlap: int, windows: seq<Window>, chunks: seq<Text>)
    requires target > 0
    requires var segs := SegmentsOf(Strip(text), target); IsPacking(segs, target, overlap, windows) && Renders(segs, windows, chunks)
    ensures chunks == ProseChunks(text, target, overlap)
  {
    var segs := SegmentsOf(Strip(text), target);
    ProseIsPacked(text, target, overlap);
    hide ProseChunks, SegmentsOf, Strip, Squeeze, Concat, Render, WithinBudget, Chained, WindowsFrom;
    if windows != [] {
      PackingIsWindows(segs, target, overlap, windows, 0);
      assert windows[0..] == windows;
      FirstStart(segs, target, overlap, windows);
    }
    assert windows == Windows(segs, target, overlap);
  }

  lemma FirstStart(segs: seq<Text>, target: nat, overlap: int, windows: seq<Window>)
    requires Chained(segs, target, overlap, windows) && windows != []
    ensures windows[0].start == 0
  {
  }

  lemma NoSegments(text: Text, target: nat, overlap: int)
    requires target > 0 && Strip(text) == []
    ensures ProseChunks(text, target, overlap) == []
  {
    ProseIsPacked(text, target, overlap);
    StripKeeps(text);
    var segs := SegmentsOf(Strip(text), target);
    if segs != [] {
      assert segs[0] in segs;
      ContentAndTokens(segs[0]);
      hide Squeeze, Concat, SegmentsOf, Strip;
      OneMoreContent(segs, 0);
      assert false;
    }
  }

  lemma NoChunks(text: Text, target: nat, overlap: int)
    requires target > 0 && SegmentsOf(Strip(text), target) == []
    ensures ProseChunks(text, target, overlap) == []
  {
    hide SegmentsOf, Strip;
  }

  /** Chunking prose; a target of zero is refused and a negative one yields nothing, once there is any content. */
  method ChunkProse(text: Text, target: int, overlapRatio: real) returns (chunks: Option<seq<Text>>)
    ensures chunks == if target > 0 then Some(ProseChunks(text, target, Truncate(target as real * overlapRatio)))
                      else NothingFor(Squeeze(text), target)
    ensures chunks.Some? ==> forall c :: c in chunks.value ==> EstimateTokens(c) <= target
  {
    hide *;
    var s := Strip(text);
    StripKeeps(text);
    NothingIs(Squeeze(text), target);
    if s == [] {
      if target > 0 {
        NoSegments(text, target, Truncate(target as real * overlapRatio));
      }
      return Some([]);
    }
    var segments := Segment(s, target);
    if segments.None? {
      return None;
    }
    if segments.value == [] {
      if target > 0 {
        NoChunks(text, target, Truncate(target as real * overlapRatio));
      }
      return Some([]);
    }
    SegmentationSplits(s, target);
    var packed, windows := Pack(segments.value, target, Truncate(target as real * overlapRatio));
    PackedIsProse(text, target, Truncate(target as real * overlapRatio), windows, packed);
    ProseWithinBudget(text, target, Truncate(target as real * overlapRatio));
    chunks := Some(packed);
  }

  lemma NothingIs(content: Text, target: int)
    ensures NothingFor(content, target) == if target == 0 && content != [] then None else Some([])
  {
  }
}

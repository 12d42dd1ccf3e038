/**
 Splitting text into segments (memory_core/chunking.py): paragraphs, then sentences, then word packing and the
 character split. Only whitespace is ever dropped, and every segment fits the budget.
 */
module Segments {
  import opened Basics
  import opened Options
  import opened Tokeniser

  // ---- the library splits ----

  function LStrip(s: Text): Text {
    if s != [] && IsSpace(s[0]) then LStrip(s[1..]) else s
  }

  function RStrip(s: Text): Text {
    if s != [] && IsSpace(s[|s| - 1]) then RStrip(s[..|s| - 1]) else s
  }

  function Strip(s: Text): Text {
    RStrip(LStrip(s))
  }

  function WordLength(s: Text): (n: nat)
    ensures n <= |s|
    ensures forall i :: 0 <= i < n ==> !IsSpace(s[i])
    ensures n < |s| ==> IsSpace(s[n])
  {
    if s == [] || IsSpace(s[0]) then 0 else 1 + WordLength(s[1..])
  }

  /** `text.split()`. */
  function Words(s: Text): seq<Text>
    decreases |s|
  {
    if s == [] then []
    else if IsSpace(s[0]) then Words(s[1..])
    else [s[..WordLength(s)]] + Words(s[WordLength(s)..])
  }

  /** In the whitespace run at `k`, the end of its last newline; 0 when it has none. */
  function LastNewline(s: Text, k: nat): (e: nat)
    ensures e > 0 ==> k < e <= |s| && forall i :: k <= i < e ==> IsSpace(s[i])
    decreases |s| - k
  {
    if k >= |s| || !IsSpace(s[k]) then 0
    else
      var later := LastNewline(s, k + 1);
      if later > 0 then later else if s[k] == NEWLINE then k + 1 else 0
  }

  /** A paragraph break is a newline, whitespace, and a newline, taken as long as possible. */
  function BreakEnd(s: Text, i: nat): (e: nat)
    requires i < |s|
    ensures e > 0 ==> i < e <= |s| && forall k :: i <= k < e ==> IsSpace(s[k])
  {
    if s[i] == NEWLINE then LastNewline(s, i + 1) else 0
  }

  function FindBreak(s: Text, i: nat): (b: nat)
    requires i <= |s|
    ensures i <= b <= |s| && (b < |s| ==> BreakEnd(s, b) > 0)
    decreases |s| - i
  {
    if i == |s| || BreakEnd(s, i) > 0 then i else FindBreak(s, i + 1)
  }

  function Paragraphs(s: Text): seq<Text>
    decreases |s|
  {
    var b := FindBreak(s, 0);
    if b == |s| then [s] else [s[..b]] + Paragraphs(s[BreakEnd(s, b)..])
  }

  predicate IsTerminator(c: Ch) {
    c.code in {'.', '!', '?', '\U{3002}', '\U{FF01}', '\U{FF1F}', '\U{2026}'}
  }

  function FindTerminator(s: Text, i: nat): (t: nat)
    requires i <= |s|
    ensures i <= t <= |s|
    decreases |s| - i
  {
    if i == |s| || IsTerminator(s[i]) then i else FindTerminator(s, i + 1)
  }

  /** A sentence ends after each terminator; whitespace behind it is the separator. */
  function Sentences(s: Text): seq<Text>
    decreases |s|
  {
    var t := FindTerminator(s, 0);
    if t == |s| then [s]
    else
      LStripShorter(s[t + 1..]);
      [s[..t + 1]] + Sentences(LStrip(s[t + 1..]))
  }

  lemma LStripShorter(s: Text)
    ensures |LStrip(s)| <= |s|
  {
  }

  // ---- what the splits keep ----

  lemma {:induction false} SqueezeFront(s: Text)
    requires s != []
    ensures Squeeze(s) == (if IsSpace(s[0]) then [] else [s[0]]) + Squeeze(s[1..])
  {
    assert s == [s[0]] + s[1..] && [s[0]][..0] == [];
    SqueezeConcat([s[0]], s[1..]);
  }

  lemma {:induction false} LStripKeeps(s: Text)
    ensures Squeeze(LStrip(s)) == Squeeze(s)
    ensures LStrip(s) != [] ==> !IsSpace(LStrip(s)[0])
  {
    if s != [] && IsSpace(s[0]) {
      LStripKeeps(s[1..]);
      SqueezeFront(s);
    }
  }

  lemma {:induction false} RStripKeeps(s: Text)
    ensures Squeeze(RStrip(s)) == Squeeze(s)
    ensures RStrip(s) <= s && (RStrip(s) != [] ==> !IsSpace(RStrip(s)[|RStrip(s)| - 1]))
  {
    if s != [] && IsSpace(s[|s| - 1]) {
      RStripKeeps(s[..|s| - 1]);
    }
  }

  /** Stripped text starts and ends with content. */
  predicate IsStripped(s: Text) {
    s != [] ==> !IsSpace(s[0]) && !IsSpace(s[|s| - 1])
  }

  lemma StripKeeps(s: Text)
    ensures Squeeze(Strip(s)) == Squeeze(s) && IsStripped(Strip(s))
    ensures Strip(s) == [] <==> Squeeze(s) == []
  {
    LStripKeeps(s);
    RStripKeeps(LStrip(s));
    if Strip(s) != [] {
      SqueezeFront(Strip(s));
    }
  }

  lemma {:induction false} WordsKeep(s: Text)
    ensures Concat(Words(s)) == Squeeze(s)
    ensures forall w :: w in Words(s) ==> w != [] && NoSpace(w)
    decreases |s|
  {
    if s != [] {
      if IsSpace(s[0]) {
        SqueezeFront(s);
        WordsKeep(s[1..]);
      } else {
        var n := WordLength(s);
        var word, rest := s[..n], s[n..];
        WordsKeep(rest);
        assert s == word + rest;
        SqueezeConcat(word, rest);
        assert NoSpace(word) by { forall c | c in word ensures !IsSpace(c) { var i :| 0 <= i < n && word[i] == c; } }
        SqueezeNothing(word);
        assert Words(s) == [word] + Words(rest) && (([word] + Words(rest))[1..] == Words(rest));
        ConcatFront(Words(s));
      }
    }
  }

  lemma TwoWords(s: Text)
    requires s != [] && IsStripped(s) && WordLength(s) < |s|
    ensures |Words(s)| >= 2
  {
    var rest := s[WordLength(s)..];
    WordsKeep(rest);
    ContentSqueezes(rest);
    assert Concat([]) == [];
  }

  /** Stripped text of at most one word has no whitespace at all. */
  lemma OneWord(s: Text)
    requires IsStripped(s) && |Words(s)| <= 1
    ensures NoSpace(s)
  {
    if s != [] {
      if WordLength(s) < |s| {
        TwoWords(s);
        assert false;
      }
      forall c | c in s ensures !IsSpace(c) { var i :| 0 <= i < |s| && s[i] == c; }
    }
  }

  lemma ContentSqueezes(s: Text)
    requires s != [] && !IsSpace(s[|s| - 1])
    ensures Squeeze(s) != []
  {
  }

  /** The first piece of a split, what is dropped behind it, and the split of the rest. */
  lemma FirstPiece(s: Text, front: Text, gap: Text, rest: Text, pieces: seq<Text>, more: seq<Text>)
    requires s == front + gap + rest && Squeeze(gap) == [] && pieces == [front] + more
    requires Squeeze(Concat(more)) == Squeeze(rest)
    ensures Squeeze(Concat(pieces)) == Squeeze(s)
  {
    assert pieces[1..] == more;
    hide Squeeze, Concat;
    ConcatFront(pieces);
    SqueezeConcat(front, Concat(more));
    SqueezeConcat(front + gap, rest);
    SqueezeConcat(front, gap);
    assert Squeeze(front) + [] == Squeeze(front);
  }

  lemma {:induction false} ParagraphsKeep(s: Text)
    ensures Squeeze(Concat(Paragraphs(s))) == Squeeze(s)
    decreases |s|
  {
    var b := FindBreak(s, 0);
    if b == |s| {
      ConcatSingle(s);
    } else {
      var e := BreakEnd(s, b);
      hide Squeeze, Concat;
      ParagraphsKeep(s[e..]);
      SqueezeAll(s[b..e]);
      FirstPiece(s, s[..b], s[b..e], s[e..], Paragraphs(s), Paragraphs(s[e..]));
    }
  }

  lemma {:induction false} SentencesKeep(s: Text)
    ensures Squeeze(Concat(Sentences(s))) == Squeeze(s)
    decreases |s|
  {
    var t := FindTerminator(s, 0);
    if t == |s| {
      ConcatSingle(s);
    } else {
      var back := s[t + 1..];
      LStripShorter(back);
      assert Squeeze([]) == [];
      hide Squeeze, Concat, LStrip;
      SentencesKeep(LStrip(back));
      LStripKeeps(back);
      FirstPiece(s, s[..t + 1], [], back, Sentences(s), Sentences(LStrip(back)));
    }
  }

  // ---- hard split ----

  ghost predicate WithinBudget(parts: seq<Text>, target: nat) {
    forall p :: p in parts ==> 0 < EstimateTokens(p) <= target && IsStripped(p)
  }

  /** Same content, whitespace aside, in stripped non-empty pieces within the budget. */
  ghost predicate Splits(parts: seq<Text>, s: Text, target: nat) {
    Squeeze(Concat(parts)) == Squeeze(s) && WithinBudget(parts, target)
  }

  /** The character split for any target: a step of zero is refused, a negative one takes no slice. */
  function CharSplitAny(s: Text, target: int): Option<seq<Text>> {
    if target > 0 then Some(CharSplit(s, target)) else NothingFor(Tokens(s), target)
  }

  /** What a target without room leads to: an error at zero if there is anything to split, otherwise no pieces. */
  function NothingFor<T(==)>(content: seq<T>, target: int): Option<seq<Text>> {
    if target == 0 && content != [] then None else Some([])
  }

  /** The slices emitted so far and the words being packed. */
  datatype Packing = Packing(slices: seq<Text>, current: seq<Text>)

  function Closed(p: Packing): seq<Text> {
    if p.current == [] then p.slices else p.slices + [Join(p.current, BLANK)]
  }

  /** Words join until the next one would break the budget; an oversized word is character-split. */
  function AddWord(p: Packing, word: Text, target: nat): Packing
    requires target > 0
  {
    var wt := EstimateTokens(word);
    if wt > target then Packing(Closed(p) + CharSplit(word, target), [])
    else if p.current != [] && SumTokens(p.current) + wt > target then Packing(Closed(p), [word])
    else Packing(p.slices, p.current + [word])
  }

  function PackedWords(words: seq<Text>, target: nat): Packing
    requires target > 0
  {
    if words == [] then Packing([], [])
    else AddWord(PackedWords(words[..|words| - 1], target), words[|words| - 1], target)
  }

  /** What `_hard_split` cuts an oversized text into. */
  function HardSlices(s: Text, target: nat): seq<Text>
    requires target > 0
  {
    if |Words(s)| <= 1 then CharSplit(s, target) else Closed(PackedWords(Words(s), target))
  }

  /** What `split` yields: words with content and without whitespace. */
  predicate PlainWords(words: seq<Text>) {
    forall w :: w in words ==> w != [] && NoSpace(w)
  }

  lemma PlainPart(words: seq<Text>, i: nat)
    requires PlainWords(words) && i < |words|
    ensures words[i] != [] && NoSpace(words[i]) && PlainWords(words[..i])
  {
    assert words[i] in words;
    forall w | w in words[..i] ensures w in words {
    }
  }

  method HardSplit(s: Text, target: int) returns (r: Option<seq<Text>>)
    requires IsStripped(s)
    ensures r == if target > 0 then Some(HardSlices(s, target)) else NothingFor(s, target)
  {
    var words := Words(s);
    if |words| <= 1 {
      ContentAndTokens(s);
      return CharSplitAny(s, target);
    }
    WordsKeep(s);
    r := PackWords(words, target);
  }

  method PackWords(words: seq<Text>, target: int) returns (r: Option<seq<Text>>)
    requires PlainWords(words)
    ensures r == if target > 0 then Some(Closed(PackedWords(words, target))) else NothingFor(words, target)
  {
    var slices: seq<Text>, current: seq<Text> := [], [];
    var currentTokens := 0;
    NothingPacked(words, target);
    hide PackedWords, Tokens, Join, SumTokens, EstimateTokens, NoSpace, PlainWords;
    for i := 0 to |words|
      invariant target > 0 ==> Packing(slices, current) == PackedWords(words[..i], target)
      invariant currentTokens == SumTokens(current)
      invariant target <= 0 ==> slices == current == [] && (target == 0 ==> i == 0)
    {
      var word := words[i];
      PlainPart(words, i);
      WordHasToken(word);
      PackedStep(words, i, target);
      SumSnoc(current, word);
      var wt := EstimateTokens(word);
      if wt > target {
        if current != [] {
          slices := slices + [Join(current, BLANK)];
          current, currentTokens := [], 0;
        }
        var more := CharSplitAny(word, target);
        if more.None? {
          return None;
        }
        slices := slices + more.value;
        continue;
      }
      if current != [] && currentTokens + wt > target {
        slices := slices + [Join(current, BLANK)];
        current, currentTokens := [], 0;
        SumSnoc([], word);
        assert [] + [word] == [word];
      }
      current := current + [word];
      currentTokens := currentTokens + wt;
    }
    assert words[..|words|] == words;
    if current != [] {
      slices := slices + [Join(current, BLANK)];
    }
    r := Some(slices);
  }

  lemma NothingPacked(words: seq<Text>, target: int)
    ensures target > 0 ==> PackedWords(words[..0], target) == Packing([], [])
    ensures SumTokens([]) == 0
  {
  }

  lemma PackedStep(words: seq<Text>, i: nat, target: int)
    requires i < |words|
    ensures target > 0 ==> PackedWords(words[..i + 1], target) == AddWord(PackedWords(words[..i], target), words[i], target)
  {
    assert words[..i + 1][..i] == words[..i];
  }

  lemma SumSnoc(current: seq<Text>, word: Text)
    ensures SumTokens(current + [word]) == SumTokens(current) + EstimateTokens(word) && SumTokens([]) == 0
  {
    assert (current + [word])[..|current|] == current;
  }

  lemma WordHasToken(word: Text)
    requires word != [] && NoSpace(word)
    ensures EstimateTokens(word) > 0 && Tokens(word) != []
  {
    SqueezeNothing(word);
    ContentHasToken(word);
  }

  /** Stripped text has content, or tokens, exactly when it is not empty. */
  lemma ContentAndTokens(s: Text)
    requires IsStripped(s)
    ensures (s == [] <==> Squeeze(s) == []) && (s == [] <==> Tokens(s) == [])
  {
    if s != [] {
      SqueezeFront(s);
      ContentHasToken(s);
    }
  }

  // ---- what the hard split keeps ----

  /** Words packed so far: finished slices within the budget, current words that fit, and no content lost. */
  ghost predicate Packs(p: Packing, words: seq<Text>, target: nat) {
    && WithinBudget(p.slices, target) && SumTokens(p.current) <= target
    && PlainWords(p.current)
    && Squeeze(Concat(p.slices)) + Concat(p.current) == Concat(words)
  }

  lemma {:induction false} SumPositive(parts: seq<Text>)
    requires parts != [] && PlainWords(parts)
    ensures SumTokens(parts) > 0
  {
    PlainPart(parts, |parts| - 1);
    WordHasToken(parts[|parts| - 1]);
  }

  lemma ClosedKeeps(p: Packing, words: seq<Text>, target: nat)
    requires Packs(p, words, target)
    ensures WithinBudget(Closed(p), target) && Squeeze(Concat(Closed(p))) == Concat(words)
  {
    hide Squeeze, Concat, Join, SumTokens, Tokens;
    if p.current == [] {
      ConcatNone();
      NothingAdded(Squeeze(Concat(p.slices)));
    } else {
      var slice := Join(p.current, BLANK);
      SumPositive(p.current);
      JoinEstimate(p.current, BLANK);
      SqueezeJoin(p.current, BLANK);
      NoSpaceConcat(p.current);
      JoinStripped(p.current, BLANK);
      SqueezeNothing(Concat(p.current));
      Emitted(p.slices, slice, Concat(p.current));
    }
  }

  lemma ConcatNone()
    ensures Concat([]) == [] && Squeeze([]) == [] && SumTokens([]) == 0
  {
  }

  lemma ConcatMore(words: seq<Text>, word: Text)
    ensures Concat(words + [word]) == Concat(words) + word
  {
    assert (words + [word])[..|words|] == words;
  }

  lemma SplitWordKeeps(p: Packing, words: seq<Text>, word: Text, target: nat)
    requires target > 0 && NoSpace(word) && Packs(p, words, target)
    ensures Packs(Packing(Closed(p) + CharSplit(word, target), []), words + [word], target)
  {
    hide Squeeze, Concat, SumTokens, Tokens, CharSplit, Closed, NoSpace;
    var closed, slices := Closed(p), CharSplit(word, target);
    ClosedKeeps(p, words, target);
    ConcatMore(words, word);
    ConcatNone();
    CharSplitIsExact(word, target);
    SlicesStripped(slices);
    ConcatOfConcat(closed, slices);
    SqueezeConcat(Concat(closed), word);
    SqueezeNothing(word);
    NothingAdded(Squeeze(Concat(closed + slices)));
  }

  lemma FreshWordKeeps(p: Packing, words: seq<Text>, word: Text, target: nat)
    requires word != [] && NoSpace(word) && Packs(p, words, target) && EstimateTokens(word) <= target
    ensures Packs(Packing(Closed(p), [word]), words + [word], target)
  {
    hide Squeeze, Concat, SumTokens, Tokens, Closed, NoSpace, WithinBudget;
    ClosedKeeps(p, words, target);
    ConcatMore(words, word);
    SumOfOne(word);
    ConcatSingle(word);
  }

  lemma SumOfOne(word: Text)
    ensures SumTokens([word]) == EstimateTokens(word)
  {
    SumSnoc([], word);
    assert [] + [word] == [word];
  }

  lemma NextWordKeeps(p: Packing, words: seq<Text>, word: Text, target: nat)
    requires word != [] && NoSpace(word) && Packs(p, words, target) && SumTokens(p.current) + EstimateTokens(word) <= target
    ensures Packs(Packing(p.slices, p.current + [word]), words + [word], target)
  {
    hide Squeeze, Concat, SumTokens, Tokens, NoSpace, WithinBudget;
    ConcatMore(words, word);
    ConcatMore(p.current, word);
    SumSnoc(p.current, word);
    assert Squeeze(Concat(p.slices)) + (Concat(p.current) + word) == Concat(words) + word;
  }

  lemma AddWordKeeps(p: Packing, words: seq<Text>, word: Text, target: nat)
    requires target > 0 && word != [] && NoSpace(word) && Packs(p, words, target)
    ensures Packs(AddWord(p, word, target), words + [word], target)
  {
    ConcatNone();
    hide Packs, Closed, CharSplit, SumTokens, EstimateTokens;
    if EstimateTokens(word) > target {
      SplitWordKeeps(p, words, word, target);
    } else if p.current != [] && SumTokens(p.current) + EstimateTokens(word) > target {
      FreshWordKeeps(p, words, word, target);
    } else {
      NextWordKeeps(p, words, word, target);
    }
  }

  lemma {:induction false} PackedKeeps(words: seq<Text>, target: nat)
    requires target > 0 && PlainWords(words)
    ensures Packs(PackedWords(words, target), words, target)
  {
    hide *;
    if words == [] {
      NothingPacks(target);
    } else {
      var earlier, word := words[..|words| - 1], words[|words| - 1];
      PlainPart(words, |words| - 1);
      PackedKeeps(earlier, target);
      AddWordKeeps(PackedWords(earlier, target), earlier, word, target);
      assert words == earlier + [word];
      PackedOneMore(words, target);
    }
  }

  lemma NothingPacks(target: nat)
    requires target > 0
    ensures Packs(PackedWords([], target), [], target)
  {
    ConcatNone();
  }

  lemma PackedOneMore(words: seq<Text>, target: nat)
    requires target > 0 && words != []
    ensures PackedWords(words, target) == AddWord(PackedWords(words[..|words| - 1], target), words[|words| - 1], target)
  {
    hide AddWord;
  }

  /** A hard split loses only whitespace, and every slice fits the budget. */
  lemma HardSlicesSplit(s: Text, target: nat)
    requires target > 0 && IsStripped(s)
    ensures Splits(HardSlices(s, target), s, target)
  {
    WordsKeep(s);
    if |Words(s)| <= 1 {
      OneWord(s);
      CharSplitIsExact(s, target);
      SlicesStripped(CharSplit(s, target));
    } else {
      PackedKeeps(Words(s), target);
      ClosedKeeps(PackedWords(Words(s), target), Words(s), target);
    }
  }

  lemma SlicesStripped(slices: seq<Text>)
    requires forall p :: p in slices ==> NoSpace(p)
    ensures forall p :: p in slices ==> IsStripped(p)
  {
    forall p | p in slices ensures IsStripped(p) {
      if p != [] { assert p[0] in p && p[|p| - 1] in p; }
    }
  }

  lemma {:induction false} JoinStripped(parts: seq<Text>, sep: Ch)
    requires forall p :: p in parts ==> IsStripped(p) && p != []
    ensures IsStripped(Join(parts, sep)) && (parts != [] ==> Join(parts, sep) != [])
  {
    if |parts| == 1 {
      assert parts[0] in parts;
    } else if parts != [] {
      var k := |parts| - 1;
      assert parts[k] in parts;
      forall p | p in parts[..k] ensures IsStripped(p) && p != [] { assert p in parts; }
      JoinStripped(parts[..k], sep);
    }
  }

  lemma Emitted(slices: seq<Text>, slice: Text, content: Text)
    requires Squeeze(slice) == content
    ensures Squeeze(Concat(slices + [slice])) == Squeeze(Concat(slices)) + content
  {
    assert (slices + [slice])[..|slices|] == slices;
    SqueezeConcat(Concat(slices), slice);
  }

  lemma {:induction false} NoSpaceConcat(parts: seq<Text>)
    requires forall p :: p in parts ==> NoSpace(p)
    ensures NoSpace(Concat(parts))
  {
    if parts != [] {
      var k := |parts| - 1;
      assert parts[k] in parts;
      forall p | p in parts[..k] ensures NoSpace(p) { assert p in parts; }
      NoSpaceConcat(parts[..k]);
    }
  }

  // ---- segments ----

  /** What one sentence becomes: nothing if blank, itself if it fits, otherwise a hard split. */
  function SentencePart(sentence: Text, target: nat): seq<Text>
    requires target > 0
  {
    var s := Strip(sentence);
    if s == [] then [] else if EstimateTokens(s) <= target then [s] else HardSlices(s, target)
  }

  function SentenceSegments(sentences: seq<Text>, target: nat): seq<Text>
    requires target > 0
  {
    if sentences == [] then []
    else SentenceSegments(sentences[..|sentences| - 1], target) + SentencePart(sentences[|sentences| - 1], target)
  }

  /** What one paragraph becomes: nothing if blank, itself if it fits, otherwise its sentences in order. */
  function ParagraphPart(para: Text, target: nat): seq<Text>
    requires target > 0
  {
    var p := Strip(para);
    if p == [] then [] else if EstimateTokens(p) <= target then [p] else SentenceSegments(Sentences(p), target)
  }

  function ParagraphSegments(paras: seq<Text>, target: nat): seq<Text>
    requires target > 0
  {
    if paras == [] then []
    else ParagraphSegments(paras[..|paras| - 1], target) + ParagraphPart(paras[|paras| - 1], target)
  }

  /** The segments of a text: paragraph by paragraph, each kept whole if it fits, else sentence by sentence. */
  function SegmentsOf(text: Text, target: nat): seq<Text>
    requires target > 0
  {
    ParagraphSegments(Paragraphs(text), target)
  }

  method SegmentSentence(sentence: Text, target: int) returns (part: Option<seq<Text>>)
    ensures part == if target > 0 then Some(SentencePart(sentence, target)) else NothingFor(Squeeze(sentence), target)
  {
    var s := Strip(sentence);
    StripKeeps(sentence);
    ContentAndTokens(s);
    hide Tokens, Squeeze, HardSlices, Strip;
    if s == [] {
      return Some([]);
    }
    if EstimateTokens(s) <= target {
      return Some([s]);
    }
    part := HardSplit(s, target);
  }

  method SegmentSentences(p: Text, target: int) returns (r: Option<seq<Text>>)
    ensures r == if target > 0 then Some(SentenceSegments(Sentences(p), target)) else NothingFor(Squeeze(p), target)
  {
    var sentences := Sentences(p);
    SentencesKeep(p);
    var segments: seq<Text> := [];
    ConcatNone();
    hide Sentences, SentencePart, Squeeze, Concat;
    for i := 0 to |sentences|
      invariant target > 0 ==> segments == SentenceSegments(sentences[..i], target)
      invariant target <= 0 ==> segments == [] && (target == 0 ==> Squeeze(Concat(sentences[..i])) == [])
    {
      OneMoreContent(sentences, i);
      assert sentences[..i + 1][..i] == sentences[..i];
      var part := SegmentSentence(sentences[i], target);
      if part.None? {
        return None;
      }
      segments := segments + part.value;
    }
    assert sentences[..|sentences|] == sentences;
    r := Some(segments);
  }

  method SegmentParagraph(para: Text, target: int) returns (part: Option<seq<Text>>)
    ensures part == if target > 0 then Some(ParagraphPart(para, target)) else NothingFor(Squeeze(para), target)
  {
    var p := Strip(para);
    StripKeeps(para);
    ContentAndTokens(p);
    hide Tokens, Squeeze, SentenceSegments, Strip, Sentences;
    if p == [] {
      return Some([]);
    }
    if EstimateTokens(p) <= target {
      return Some([p]);
    }
    part := SegmentSentences(p, target);
  }

  method Segment(text: Text, target: int) returns (r: Option<seq<Text>>)
    ensures r == if target > 0 then Some(SegmentsOf(text, target)) else NothingFor(Squeeze(text), target)
  {
    var paras := Paragraphs(text);
    ParagraphsKeep(text);
    var segments: seq<Text> := [];
    ConcatNone();
    hide Paragraphs, ParagraphPart, Squeeze, Concat;
    for i := 0 to |paras|
      invariant target > 0 ==> segments == ParagraphSegments(paras[..i], target)
      invariant target <= 0 ==> segments == [] && (target == 0 ==> Squeeze(Concat(paras[..i])) == [])
    {
      OneMoreContent(paras, i);
      assert paras[..i + 1][..i] == paras[..i];
      var part := SegmentParagraph(paras[i], target);
      if part.None? {
        return None;
      }
      segments := segments + part.value;
    }
    assert paras[..|paras|] == paras;
    r := Some(segments);
  }

  /** Content found in one piece is content of all of them. */
  lemma OneMoreContent(parts: seq<Text>, i: nat)
    requires i < |parts|
    ensures Squeeze(Concat(parts[..i + 1])) == Squeeze(Concat(parts[..i])) + Squeeze(parts[i])
    ensures Squeeze(parts[i]) != [] ==> Squeeze(Concat(parts)) != []
  {
    hide Squeeze, Concat;
    ConcatMore(parts[..i], parts[i]);
    assert parts[..i + 1] == parts[..i] + [parts[i]];
    SqueezeConcat(Concat(parts[..i]), parts[i]);
    assert parts == parts[..i + 1] + parts[i + 1..];
    ConcatOfConcat(parts[..i + 1], parts[i + 1..]);
    SqueezeConcat(Concat(parts[..i + 1]), Concat(parts[i + 1..]));
  }

  lemma BlankSplits(s: Text, target: nat)
    requires Squeeze(s) == []
    ensures Splits([], s, target)
  {
  }

  lemma WholeSplits(s: Text, t: Text, target: nat)
    requires s != [] && IsStripped(s) && EstimateTokens(s) <= target && Squeeze(s) == Squeeze(t)
    ensures Splits([s], t, target)
  {
    hide Squeeze, Concat, Tokens;
    ContentAndTokens(s);
    ConcatSingle(s);
  }

  lemma SplitsSame(parts: seq<Text>, s: Text, t: Text, target: nat)
    requires Splits(parts, s, target) && Squeeze(s) == Squeeze(t)
    ensures Splits(parts, t, target)
  {
  }

  lemma SentencePartSplits(sentence: Text, target: nat)
    requires target > 0
    ensures Splits(SentencePart(sentence, target), sentence, target)
  {
    hide Splits, Strip, EstimateTokens, Squeeze, IsStripped, HardSlices;
    var s := Strip(sentence);
    StripKeeps(sentence);
    if s == [] {
      BlankSplits(sentence, target);
    } else if EstimateTokens(s) <= target {
      WholeSplits(s, sentence, target);
    } else {
      HardSlicesSplit(s, target);
      SplitsSame(SentencePart(sentence, target), s, sentence, target);
    }
  }

  /** Pieces split one by one and put in a row split the pieces in a row. */
  lemma SplitsConcat(a: seq<Text>, s: Text, b: seq<Text>, t: Text, target: nat)
    requires Splits(a, s, target) && Splits(b, t, target)
    ensures Splits(a + b, s + t, target)
  {
    ConcatOfConcat(a, b);
    SqueezeConcat(Concat(a), Concat(b));
    SqueezeConcat(s, t);
  }

  lemma {:induction false} SentencesSplit(sentences: seq<Text>, target: nat)
    requires target > 0
    ensures Splits(SentenceSegments(sentences, target), Concat(sentences), target)
  {
    if sentences == [] {
      ConcatNone();
    } else {
      var k := |sentences| - 1;
      SentencesSplit(sentences[..k], target);
      SentencePartSplits(sentences[k], target);
      SplitsConcat(SentenceSegments(sentences[..k], target), Concat(sentences[..k]),
                   SentencePart(sentences[k], target), sentences[k], target);
    }
  }

  lemma ParagraphPartSplits(para: Text, target: nat)
    requires target > 0
    ensures Splits(ParagraphPart(para, target), para, target)
  {
    hide Splits, Strip, EstimateTokens, Squeeze, IsStripped, SentenceSegments, Sentences;
    var p := Strip(para);
    StripKeeps(para);
    if p == [] {
      BlankSplits(para, target);
    } else if EstimateTokens(p) <= target {
      WholeSplits(p, para, target);
    } else {
      SentencesSplit(Sentences(p), target);
      SentencesKeep(p);
      SplitsSame(ParagraphPart(para, target), Concat(Sentences(p)), para, target);
    }
  }

  lemma {:induction false} ParagraphsSplit(paras: seq<Text>, target: nat)
    requires target > 0
    ensures Splits(ParagraphSegments(paras, target), Concat(paras), target)
  {
    if paras == [] {
      ConcatNone();
    } else {
      var k := |paras| - 1;
      ParagraphsSplit(paras[..k], target);
      ParagraphPartSplits(paras[k], target);
      SplitsConcat(ParagraphSegments(paras[..k], target), Concat(paras[..k]),
                   ParagraphPart(paras[k], target), paras[k], target);
    }
  }

  /** Segmentation loses only whitespace, and every segment fits the budget. */
  lemma SegmentationSplits(text: Text, target: nat)
    requires target > 0
    ensures Squeeze(Concat(SegmentsOf(text, target))) == Squeeze(text) && WithinBudget(SegmentsOf(text, target), target)
  {
    ParagraphsSplit(Paragraphs(text), target);
    ParagraphsKeep(text);
  }
}

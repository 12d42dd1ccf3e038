/**
 Where the chunker's splitters cut, said without their scans: the pieces and what stands between them spell the text,
 and no further cut is possible or one fewer needed.
 */
module SegmentMeaning {
  import opened Basics
  import opened Tokeniser
  import opened Segments

  /** Pieces with what stands between them. */
  function Weave(pieces: seq<Text>, gaps: seq<Text>): Text
    requires |pieces| == |gaps| + 1
  {
    if gaps == [] then pieces[0] else pieces[0] + gaps[0] + Weave(pieces[1..], gaps[1..])
  }

  lemma WeaveFront(piece: Text, gap: Text, pieces: seq<Text>, gaps: seq<Text>)
    requires |pieces| == |gaps| + 1
    ensures Weave([piece] + pieces, [gap] + gaps) == piece + gap + Weave(pieces, gaps)
  {
    assert ([piece] + pieces)[1..] == pieces && ([gap] + gaps)[1..] == gaps;
  }

  predicate AllSpace(s: Text) {
    forall i :: 0 <= i < |s| ==> IsSpace(s[i])
  }

  // ---- strip ----

  lemma {:induction false} LStripIs(s: Text) returns (lead: Text)
    ensures s == lead + LStrip(s) && AllSpace(lead) && (LStrip(s) != [] ==> !IsSpace(LStrip(s)[0]))
  {
    if s != [] && IsSpace(s[0]) {
      var more := LStripIs(s[1..]);
      lead := [s[0]] + more;
    } else {
      lead := [];
    }
  }

  lemma {:induction false} RStripIs(s: Text) returns (trail: Text)
    ensures s == RStrip(s) + trail && AllSpace(trail) && (RStrip(s) != [] ==> !IsSpace(RStrip(s)[|RStrip(s)| - 1]))
  {
    if s != [] && IsSpace(s[|s| - 1]) {
      var more := RStripIs(s[..|s| - 1]);
      trail := more + [s[|s| - 1]];
    } else {
      trail := [];
    }
  }

  /** Stripping takes whitespace off both ends, all of it and nothing else. */
  lemma StripMeans(s: Text) returns (lead: Text, trail: Text)
    ensures s == lead + Strip(s) + trail && AllSpace(lead) && AllSpace(trail) && IsStripped(Strip(s))
  {
    lead := LStripIs(s);
    trail := RStripIs(LStrip(s));
    StripKeeps(s);
    assert s == lead + (Strip(s) + trail);
  }

  // ---- paragraphs ----

  /** A newline, whitespace, and a newline, the run from `i` to `j`. */
  predicate BreakAt(s: Text, i: nat, j: nat) {
    i < j < |s| && s[i] == NEWLINE && s[j] == NEWLINE && forall k :: i < k < j ==> IsSpace(s[k])
  }

  predicate IsBreak(gap: Text) {
    |gap| >= 2 && BreakAt(gap, 0, |gap| - 1)
  }

  ghost predicate HasBreak(s: Text) {
    exists i: nat, j: nat :: BreakAt(s, i, j)
  }

  /** The text ends in a newline and whitespace. */
  ghost predicate EndsLine(s: Text) {
    exists i: nat :: i < |s| && s[i] == NEWLINE && AllSpace(s[i + 1..])
  }

  /** The text starts with whitespace and a newline. */
  ghost predicate StartsBlank(s: Text) {
    exists j: nat :: j < |s| && s[j] == NEWLINE && AllSpace(s[..j])
  }

  lemma {:induction false} LastNewlineIs(s: Text, k: nat)
    requires k <= |s|
    ensures LastNewline(s, k) > 0 ==> s[LastNewline(s, k) - 1] == NEWLINE
    ensures forall j :: k <= j < |s| && j >= LastNewline(s, k) && s[j] == NEWLINE ==> exists i :: k <= i < j && !IsSpace(s[i])
    decreases |s| - k
  {
    if k < |s| && IsSpace(s[k]) {
      LastNewlineIs(s, k + 1);
    }
  }

  lemma {:induction false} FindBreakIs(s: Text, i: nat)
    requires i <= |s|
    ensures forall k :: i <= k < FindBreak(s, i) ==> BreakEnd(s, k) == 0
    decreases |s| - i
  {
    if i < FindBreak(s, i) {
      FindBreakIs(s, i + 1);
    }
  }

  lemma NoBreakFrom(s: Text, i: nat, j: nat)
    requires i < |s| && BreakEnd(s, i) == 0
    ensures !BreakAt(s, i, j)
  {
    if BreakAt(s, i, j) {
      LastNewlineIs(s, i + 1);
      assert false;
    }
  }

  lemma {:induction false} FirstIsPrefix(s: Text)
    ensures Paragraphs(s) != [] && Paragraphs(s)[0] <= s
    decreases |s|
  {
  }

  /** A whole break, between lines that are no part of it. */
  ghost predicate CleanBreak(before: Text, gap: Text, after: Text) {
    IsBreak(gap) && !EndsLine(before) && !StartsBlank(after)
  }

  /** The pieces of a text, the breaks between them, and that no break is missed or cut short. */
  ghost predicate SplitAtBreaks(s: Text, pieces: seq<Text>, gaps: seq<Text>) {
    && |pieces| == |gaps| + 1 && s == Weave(pieces, gaps)
    && (forall k :: 0 <= k < |gaps| ==> CleanBreak(pieces[k], gaps[k], pieces[k + 1]))
    && forall k :: 0 <= k < |pieces| ==> !HasBreak(pieces[k])
  }

  lemma {:induction false} ParagraphsMean(s: Text) returns (gaps: seq<Text>)
    ensures SplitAtBreaks(s, Paragraphs(s), gaps)
    decreases |s|
  {
    var b := FindBreak(s, 0);
    FindBreakIs(s, 0);
    FrontHasNoBreak(s, b);
    if b == |s| {
      assert s[..b] == s;
      gaps := [];
    } else {
      var e := BreakEnd(s, b);
      LastNewlineIs(s, b + 1);
      var rest := s[e..];
      var more := ParagraphsMean(rest);
      FirstIsPrefix(rest);
      gaps := [s[b..e]] + more;
      BreakIs(s, b, e);
      RestStartsClean(s, b, e, Paragraphs(rest)[0]);
      assert CleanBreak(s[..b], s[b..e], Paragraphs(rest)[0]);
      hide CleanBreak, HasBreak, FindBreak, BreakEnd, LastNewline, SplitAtBreaks;
      ParagraphBefore(s[..b], s[b..e], rest, Paragraphs(rest), more);
      assert s == s[..b] + s[b..e] + rest;
    }
  }

  lemma ParagraphBefore(front: Text, gap: Text, rest: Text, pieces: seq<Text>, gaps: seq<Text>)
    requires SplitAtBreaks(rest, pieces, gaps) && CleanBreak(front, gap, pieces[0]) && !HasBreak(front)
    ensures SplitAtBreaks(front + gap + rest, [front] + pieces, [gap] + gaps)
  {
    WeaveFront(front, gap, pieces, gaps);
    hide Weave, CleanBreak, HasBreak;
    forall k | 0 <= k < |gaps| + 1 ensures CleanBreak(([front] + pieces)[k], ([gap] + gaps)[k], ([front] + pieces)[k + 1]) {
      if k > 0 {
        assert CleanBreak(pieces[k - 1], gaps[k - 1], pieces[k]);
      }
    }
  }

  lemma FrontHasNoBreak(s: Text, b: nat)
    requires b <= |s| && forall k :: 0 <= k < b ==> BreakEnd(s, k) == 0
    ensures !HasBreak(s[..b]) && (b < |s| && s[b] == NEWLINE ==> !EndsLine(s[..b]))
  {
    forall i: nat, j: nat ensures !BreakAt(s[..b], i, j) {
      if i < b {
        NoBreakFrom(s, i, j);
      }
    }
    if b < |s| && s[b] == NEWLINE && EndsLine(s[..b]) {
      var i: nat :| i < |s[..b]| && s[..b][i] == NEWLINE && AllSpace(s[..b][i + 1..]);
      NoBreakFrom(s, i, b);
      forall k | i < k < b ensures IsSpace(s[k]) {
        assert s[..b][i + 1..][k - i - 1] == s[k];
      }
      assert BreakAt(s, i, b);
      assert false;
    }
  }

  lemma BreakIs(s: Text, b: nat, e: nat)
    requires b < |s| && e == BreakEnd(s, b) > 0
    ensures IsBreak(s[b..e]) && s[b] == NEWLINE
  {
    LastNewlineIs(s, b + 1);
  }

  lemma RestStartsClean(s: Text, b: nat, e: nat, first: Text)
    requires b < |s| && e == BreakEnd(s, b) > 0 && first <= s[e..]
    ensures !StartsBlank(first)
  {
    LastNewlineIs(s, b + 1);
    if j: nat :| j < |first| && first[j] == NEWLINE && AllSpace(first[..j]) {
      assert s[e + j] == NEWLINE;
      forall i | b + 1 <= i < e + j ensures IsSpace(s[i]) {
        if i >= e {
          assert first[..j][i - e] == s[i];
        }
      }
      assert false;
    }
  }

  // ---- sentences ----

  /** The marks a sentence ends with. */
  predicate EndsSentence(c: Ch) {
    || c.code == '.' || c.code == '!' || c.code == '?'
    || c.code == '\U{3002}' || c.code == '\U{FF01}' || c.code == '\U{FF1F}' || c.code == '\U{2026}'
  }

  predicate NoEnd(s: Text) {
    forall i :: 0 <= i < |s| ==> !EndsSentence(s[i])
  }

  predicate IsSentence(s: Text) {
    s != [] && EndsSentence(Last(s)) && NoEnd(Init(s))
  }

  /** A sentence, all the whitespace behind it, and what comes next. */
  predicate CleanEnd(before: Text, gap: Text, after: Text) {
    IsSentence(before) && AllSpace(gap) && (after != [] ==> !IsSpace(after[0]))
  }

  /** Every piece but the last ends with its only end mark, the last has none, and whitespace goes to the gaps. */
  ghost predicate SplitAtEnds(s: Text, pieces: seq<Text>, gaps: seq<Text>) {
    && |pieces| == |gaps| + 1 && s == Weave(pieces, gaps)
    && (forall k :: 0 <= k < |gaps| ==> CleanEnd(pieces[k], gaps[k], pieces[k + 1]))
    && NoEnd(pieces[|gaps|])
  }

  lemma {:induction false} FindTerminatorIs(s: Text, i: nat)
    requires i <= |s|
    ensures var t := FindTerminator(s, i);
            (forall k :: i <= k < t ==> !EndsSentence(s[k])) && (t < |s| ==> EndsSentence(s[t]))
    decreases |s| - i
  {
    if i < |s| && !IsTerminator(s[i]) {
      FindTerminatorIs(s, i + 1);
    }
  }

  lemma {:induction false} FirstSentence(s: Text)
    ensures Sentences(s) != [] && Sentences(s)[0] <= s
    decreases |s|
  {
  }

  lemma {:induction false} SentencesMean(s: Text) returns (gaps: seq<Text>)
    ensures SplitAtEnds(s, Sentences(s), gaps)
    decreases |s|
  {
    hide *;
    var t := FindTerminator(s, 0);
    if t == |s| {
      LastSentence(s);
      gaps := [];
    } else {
      var gap, rest := NextSentence(s);
      var more := SentencesMean(rest);
      FirstSentence(rest);
      SentenceEnds(s, gap, rest, Sentences(rest)[0]);
      SentenceBefore(s[..t + 1], gap, rest, Sentences(rest), more);
      gaps := [gap] + more;
    }
  }

  lemma LastSentence(s: Text)
    requires FindTerminator(s, 0) == |s|
    ensures SplitAtEnds(s, Sentences(s), [])
  {
    FindTerminatorIs(s, 0);
  }

  lemma NextSentence(s: Text) returns (gap: Text, rest: Text)
    requires FindTerminator(s, 0) < |s|
    ensures var t := FindTerminator(s, 0);
      && s == s[..t + 1] + gap + rest && |rest| < |s| && Sentences(s) == [s[..t + 1]] + Sentences(rest)
      && AllSpace(gap) && (rest != [] ==> !IsSpace(rest[0]))
  {
    var t := FindTerminator(s, 0);
    LStripShorter(s[t + 1..]);
    rest := LStrip(s[t + 1..]);
    gap := LStripIs(s[t + 1..]);
    hide LStrip, FindTerminator, IsSpace, AllSpace;
    assert s == s[..t + 1] + s[t + 1..];
  }

  lemma SentenceEnds(s: Text, gap: Text, rest: Text, next: Text)
    requires FindTerminator(s, 0) < |s| && AllSpace(gap) && (rest != [] ==> !IsSpace(rest[0])) && next <= rest
    ensures CleanEnd(s[..FindTerminator(s, 0) + 1], gap, next)
  {
    hide FindTerminator, AllSpace, IsSpace, EndsSentence;
    FindTerminatorIs(s, 0);
    var front := s[..FindTerminator(s, 0) + 1];
    assert Last(front) == s[FindTerminator(s, 0)] && Init(front) == s[..FindTerminator(s, 0)];
  }

  lemma SentenceBefore(front: Text, gap: Text, rest: Text, pieces: seq<Text>, gaps: seq<Text>)
    requires SplitAtEnds(rest, pieces, gaps) && CleanEnd(front, gap, pieces[0])
    ensures SplitAtEnds(front + gap + rest, [front] + pieces, [gap] + gaps)
  {
    WeaveFront(front, gap, pieces, gaps);
    hide Weave, CleanEnd, NoEnd;
    forall k | 0 <= k < |gaps| + 1 ensures CleanEnd(([front] + pieces)[k], ([gap] + gaps)[k], ([front] + pieces)[k + 1]) {
      if k > 0 {
        assert CleanEnd(pieces[k - 1], gaps[k - 1], pieces[k]);
      }
    }
  }

  // ---- words ----

  predicate IsWord(w: Text) {
    w != [] && NoSpace(w)
  }

  /** Runs of whitespace stand between the words, before the first and behind the last. */
  ghost predicate SplitAtSpace(s: Text, words: seq<Text>, lead: Text, gaps: seq<Text>, trail: Text) {
    && AllSpace(lead) && AllSpace(trail) && (forall w :: w in words ==> IsWord(w))
    && (words == [] ==> gaps == [] && s == lead + trail)
    && (words != [] ==> |words| == |gaps| + 1 && s == lead + Weave(words, gaps) + trail)
    && forall k :: 0 <= k < |gaps| ==> gaps[k] != [] && AllSpace(gaps[k])
  }

  lemma {:induction false} WordsMean(s: Text) returns (lead: Text, gaps: seq<Text>, trail: Text)
    ensures SplitAtSpace(s, Words(s), lead, gaps, trail)
    ensures s != [] && !IsSpace(s[0]) ==> lead == []
    decreases |s|
  {
    hide *;
    if s == [] {
      NoWords();
      lead, gaps, trail := [], [], [];
    } else if IsSpace(s[0]) {
      lead, gaps, trail := WordsMean(s[1..]);
      SpaceIsNoWord(s);
      assert s == [s[0]] + s[1..];
      SpaceBefore(s[0], s[1..], Words(s[1..]), lead, gaps, trail);
      lead := [s[0]] + lead;
    } else {
      var n := FirstWord(s);
      var rest := s[n..];
      lead, gaps, trail := WordsMean(rest);
      assert s == s[..n] + rest;
      WordBefore(s[..n], rest, Words(rest), lead, gaps, trail);
      if Words(rest) == [] {
        lead, gaps, trail := [], [], rest;
        NothingAdded([s[..n]]);
      } else {
        lead, gaps := [], [lead] + gaps;
      }
    }
  }

  lemma NoWords()
    ensures SplitAtSpace([], Words([]), [], [], [])
  {
  }

  lemma SpaceIsNoWord(s: Text)
    requires s != [] && IsSpace(s[0])
    ensures Words(s) == Words(s[1..])
  {
  }

  lemma FirstWord(s: Text) returns (n: nat)
    requires s != [] && !IsSpace(s[0])
    ensures 0 < n <= |s| && IsWord(s[..n]) && (n < |s| ==> IsSpace(s[n])) && Words(s) == [s[..n]] + Words(s[n..])
  {
    n := WordLength(s);
  }

  lemma SpaceBefore(c: Ch, s: Text, words: seq<Text>, lead: Text, gaps: seq<Text>, trail: Text)
    requires IsSpace(c) && SplitAtSpace(s, words, lead, gaps, trail)
    ensures SplitAtSpace([c] + s, words, [c] + lead, gaps, trail)
  {
    hide IsWord, Weave;
    if words == [] {
      assert [c] + s == ([c] + lead) + trail;
    } else {
      assert [c] + s == ([c] + lead) + Weave(words, gaps) + trail;
    }
  }

  lemma WordBefore(word: Text, rest: Text, words: seq<Text>, lead: Text, gaps: seq<Text>, trail: Text)
    requires IsWord(word) && (rest != [] ==> IsSpace(rest[0])) && SplitAtSpace(rest, words, lead, gaps, trail)
    ensures words == [] ==> SplitAtSpace(word + rest, [word], [], [], rest)
    ensures words != [] ==> SplitAtSpace(word + rest, [word] + words, [], [lead] + gaps, trail)
  {
    if words == [] {
      assert word + rest == [] + word + rest;
      assert Weave([word], []) == word;
    } else {
      if lead == [] {
        NoLead(rest, words, gaps, trail);
        assert false;
      }
      hide Weave, IsWord;
      WeaveFront(word, lead, words, gaps);
      assert word + rest == [] + (word + lead + Weave(words, gaps)) + trail;
    }
  }

  lemma NoLead(rest: Text, words: seq<Text>, gaps: seq<Text>, trail: Text)
    requires words != [] && SplitAtSpace(rest, words, [], gaps, trail)
    ensures rest != [] && !IsSpace(rest[0])
  {
    WeaveStarts(words, gaps);
    assert words[0] in words && words[0][0] in words[0];
    assert rest[0] == words[0][0];
  }

  lemma WeaveStarts(pieces: seq<Text>, gaps: seq<Text>)
    requires |pieces| == |gaps| + 1
    ensures pieces[0] <= Weave(pieces, gaps)
  {
  }

  // ---- tokens ----

  /** A run of word characters that opens with one that is not CJK, or one character that is neither of these nor a space. */
  predicate IsAtom(t: Text) {
    t != [] && if t[0].kind == Word then forall i :: 0 <= i < |t| ==> IsWordChar(t[i]) else |t| == 1 && t[0].kind != Space
  }

  predicate AllBlank(s: Text) {
    forall i :: 0 <= i < |s| ==> s[i].kind == Space
  }

  /** Where a run meets the next token with nothing between them, that token does not start with a word character. */
  predicate RunEnds(t: Text, gap: Text, next: Text) {
    t != [] && t[0].kind == Word && gap == [] && next != [] ==> !IsWordChar(next[0])
  }

  ghost predicate Tokenised(s: Text, tokens: seq<Text>, lead: Text, gaps: seq<Text>, trail: Text) {
    && AllBlank(lead) && AllBlank(trail) && (forall t :: t in tokens ==> IsAtom(t))
    && (tokens == [] ==> gaps == [] && s == lead + trail)
    && (tokens != [] ==> |tokens| == |gaps| + 1 && s == lead + Weave(tokens, gaps) + trail)
    && forall k :: 0 <= k < |gaps| ==> AllBlank(gaps[k]) && RunEnds(tokens[k], gaps[k], tokens[k + 1])
  }

  lemma {:induction false} TokensMean(s: Text) returns (lead: Text, gaps: seq<Text>, trail: Text)
    ensures Tokenised(s, Tokens(s), lead, gaps, trail)
    decreases |s|
  {
    hide *;
    if s == [] {
      NoTokens();
      lead, gaps, trail := [], [], [];
    } else if s[0].kind == Space {
      lead, gaps, trail := TokensMean(s[1..]);
      SpaceIsNoToken(s);
      assert s == [s[0]] + s[1..];
      BlankBefore(s[0], s[1..], Tokens(s[1..]), lead, gaps, trail);
      lead := [s[0]] + lead;
    } else {
      var n := FirstToken(s);
      var rest := s[n..];
      lead, gaps, trail := TokensMean(rest);
      assert s == s[..n] + rest;
      TokenBefore(s[..n], rest, Tokens(rest), lead, gaps, trail);
      if Tokens(rest) == [] {
        lead, gaps, trail := [], [], rest;
        NothingAdded([s[..n]]);
      } else {
        lead, gaps := [], [lead] + gaps;
      }
    }
  }

  lemma NoTokens()
    ensures Tokenised([], Tokens([]), [], [], [])
  {
  }

  lemma SpaceIsNoToken(s: Text)
    requires s != [] && s[0].kind == Space
    ensures Tokens(s) == Tokens(s[1..])
  {
  }

  lemma FirstToken(s: Text) returns (n: nat)
    requires s != [] && s[0].kind != Space
    ensures 0 < n <= |s| && Tokens(s) == [s[..n]] + Tokens(s[n..]) && IsAtom(s[..n]) && s[..n][0] == s[0]
    ensures s[0].kind == Word && s[n..] != [] ==> !IsWordChar(s[n..][0])
  {
    n := if s[0].kind == Word then RunLength(s) else 1;
    TokensStep(s, n);
  }

  lemma BlankBefore(c: Ch, s: Text, tokens: seq<Text>, lead: Text, gaps: seq<Text>, trail: Text)
    requires c.kind == Space && Tokenised(s, tokens, lead, gaps, trail)
    ensures Tokenised([c] + s, tokens, [c] + lead, gaps, trail)
  {
    hide IsAtom, Weave, RunEnds;
    if tokens == [] {
      assert [c] + s == ([c] + lead) + trail;
    } else {
      assert [c] + s == ([c] + lead) + Weave(tokens, gaps) + trail;
    }
  }

  lemma TokenBefore(t: Text, rest: Text, tokens: seq<Text>, lead: Text, gaps: seq<Text>, trail: Text)
    requires IsAtom(t) && Tokenised(rest, tokens, lead, gaps, trail)
    requires t[0].kind == Word && rest != [] ==> !IsWordChar(rest[0])
    ensures tokens == [] ==> Tokenised(t + rest, [t], [], [], rest)
    ensures tokens != [] ==> Tokenised(t + rest, [t] + tokens, [], [lead] + gaps, trail)
  {
    if tokens == [] {
      assert t + rest == [] + t + rest;
      assert Weave([t], []) == t;
    } else {
      WeaveStarts(tokens, gaps);
      assert tokens[0] in tokens;
      assert RunEnds(t, lead, tokens[0]) by {
        if lead == [] {
          assert rest[0] == tokens[0][0];
        }
      }
      hide Weave, IsAtom, RunEnds;
      WeaveFront(t, lead, tokens, gaps);
      assert t + rest == [] + (t + lead + Weave(tokens, gaps)) + trail;
    }
  }

  // ---- joins and slices ----

  /** Between the parts stands one separator. */
  lemma {:induction false} JoinMeans(parts: seq<Text>, sep: Ch)
    requires parts != []
    ensures Join(parts, sep) == Weave(parts, seq(|parts| - 1, _ => [sep]))
  {
    if |parts| == 1 {
      assert Weave(parts, []) == parts[0];
      assert seq(0, _ => [sep]) == [];
    } else {
      var init, last := Init(parts), Last(parts);
      var gaps := seq(|init| - 1, _ => [sep]);
      JoinMeans(init, sep);
      WeaveBack(init, gaps, [sep], last);
      assert parts == init + [last];
      assert seq(|parts| - 1, _ => [sep]) == gaps + [[sep]];
    }
  }

  lemma {:induction false} WeaveBack(pieces: seq<Text>, gaps: seq<Text>, gap: Text, piece: Text)
    requires |pieces| == |gaps| + 1
    ensures Weave(pieces + [piece], gaps + [gap]) == Weave(pieces, gaps) + gap + piece
  {
    if gaps == [] {
      assert (pieces + [piece])[1..] == [piece] && (gaps + [gap])[1..] == [];
      assert Weave([piece], []) == piece;
    } else {
      WeaveBack(pieces[1..], gaps[1..], gap, piece);
      assert (pieces + [piece])[1..] == pieces[1..] + [piece] && (gaps + [gap])[1..] == gaps[1..] + [gap];
    }
  }

  /** Every character slice but the last holds exactly the target. */
  lemma CharSplitIsFull(s: Text, target: nat, k: nat)
    requires NoSpace(s) && target > 0 && k + 1 < |CharSplit(s, target)|
    ensures EstimateTokens(CharSplit(s, target)[k]) == target
  {
    TokensSpell(s);
    SliceIsFull(Tokens(s), target, k);
  }

  lemma {:induction false} SliceIsFull(tokens: seq<Text>, target: nat, k: nat)
    requires Separate(tokens) && target > 0 && k + 1 < |CharSlices(tokens, target)|
    ensures EstimateTokens(CharSlices(tokens, target)[k]) == target
    decreases |tokens|
  {
    SeparateParts(tokens, target);
    if k == 0 {
      Retokenises(tokens[..target]);
    } else {
      SliceIsFull(tokens[target..], target, k - 1);
    }
  }

  // ---- the hard split ----

  /** A run of words in one slice, or one word cut up. */
  datatype Group = Together(start: nat, end: nat) | Cut(index: nat)

  function StartOf(g: Group): nat { if g.Together? then g.start else g.index }

  function EndOf(g: Group): nat { if g.Together? then g.end else g.index + 1 }

  function WordSum(words: seq<Text>, i: nat, j: nat): nat
    requires i <= j <= |words|
  {
    SumTokens(words[i..j])
  }

  /** Words go together while they fit; the next one would not, or is itself too large. A cut word is too large. */
  predicate GroupFits(words: seq<Text>, target: nat, g: Group) {
    match g
    case Together(i, j) =>
      && i < j <= |words| && WordSum(words, i, j) <= target
      && (j < |words| ==> EstimateTokens(words[j]) > target || WordSum(words, i, j) + EstimateTokens(words[j]) > target)
    case Cut(i) => i < |words| && EstimateTokens(words[i]) > target
  }

  function SlicesOf(words: seq<Text>, target: nat, g: Group): seq<Text>
    requires target > 0 && StartOf(g) < EndOf(g) <= |words|
  {
    match g
    case Together(i, j) => [Join(words[i..j], Ch(' ', Space))]
    case Cut(i) => CharSplit(words[i], target)
  }

  /** The groups take the words in order, up to `upTo`. */
  ghost predicate Covers(groups: seq<Group>, upTo: nat) {
    && (groups == [] ==> upTo == 0)
    && (groups != [] ==> StartOf(groups[0]) == 0 && EndOf(groups[|groups| - 1]) == upTo)
    && forall k :: 0 <= k < |groups| - 1 ==> EndOf(groups[k]) == StartOf(groups[k + 1])
  }

  function AllSlices(words: seq<Text>, target: nat, groups: seq<Group>): seq<Text>
    requires target > 0 && forall k :: 0 <= k < |groups| ==> StartOf(groups[k]) < EndOf(groups[k]) <= |words|
  {
    if groups == [] then []
    else AllSlices(words, target, groups[..|groups| - 1]) + SlicesOf(words, target, groups[|groups| - 1])
  }

  /** The slices of a hard split are those of such a grouping. */
  ghost predicate Grouped(words: seq<Text>, target: nat, slices: seq<Text>, groups: seq<Group>, upTo: nat)
    requires target > 0
  {
    && upTo <= |words| && Covers(groups, upTo)
    && (forall k :: 0 <= k < |groups| ==> GroupFits(words, target, groups[k]) && StartOf(groups[k]) < EndOf(groups[k]) <= |words|)
    && slices == AllSlices(words, target, groups)
  }

  lemma GroupedMore(words: seq<Text>, target: nat, slices: seq<Text>, groups: seq<Group>, upTo: nat, g: Group)
    requires target > 0 && Grouped(words, target, slices, groups, upTo)
    requires StartOf(g) == upTo && GroupFits(words, target, g)
    ensures StartOf(g) < EndOf(g) <= |words|
    ensures Grouped(words, target, slices + SlicesOf(words, target, g), groups + [g], EndOf(g))
  {
    hide SlicesOf, GroupFits;
    assert StartOf(g) < EndOf(g) <= |words| by { GroupIsRange(words, target, g); }
    var more := groups + [g];
    assert more[..|more| - 1] == groups;
  }

  lemma GroupIsRange(words: seq<Text>, target: nat, g: Group)
    requires GroupFits(words, target, g)
    ensures StartOf(g) < EndOf(g) <= |words|
  {
  }

  /** The packing state after the first `i` words: finished groups, and the words since, which still fit. */
  ghost predicate Packed(words: seq<Text>, target: nat, i: nat, p: Packing, groups: seq<Group>, start: nat)
    requires target > 0
  {
    && start <= i <= |words| && p.current == words[start..i] && SumTokens(p.current) <= target
    && Grouped(words, target, p.slices, groups, start)
  }

  /** Close the words since, when the next one does not fit or there is none. */
  lemma CloseGroup(words: seq<Text>, target: nat, i: nat, p: Packing, groups: seq<Group>, start: nat) returns (groups': seq<Group>)
    requires target > 0 && Packed(words, target, i, p, groups, start)
    requires i < |words| ==> p.current == [] || EstimateTokens(words[i]) > target || SumTokens(p.current) + EstimateTokens(words[i]) > target
    ensures Grouped(words, target, Closed(p), groups', i)
  {
    hide Grouped, Join, SumTokens, EstimateTokens;
    if p.current == [] {
      groups' := groups;
    } else {
      GroupedMore(words, target, p.slices, groups, start, Together(start, i));
      groups' := groups + [Together(start, i)];
    }
  }

  /** One word more: cut up, opening a new slice, or put with the words since. */
  lemma AddWordMeans(words: seq<Text>, target: nat, i: nat, p: Packing, groups: seq<Group>, start: nat)
      returns (groups': seq<Group>, start': nat)
    requires target > 0 && i < |words| && Packed(words, target, i, p, groups, start)
    ensures Packed(words, target, i + 1, AddWord(p, words[i], target), groups', start')
  {
    var word := words[i];
    if EstimateTokens(word) > target {
      var closed := CloseGroup(words, target, i, p, groups, start);
      groups', start' := closed + [Cut(i)], i + 1;
      CutWord(words, target, i, p, closed);
    } else if p.current != [] && SumTokens(p.current) + EstimateTokens(word) > target {
      groups' := CloseGroup(words, target, i, p, groups, start);
      start' := i;
      FreshWord(words, target, i, p, groups');
    } else {
      groups', start' := groups, start;
      SameSlice(words, target, i, p, groups, start);
    }
  }

  lemma CutWord(words: seq<Text>, target: nat, i: nat, p: Packing, groups: seq<Group>)
    requires target > 0 && i < |words| && Grouped(words, target, Closed(p), groups, i) && EstimateTokens(words[i]) > target
    ensures Packed(words, target, i + 1, AddWord(p, words[i], target), groups + [Cut(i)], i + 1)
  {
    GroupedMore(words, target, Closed(p), groups, i, Cut(i));
    hide Grouped, CharSplit, EstimateTokens, Closed;
    assert words[i + 1..i + 1] == [] && SumTokens([]) == 0;
  }

  lemma FreshWord(words: seq<Text>, target: nat, i: nat, p: Packing, groups: seq<Group>)
    requires target > 0 && i < |words| && Grouped(words, target, Closed(p), groups, i)
    requires EstimateTokens(words[i]) <= target && p.current != [] && SumTokens(p.current) + EstimateTokens(words[i]) > target
    ensures Packed(words, target, i + 1, AddWord(p, words[i], target), groups, i)
  {
    hide Grouped, CharSplit, EstimateTokens, Closed, SumTokens;
    SumOfOne(words[i]);
    assert words[i..i + 1] == [words[i]];
  }

  lemma SameSlice(words: seq<Text>, target: nat, i: nat, p: Packing, groups: seq<Group>, start: nat)
    requires target > 0 && i < |words| && Packed(words, target, i, p, groups, start)
    requires EstimateTokens(words[i]) <= target && !(p.current != [] && SumTokens(p.current) + EstimateTokens(words[i]) > target)
    ensures Packed(words, target, i + 1, AddWord(p, words[i], target), groups, start)
  {
    hide Grouped, CharSplit, EstimateTokens, Closed, SumTokens;
    SumSnoc(p.current, words[i]);
    assert words[start..i + 1] == words[start..i] + [words[i]];
    assert p.current == [] ==> SumTokens(p.current) == 0;
  }

  lemma {:induction false} PackedMean(words: seq<Text>, target: nat, i: nat) returns (groups: seq<Group>, start: nat)
    requires target > 0 && i <= |words|
    ensures Packed(words, target, i, PackedWords(words[..i], target), groups, start)
  {
    hide *;
    if i == 0 {
      groups, start := [], 0;
      NothingGrouped(words, target);
    } else {
      groups, start := PackedMean(words, target, i - 1);
      PackedStep(words, i - 1, target);
      groups, start := AddWordMeans(words, target, i - 1, PackedWords(words[..i - 1], target), groups, start);
    }
  }

  lemma NothingGrouped(words: seq<Text>, target: nat)
    requires target > 0
    ensures Packed(words, target, 0, PackedWords(words[..0], target), [], 0)
  {
    assert words[0..0] == [];
  }

  /**
   A hard split of more than one word: the words in order, together while they fit the target, a word that is too large
   cut up by itself. A single word is cut up.
   */
  lemma HardSlicesMean(s: Text, target: nat) returns (groups: seq<Group>)
    requires target > 0
    ensures |Words(s)| <= 1 ==> HardSlices(s, target) == CharSplit(s, target)
    ensures |Words(s)| > 1 ==> Grouped(Words(s), target, HardSlices(s, target), groups, |Words(s)|)
  {
    hide Grouped, CharSplit, SumTokens, EstimateTokens, PackedWords, Words, Closed;
    var words := Words(s);
    var start;
    groups, start := PackedMean(words, target, |words|);
    assert words[..|words|] == words;
    groups := CloseGroup(words, target, |words|, PackedWords(words, target), groups, start);
  }

  // ---- segments ----

  /** What a stripped sentence gives. */
  ghost predicate SentenceGives(sentence: Text, target: nat, part: seq<Text>)
    requires target > 0
  {
    var s := Strip(sentence);
    && (s == [] ==> part == [])
    && (s != [] && EstimateTokens(s) <= target ==> part == [s])
    && (EstimateTokens(s) > target ==> part == HardSlices(s, target))
  }

  /** What a stripped paragraph gives: itself if it fits, else what its sentences give, in order. */
  ghost predicate ParagraphGives(para: Text, target: nat, part: seq<Text>)
    requires target > 0
  {
    var p := Strip(para);
    && (p == [] ==> part == [])
    && (p != [] && EstimateTokens(p) <= target ==> part == [p])
    && (p != [] && EstimateTokens(p) > target ==> exists parts: seq<seq<Text>> :: SentencesGive(Sentences(p), target, parts, part))
  }

  ghost predicate SentencesGive(sentences: seq<Text>, target: nat, parts: seq<seq<Text>>, all: seq<Text>)
    requires target > 0
  {
    && |parts| == |sentences| && all == Flat(parts)
    && forall k :: 0 <= k < |parts| ==> SentenceGives(sentences[k], target, parts[k])
  }

  function Flat<T>(parts: seq<seq<T>>): seq<T> {
    if parts == [] then [] else Flat(parts[..|parts| - 1]) + parts[|parts| - 1]
  }

  lemma FlatMore<T>(parts: seq<seq<T>>, part: seq<T>)
    ensures Flat(parts + [part]) == Flat(parts) + part
  {
    assert (parts + [part])[..|parts|] == parts;
  }

  lemma OneSentenceMore(sentences: seq<Text>, target: nat, parts: seq<seq<Text>>, all: seq<Text>, sentence: Text, part: seq<Text>)
    requires target > 0 && SentencesGive(sentences, target, parts, all) && SentenceGives(sentence, target, part)
    ensures SentencesGive(sentences + [sentence], target, parts + [part], all + part)
  {
    hide SentenceGives, Flat;
    FlatMore(parts, part);
  }

  lemma NoSentences(target: nat)
    requires target > 0
    ensures SentencesGive([], target, [], SentenceSegments([], target))
  {
  }

  lemma LastPart(sentences: seq<Text>, target: nat)
    requires target > 0 && sentences != []
    ensures SentenceSegments(sentences, target) == SentenceSegments(Init(sentences), target) + SentencePart(Last(sentences), target)
  {
    hide SentencePart;
  }

  lemma {:induction false} SentencesMeanParts(sentences: seq<Text>, target: nat) returns (parts: seq<seq<Text>>)
    requires target > 0
    ensures SentencesGive(sentences, target, parts, SentenceSegments(sentences, target))
    decreases |sentences|
  {
    hide *;
    if sentences == [] {
      parts := [];
      NoSentences(target);
    } else {
      var init, last := Init(sentences), Last(sentences);
      parts := SentencesMeanParts(init, target);
      SentenceIs(last, target);
      OneSentenceMore(init, target, parts, SentenceSegments(init, target), last, SentencePart(last, target));
      LastPart(sentences, target);
      parts := parts + [SentencePart(last, target)];
      InitLast(sentences);
    }
  }

  lemma InitLast<T>(s: seq<T>)
    requires s != []
    ensures Init(s) + [Last(s)] == s
  {
  }

  lemma SentenceIs(sentence: Text, target: nat)
    requires target > 0
    ensures SentenceGives(sentence, target, SentencePart(sentence, target))
  {
    hide HardSlices, Strip;
    assert Tokens([]) == [];
  }

  lemma ParagraphIs(para: Text, target: nat)
    requires target > 0
    ensures ParagraphGives(para, target, ParagraphPart(para, target))
  {
    hide Strip, Sentences, SentencesGive, SentenceSegments;
    var p := Strip(para);
    if p != [] && EstimateTokens(p) > target {
      var parts := SentencesMeanParts(Sentences(p), target);
    }
  }

  /** What a list of paragraphs gives, one after the other. */
  ghost predicate ParagraphsGive(paras: seq<Text>, target: nat, parts: seq<seq<Text>>, all: seq<Text>)
    requires target > 0
  {
    && |parts| == |paras| && all == Flat(parts)
    && forall k :: 0 <= k < |parts| ==> ParagraphGives(paras[k], target, parts[k])
  }

  lemma OneParagraphMore(paras: seq<Text>, target: nat, parts: seq<seq<Text>>, all: seq<Text>, para: Text, part: seq<Text>)
    requires target > 0 && ParagraphsGive(paras, target, parts, all) && ParagraphGives(para, target, part)
    ensures ParagraphsGive(paras + [para], target, parts + [part], all + part)
  {
    hide ParagraphGives, Flat;
    FlatMore(parts, part);
  }

  lemma NoParagraphs(target: nat)
    requires target > 0
    ensures ParagraphsGive([], target, [], ParagraphSegments([], target))
  {
  }

  lemma LastParagraph(paras: seq<Text>, target: nat)
    requires target > 0 && paras != []
    ensures ParagraphSegments(paras, target) == ParagraphSegments(Init(paras), target) + ParagraphPart(Last(paras), target)
  {
    hide ParagraphPart;
  }

  lemma {:induction false} ParagraphsMeanParts(paras: seq<Text>, target: nat) returns (parts: seq<seq<Text>>)
    requires target > 0
    ensures ParagraphsGive(paras, target, parts, ParagraphSegments(paras, target))
    decreases |paras|
  {
    hide *;
    if paras == [] {
      parts := [];
      NoParagraphs(target);
    } else {
      var init, last := Init(paras), Last(paras);
      parts := ParagraphsMeanParts(init, target);
      ParagraphIs(last, target);
      OneParagraphMore(init, target, parts, ParagraphSegments(init, target), last, ParagraphPart(last, target));
      LastParagraph(paras, target);
      parts := parts + [ParagraphPart(last, target)];
      InitLast(paras);
    }
  }

  /** Segmentation, from the paragraphs down. */
  lemma SegmentsMean(text: Text, target: nat) returns (paras: seq<Text>, gaps: seq<Text>, parts: seq<seq<Text>>)
    requires target > 0
    ensures SplitAtBreaks(text, paras, gaps) && ParagraphsGive(paras, target, parts, SegmentsOf(text, target))
  {
    hide SplitAtBreaks, ParagraphsGive, Paragraphs, ParagraphSegments;
    paras := Paragraphs(text);
    gaps := ParagraphsMean(text);
    parts := ParagraphsMeanParts(paras, target);
  }
}

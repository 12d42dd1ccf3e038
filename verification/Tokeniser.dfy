/**
 The estimated tokeniser of memory_core/chunking.py: a token is one CJK character, a maximal word run, or one
 punctuation mark. A word run may run on into CJK letters, which are word characters too.

 A character carries its class, so nothing here depends on Unicode tables; the ideographic space is the one
 character that is both CJK and whitespace.
 */
module Tokeniser {

  datatype Kind = Word | CjkLetter | CjkSpace | CjkMark | Space | Mark

  datatype Ch = Ch(code: char, kind: Kind)

  type Text = seq<Ch>

  const BLANK: Ch := Ch(' ', Space)
  const NEWLINE: Ch := Ch('\n', Space)

  predicate IsWordChar(c: Ch) { c.kind in {Word, CjkLetter} }

  predicate IsSpace(c: Ch) { c.kind in {Space, CjkSpace} }

  predicate NoSpace(s: Text) {
    forall c :: c in s ==> !IsSpace(c)
  }

  /** The length of the word run at the front of `s`. */
  function RunLength(s: Text): (n: nat)
    ensures n <= |s|
    ensures forall i :: 0 <= i < n ==> IsWordChar(s[i])
    ensures n < |s| ==> !IsWordChar(s[n])
  {
    if s == [] || !IsWordChar(s[0]) then 0 else 1 + RunLength(s[1..])
  }

  function Tokens(s: Text): seq<Text>
    decreases |s|
  {
    if s == [] then []
    else if s[0].kind == Word then [s[..RunLength(s)]] + Tokens(s[RunLength(s)..])
    else if s[0].kind == Space then Tokens(s[1..])
    else [s[..1]] + Tokens(s[1..])
  }

  function EstimateTokens(s: Text): nat {
    |Tokens(s)|
  }

  /** The same count one character at a time; `inRun` says whether a word run is open. */
  function Count(s: Text, inRun: bool): nat {
    if s == [] then 0
    else if inRun && IsWordChar(s[0]) then Count(s[1..], true)
    else if s[0].kind == Word then 1 + Count(s[1..], true)
    else if s[0].kind == Space then Count(s[1..], false)
    else 1 + Count(s[1..], false)
  }

  lemma {:induction false} CountIsEstimate(s: Text)
    ensures EstimateTokens(s) == Count(s, false)
    decreases |s|
  {
    if s != [] {
      if s[0].kind == Word {
        RunIsOneToken(s[1..]);
        assert s[RunLength(s)..] == s[1..][RunLength(s[1..])..];
        CountIsEstimate(s[RunLength(s)..]);
      } else {
        CountIsEstimate(s[1..]);
      }
    }
  }

  lemma {:induction false} RunIsOneToken(s: Text)
    ensures Count(s, true) == Count(s[RunLength(s)..], false)
  {
    if s != [] && IsWordChar(s[0]) {
      RunIsOneToken(s[1..]);
      assert s[RunLength(s)..] == s[1..][RunLength(s[1..])..];
    } else {
      assert s[0..] == s;
    }
  }

  /** Token counts are additive over a whitespace join. */
  lemma {:induction false} CountOverSpace(a: Text, c: Ch, b: Text, inRun: bool)
    requires c.kind == Space
    ensures Count(a + [c] + b, inRun) == Count(a, inRun) + Count(b, false)
  {
    if a == [] {
      assert (a + [c] + b)[1..] == b;
    } else {
      assert (a + [c] + b)[1..] == a[1..] + [c] + b;
      CountOverSpace(a[1..], c, b, (inRun && IsWordChar(a[0])) || a[0].kind == Word);
    }
  }

  lemma EstimateOverSpace(a: Text, c: Ch, b: Text)
    requires c.kind == Space
    ensures EstimateTokens(a + [c] + b) == EstimateTokens(a) + EstimateTokens(b)
  {
    CountIsEstimate(a);
    CountIsEstimate(b);
    CountIsEstimate(a + [c] + b);
    CountOverSpace(a, c, b, false);
  }

  // ---- joins ----

  function Concat(parts: seq<Text>): Text {
    if parts == [] then [] else Concat(parts[..|parts| - 1]) + parts[|parts| - 1]
  }

  /** `sep.join(parts)` for a one-character separator. */
  function Join(parts: seq<Text>, sep: Ch): Text {
    if parts == [] then []
    else if |parts| == 1 then parts[0]
    else Join(parts[..|parts| - 1], sep) + [sep] + parts[|parts| - 1]
  }

  function SumTokens(parts: seq<Text>): nat {
    if parts == [] then 0 else SumTokens(parts[..|parts| - 1]) + EstimateTokens(parts[|parts| - 1])
  }

  lemma {:induction false} JoinEstimate(parts: seq<Text>, sep: Ch)
    requires sep.kind == Space
    ensures EstimateTokens(Join(parts, sep)) == SumTokens(parts)
  {
    if |parts| == 1 {
      assert parts[..0] == [];
    } else if parts != [] {
      JoinEstimate(parts[..|parts| - 1], sep);
      EstimateOverSpace(Join(parts[..|parts| - 1], sep), sep, parts[|parts| - 1]);
    }
  }

  // ---- whitespace-free content ----

  function Squeeze(s: Text): (r: Text)
    ensures NoSpace(r) && forall c :: c in r ==> c in s
  {
    if s == [] then []
    else if IsSpace(s[|s| - 1]) then Squeeze(s[..|s| - 1])
    else Squeeze(s[..|s| - 1]) + [s[|s| - 1]]
  }

  lemma {:induction false} SqueezeConcat(a: Text, b: Text)
    ensures Squeeze(a + b) == Squeeze(a) + Squeeze(b)
  {
    if b == [] {
      assert a + b == a;
    } else {
      assert (a + b)[..|a + b| - 1] == a + b[..|b| - 1];
      SqueezeConcat(a, b[..|b| - 1]);
    }
  }

  lemma {:induction false} SqueezeNothing(s: Text)
    requires NoSpace(s)
    ensures Squeeze(s) == s
  {
    if s != [] {
      SqueezeNothing(s[..|s| - 1]);
    }
  }

  lemma {:induction false} SqueezeAll(s: Text)
    requires forall c :: c in s ==> IsSpace(c)
    ensures Squeeze(s) == []
  {
    if s != [] {
      SqueezeAll(s[..|s| - 1]);
    }
  }

  lemma {:induction false} SqueezeJoin(parts: seq<Text>, sep: Ch)
    requires IsSpace(sep)
    ensures Squeeze(Join(parts, sep)) == Squeeze(Concat(parts))
  {
    if |parts| == 1 {
      assert parts[..0] == [] && Concat(parts) == [] + parts[0];
      assert [] + parts[0] == parts[0];
    } else if parts != [] {
      var init, last := parts[..|parts| - 1], parts[|parts| - 1];
      SqueezeJoin(init, sep);
      SqueezeConcat(Join(init, sep), [sep]);
      SqueezeConcat(Join(init, sep) + [sep], last);
      SqueezeConcat(Concat(init), last);
      assert [sep][..0] == [];
      assert Squeeze([sep]) == [];
      assert Squeeze(Join(init, sep)) + [] == Squeeze(Join(init, sep));
    }
  }

  /** Text with any content has a token. */
  lemma {:induction false} ContentHasToken(s: Text)
    requires Squeeze(s) != []
    ensures EstimateTokens(s) > 0
  {
    CountIsEstimate(s);
    var c := Squeeze(s)[0];
    assert c in Squeeze(s);
    var i :| 0 <= i < |s| && s[i] == c;
    CountPositive(s, i);
  }

  lemma {:induction false} CountPositive(s: Text, i: nat)
    requires i < |s| && !IsSpace(s[i])
    ensures Count(s, false) > 0
  {
    if i > 0 && s[0].kind == Space {
      CountPositive(s[1..], i - 1);
    }
  }

  // ---- the character split ----

  function CharSlices(tokens: seq<Text>, target: nat): seq<Text>
    requires target > 0
    decreases |tokens|
  {
    if tokens == [] then []
    else if |tokens| <= target then [Concat(tokens)]
    else [Concat(tokens[..target])] + CharSlices(tokens[target..], target)
  }

  /** Slices of `target` tokens each, for text without usable whitespace. */
  function CharSplit(s: Text, target: nat): seq<Text>
    requires target > 0
  {
    CharSlices(Tokens(s), target)
  }

  predicate IsToken(t: Text) {
    && t != []
    && (if t[0].kind == Word then forall i :: 0 <= i < |t| ==> IsWordChar(t[i]) else |t| == 1 && t[0].kind != Space)
  }

  /** Tokens that stay apart when written one after the other. */
  predicate Separate(tokens: seq<Text>) {
    && (forall i :: 0 <= i < |tokens| ==> IsToken(tokens[i]))
    && forall i :: 0 <= i < |tokens| - 1 ==> tokens[i][0].kind == Word ==> !IsWordChar(tokens[i + 1][0])
  }

  lemma {:induction false} ConcatFront(parts: seq<Text>)
    requires parts != []
    ensures Concat(parts) == parts[0] + Concat(parts[1..])
  {
    var k := |parts| - 1;
    assert Concat(parts) == Concat(parts[..k]) + parts[k];
    if k == 0 {
      assert parts[..0] == [] && parts[1..] == [];
      assert [] + parts[0] == parts[0] + [];
    } else {
      assert Concat(parts[1..]) == Concat(parts[..k][1..]) + parts[k] by {
        assert parts[1..][..k - 1] == parts[..k][1..];
      }
      hide Concat;
      ConcatFront(parts[..k]);
      assert (parts[0] + Concat(parts[..k][1..])) + parts[k] == parts[0] + (Concat(parts[..k][1..]) + parts[k]);
    }
  }

  lemma {:induction false} ConcatOfConcat(a: seq<Text>, b: seq<Text>)
    ensures Concat(a + b) == Concat(a) + Concat(b)
  {
    if b == [] {
      assert a + b == a;
    } else {
      assert (a + b)[..|a + b| - 1] == a + b[..|b| - 1];
      ConcatOfConcat(a, b[..|b| - 1]);
    }
  }

  lemma TokensStep(s: Text, n: nat)
    requires s != [] && s[0].kind != Space && n == if s[0].kind == Word then RunLength(s) else 1
    ensures n > 0 && Tokens(s) == [s[..n]] + Tokens(s[n..])
  {
  }

  /** Space-free text is its tokens written one after the other, and they stay apart. */
  lemma {:induction false} TokensSpell(s: Text)
    requires NoSpace(s)
    ensures Concat(Tokens(s)) == s && Separate(Tokens(s))
    ensures s != [] ==> Tokens(s) != [] && Tokens(s)[0][0] == s[0]
    decreases |s|
  {
    if s != [] {
      assert s[0] in s;
      var n := if s[0].kind == Word then RunLength(s) else 1;
      var rest := s[n..];
      TokensStep(s, n);
      hide Tokens;
      assert s == s[..n] + rest;
      TokensSpell(rest);
      ConcatFront(Tokens(s));
      assert Tokens(s)[1..] == Tokens(rest);
    }
  }

  /** Written one after the other, tokens that stay apart are read back as the same tokens. */
  lemma {:induction false} Retokenises(tokens: seq<Text>)
    requires Separate(tokens)
    ensures Tokens(Concat(tokens)) == tokens
    decreases |tokens|
  {
    if tokens != [] {
      var t, rest := tokens[0], Concat(tokens[1..]);
      ConcatFront(tokens);
      assert Separate(tokens[1..]) by {
        assert forall i :: 0 <= i < |tokens| - 1 ==> tokens[1..][i] == tokens[i + 1];
      }
      Retokenises(tokens[1..]);
      if |tokens| > 1 {
        ConcatFront(tokens[1..]);
        assert rest[0] == tokens[1][0];
      }
      var s := t + rest;
      if t[0].kind == Word {
        RunIs(s, |t|);
      }
      assert s[..|t|] == t && s[|t|..] == rest;
    }
  }

  lemma {:induction false} RunIs(s: Text, n: nat)
    requires n <= |s| && (forall i :: 0 <= i < n ==> IsWordChar(s[i])) && (n < |s| ==> !IsWordChar(s[n]))
    ensures RunLength(s) == n
  {
    if n > 0 {
      RunIs(s[1..], n - 1);
    }
  }

  /** Character slices spell the text verbatim and re-estimate to at most the target. */
  lemma CharSplitIsExact(s: Text, target: nat)
    requires NoSpace(s) && target > 0
    ensures Concat(CharSplit(s, target)) == s
    ensures forall slice :: slice in CharSplit(s, target) ==> 0 < EstimateTokens(slice) <= target && NoSpace(slice)
  {
    TokensSpell(s);
    CharSlicesExact(Tokens(s), target);
  }

  lemma {:induction false} CharSlicesExact(tokens: seq<Text>, target: nat)
    requires Separate(tokens) && target > 0 && NoSpace(Concat(tokens))
    ensures Concat(CharSlices(tokens, target)) == Concat(tokens)
    ensures forall slice :: slice in CharSlices(tokens, target) ==> 0 < EstimateTokens(slice) <= target && NoSpace(slice)
    decreases |tokens|
  {
    if tokens == [] {
      return;
    }
    if |tokens| <= target {
      Retokenises(tokens);
      ConcatSingle(Concat(tokens));
      return;
    }
    var front, back := tokens[..target], tokens[target..];
    SeparateParts(tokens, target);
    assert tokens == front + back;
    ConcatOfConcat(front, back);
    NoSpaceParts(Concat(front), Concat(back));
    Retokenises(front);
    CharSlicesExact(back, target);
    SlicesStep(tokens, front, back, target);
  }

  lemma NoSpaceParts(a: Text, b: Text)
    requires NoSpace(a + b)
    ensures NoSpace(a) && NoSpace(b)
  {
    forall c | c in a ensures !IsSpace(c) { assert c in a + b; }
    forall c | c in b ensures !IsSpace(c) { assert c in a + b; }
  }

  lemma SeparateParts(tokens: seq<Text>, k: nat)
    requires Separate(tokens) && k <= |tokens|
    ensures Separate(tokens[..k]) && Separate(tokens[k..])
  {
    assert forall i :: 0 <= i < |tokens| - k ==> tokens[k..][i] == tokens[k + i];
  }

  lemma SlicesStep(tokens: seq<Text>, front: seq<Text>, back: seq<Text>, target: nat)
    requires 0 < target < |tokens| && front == tokens[..target] && back == tokens[target..]
    requires Tokens(Concat(front)) == front && NoSpace(Concat(front)) && Concat(CharSlices(back, target)) == Concat(back)
    requires forall slice :: slice in CharSlices(back, target) ==> 0 < EstimateTokens(slice) <= target && NoSpace(slice)
    ensures Concat(CharSlices(tokens, target)) == Concat(tokens)
    ensures forall slice :: slice in CharSlices(tokens, target) ==> 0 < EstimateTokens(slice) <= target && NoSpace(slice)
  {
    var slices := CharSlices(tokens, target);
    assert slices == [Concat(front)] + CharSlices(back, target) && slices[1..] == CharSlices(back, target);
    hide CharSlices, Tokens, Concat;
    assert tokens == front + back;
    ConcatOfConcat(front, back);
    ConcatFront(slices);
    assert EstimateTokens(Concat(front)) == target;
  }

  lemma ConcatSingle(s: Text)
    ensures Concat([s]) == s
  {
    assert [s][..0] == [] && [] + s == s;
  }
}

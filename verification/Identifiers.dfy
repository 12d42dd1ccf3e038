/**
 Prefixed ULIDs (the public ULID specification): 128 bits as 26 Crockford base-32 characters, the first 48 bits a
 timestamp in milliseconds.
 */
module Identifiers {
  import opened Options
  import opened Lexical

  const CROCKFORD: string := "0123456789ABCDEFGHJKMNPQRSTVWXYZ"
  const ULID_LENGTH: nat := 26
  const MAX_TIMESTAMP: nat := 0xFFFF_FFFF_FFFF
  const RANDOM_VALUES: nat := 0x1_0000_0000_0000_0000_0000
  const KNOWN_PREFIXES: set<string> :=
    {"evt", "task", "mach", "repo", "proj", "agent", "sess", "mem", "prop", "grant"}

  function Pow32(n: nat): (r: nat)
    ensures r >= 1
  {
    if n == 0 then 1 else 32 * Pow32(n - 1)
  }

  /** Fixed width, most significant digit first. */
  function Encoded(value: nat, length: nat): (s: string)
    ensures |s| == length
  {
    if length == 0 then "" else Encoded(value / 32, length - 1) + [Digit(value % 32)]
  }

  function Digit(i: nat): char
    requires i < 32
  {
    CROCKFORD[i]
  }

  /** Digits are taken from the low end and reversed; a value that does not fit the width is refused, as is a negative one. */
  method EncodeCrockford(value: int, length: nat) returns (r: Option<string>)
    ensures r == if 0 <= value < Pow32(length) then Some(Encoded(value, length)) else None
  {
    if value < 0 {
      return None;
    }
    hide Digit;
    var rest: nat := value;
    var chars: seq<char> := [];
    FullyEncoded(value, length);
    for i := 0 to length
      invariant |chars| == i && Encoded(value, length) == Encoded(rest, length - i) + Reversed(chars)
      invariant value < Pow32(length) <==> rest < Pow32(length - i)
    {
      ReversedMore(chars, Digit(rest % 32));
      DivPow(rest, length - i);
      assert Encoded(rest, length - i) + Reversed(chars)
          == Encoded(rest / 32, length - i - 1) + ([Digit(rest % 32)] + Reversed(chars));
      chars := chars + [Digit(rest % 32)];
      rest := rest / 32;
    }
    NoDigitsLeft(rest, Reversed(chars));
    if rest != 0 {
      return None;
    }
    r := Some(Reversed(chars));
  }

  lemma NoDigitsLeft(rest: nat, s: string)
    ensures Encoded(rest, 0) + s == s
    ensures rest < Pow32(0) <==> rest == 0
  {
  }

  function Reversed(s: string): string {
    if s == "" then "" else [s[|s| - 1]] + Reversed(s[..|s| - 1])
  }

  lemma ReversedMore(s: string, c: char)
    ensures Reversed(s + [c]) == [c] + Reversed(s)
  {
    assert (s + [c])[..|s|] == s;
  }

  lemma FullyEncoded(value: nat, length: nat)
    ensures Encoded(value, length) == Encoded(value, length) + Reversed("")
  {
  }

  lemma DivPow(v: nat, n: nat)
    requires n > 0
    ensures v < Pow32(n) <==> v / 32 < Pow32(n - 1)
  {
  }

  // ---- order ----

  /** The alphabet is the digits and the capital letters without I, L, O and U. */
  function CodeOf(i: int): int {
    if i < 10 then 48 + i else if i < 18 then 55 + i else if i < 20 then 56 + i
    else if i < 22 then 57 + i else if i < 27 then 58 + i else 59 + i
  }

  lemma DigitIs(i: nat)
    requires i < 32
    ensures Digit(i) as int == CodeOf(i)
  {
  }

  lemma DigitsAreOrdered(i: nat, j: nat)
    requires i < 32 && j < 32
    ensures Digit(i) < Digit(j) <==> i < j
    ensures Digit(i) == Digit(j) <==> i == j
  {
    hide Digit;
    DigitIs(i);
    DigitIs(j);
  }

  lemma {:induction false} LessOfPrefix(a: string, b: string, x: char, y: char)
    requires |a| == |b|
    ensures Less(a + [x], b + [y]) <==> Less(a, b) || (a == b && x < y)
  {
    if a == "" {
      assert a + [x] == [x] && b + [y] == [y];
    } else {
      assert (a + [x])[1..] == a[1..] + [x] && (b + [y])[1..] == b[1..] + [y];
      LessOfPrefix(a[1..], b[1..], x, y);
      assert a == [a[0]] + a[1..] && b == [b[0]] + b[1..];
    }
  }

  /** At one width the order of the strings is the order of the numbers; in particular different numbers differ. */
  lemma {:induction false} OrderIsNumeric(v: nat, w: nat, length: nat)
    requires v < Pow32(length) && w < Pow32(length)
    ensures Less(Encoded(v, length), Encoded(w, length)) <==> v < w
    ensures Encoded(v, length) == Encoded(w, length) <==> v == w
  {
    if length > 0 {
      hide Digit, Less;
      DivPow(v, length);
      DivPow(w, length);
      OrderIsNumeric(v / 32, w / 32, length - 1);
      DigitsAreOrdered(v % 32, w % 32);
      var a, b := Encoded(v / 32, length - 1), Encoded(w / 32, length - 1);
      LessOfPrefix(a, b, Digit(v % 32), Digit(w % 32));
      var s, t := a + [Digit(v % 32)], b + [Digit(w % 32)];
      assert s == t <==> a == b && Digit(v % 32) == Digit(w % 32) by {
        assert s[..|a|] == a && t[..|b|] == b;
        assert s[|a|] == Digit(v % 32) && t[|b|] == Digit(w % 32);
      }
    }
  }

  // ---- generation ----

  function UlidValue(timestamp: nat, randomness: nat): nat {
    timestamp * RANDOM_VALUES + randomness
  }

  const ULID_VALUES: nat := 0x1_0000_0000_0000_0000_0000_0000_0000_0000

  method GenerateUlid(timestamp: int, randomness: nat) returns (r: Option<string>)
    requires randomness < RANDOM_VALUES
    ensures r.Some? <==> 0 <= timestamp <= MAX_TIMESTAMP
    ensures r.Some? ==> r.value == Encoded(UlidValue(timestamp, randomness), ULID_LENGTH) && IsValidUlid(r.value)
  {
    if !(0 <= timestamp <= MAX_TIMESTAMP) {
      return None;
    }
    hide Encoded, IsValidUlid, Pow32, UlidValue;
    MintedIsValid(timestamp, randomness);
    r := EncodeCrockford(UlidValue(timestamp, randomness), ULID_LENGTH);
  }

  lemma MintedIsValid(timestamp: nat, randomness: nat)
    requires timestamp <= MAX_TIMESTAMP && randomness < RANDOM_VALUES
    ensures UlidValue(timestamp, randomness) < Pow32(ULID_LENGTH)
    ensures IsValidUlid(Encoded(UlidValue(timestamp, randomness), ULID_LENGTH))
  {
    hide Encoded, IsValidUlid, Pow32, UlidValue;
    UlidFits(timestamp, randomness);
    ValidUlidIff(Encoded(UlidValue(timestamp, randomness), ULID_LENGTH));
  }

  lemma WidthIs()
    ensures Pow32(26) == 4 * ULID_VALUES && Pow32(25) * 8 == ULID_VALUES
  {
    assert Pow32(5) == 0x200_0000;
    assert Pow32(10) == 0x200_0000 * 0x200_0000 by { PowSplits(5, 5); }
    assert Pow32(20) == Pow32(10) * Pow32(10) by { PowSplits(10, 10); }
    assert Pow32(25) == Pow32(20) * Pow32(5) by { PowSplits(20, 5); }
  }

  lemma {:induction false} PowSplits(m: nat, n: nat)
    ensures Pow32(m + n) == Pow32(m) * Pow32(n)
  {
    if n > 0 {
      PowSplits(m, n - 1);
    }
  }

  lemma UlidFits(timestamp: nat, randomness: nat)
    requires timestamp <= MAX_TIMESTAMP && randomness < RANDOM_VALUES
    ensures UlidValue(timestamp, randomness) < ULID_VALUES < Pow32(ULID_LENGTH)
  {
    WidthIs();
  }

  /** An earlier timestamp gives a smaller string, whatever the random parts are. */
  lemma EarlierSortsFirst(t: nat, r: nat, t': nat, r': nat)
    requires t < t' <= MAX_TIMESTAMP && r < RANDOM_VALUES && r' < RANDOM_VALUES
    ensures Less(Encoded(UlidValue(t, r), ULID_LENGTH), Encoded(UlidValue(t', r'), ULID_LENGTH))
  {
    UlidFits(t, r);
    UlidFits(t', r');
    OrderIsNumeric(UlidValue(t, r), UlidValue(t', r'), ULID_LENGTH);
  }

  /** The timestamp and the random part can be read off the value, so mints differ whenever either does. */
  lemma MintsDiffer(t: nat, r: nat, t': nat, r': nat)
    requires t <= MAX_TIMESTAMP && t' <= MAX_TIMESTAMP && r < RANDOM_VALUES && r' < RANDOM_VALUES
    ensures UlidValue(t, r) / RANDOM_VALUES == t && UlidValue(t, r) % RANDOM_VALUES == r
    ensures Encoded(UlidValue(t, r), ULID_LENGTH) == Encoded(UlidValue(t', r'), ULID_LENGTH) <==> t == t' && r == r'
  {
    ValueParts(t, r);
    ValueParts(t', r');
    hide UlidValue, Encoded;
    UlidFits(t, r);
    UlidFits(t', r');
    OrderIsNumeric(UlidValue(t, r), UlidValue(t', r'), ULID_LENGTH);
  }

  lemma ValueParts(t: nat, r: nat)
    requires r < RANDOM_VALUES
    ensures UlidValue(t, r) / RANDOM_VALUES == t && UlidValue(t, r) % RANDOM_VALUES == r
  {
  }

  // ---- validity ----

  predicate IsDigit(c: char) {
    c in CROCKFORD
  }

  predicate IsValidUlid(s: string) {
    |s| == ULID_LENGTH && s[0] in "01234567" && forall i :: 0 <= i < |s| ==> IsDigit(s[i])
  }

  /** The first character of an encoding says which 32nd of the range the value lies in. */
  lemma {:induction false} LeadingDigit(v: nat, length: nat) returns (d: nat)
    requires length > 0 && v < Pow32(length)
    ensures d < 32 && Encoded(v, length)[0] == Digit(d) && d * Pow32(length - 1) <= v < (d + 1) * Pow32(length - 1)
  {
    hide Digit;
    if length == 1 {
      d := v;
    } else {
      DivPow(v, length);
      d := LeadingDigit(v / 32, length - 1);
      var p := Pow32(length - 2);
      assert Pow32(length - 1) == 32 * p;
      Scaled(d, p, v);
    }
  }

  lemma Scaled(d: nat, p: nat, v: nat)
    requires d * p <= v / 32 < (d + 1) * p
    ensures d * (32 * p) <= v < (d + 1) * (32 * p)
  {
    assert d * (32 * p) == 32 * (d * p) && (d + 1) * (32 * p) == 32 * ((d + 1) * p);
  }

  lemma DigitIsDigit(i: nat)
    requires i < 32
    ensures IsDigit(Digit(i))
  {
  }

  lemma DigitOf(c: char) returns (d: nat)
    requires IsDigit(c)
    ensures d < 32 && Digit(d) == c
  {
    d :| 0 <= d < |CROCKFORD| && CROCKFORD[d] == c;
  }

  lemma {:induction false} AllDigits(v: nat, length: nat, i: nat)
    requires i < length
    ensures IsDigit(Encoded(v, length)[i])
  {
    hide IsDigit, Digit;
    DigitIsDigit(v % 32);
    if i < length - 1 {
      AllDigits(v / 32, length - 1, i);
    }
  }

  /** Any string of digits is the encoding of a number of its width. */
  lemma {:induction false} Decodes(s: string) returns (v: nat)
    requires forall i :: 0 <= i < |s| ==> IsDigit(s[i])
    ensures v < Pow32(|s|) && Encoded(v, |s|) == s
  {
    hide IsDigit, Digit;
    if s == "" {
      v := 0;
    } else {
      var front := s[..|s| - 1];
      var w := Decodes(front);
      var d := DigitOf(s[|s| - 1]);
      v := 32 * w + d;
      assert v / 32 == w && v % 32 == d;
      assert s == front + [s[|s| - 1]];
    }
  }

  lemma OctalDigit(d: nat)
    requires d < 32
    ensures Digit(d) in "01234567" <==> d < 8
  {
    DigitIs(d);
    hide Digit;
    if d < 8 {
      assert Digit(d) == "01234567"[d];
    }
  }

  lemma BelowEight(v: nat, d: nat)
    requires d * Pow32(25) <= v < (d + 1) * Pow32(25)
    ensures v < ULID_VALUES <==> d < 8
  {
    WidthIs();
    Monotone(d, 8, Pow32(25));
  }

  lemma Monotone(d: nat, e: nat, p: nat)
    ensures d >= e ==> d * p >= e * p
    ensures d < e ==> (d + 1) * p <= e * p
  {
  }

  /** The validity check accepts exactly the encodings of 128-bit values. */
  lemma ValidUlidIff(s: string)
    ensures IsValidUlid(s) <==> exists v: nat :: v < ULID_VALUES && s == Encoded(v, ULID_LENGTH)
  {
    WidthIs();
    hide Pow32, Encoded;
    if IsValidUlid(s) {
      var v := Decodes(s);
      var d := LeadingDigit(v, ULID_LENGTH);
      OctalDigit(d);
      BelowEight(v, d);
      assert v < ULID_VALUES && s == Encoded(v, ULID_LENGTH);
    }
    if v: nat :| v < ULID_VALUES && s == Encoded(v, ULID_LENGTH) {
      var d := LeadingDigit(v, ULID_LENGTH);
      OctalDigit(d);
      BelowEight(v, d);
      forall i | 0 <= i < |s| ensures IsDigit(s[i]) {
        AllDigits(v, ULID_LENGTH, i);
      }
    }
  }

  // ---- prefixed ids ----

  datatype Parts = Parts(prefix: string, ulid: string)

  /** Mint an id; an unknown prefix is refused. */
  method NewId(prefix: string, timestamp: nat, randomness: nat) returns (r: Option<string>)
    requires timestamp <= MAX_TIMESTAMP && randomness < RANDOM_VALUES
    ensures r.Some? <==> prefix in KNOWN_PREFIXES
    ensures r.Some? ==> SplitId(r.value) == Some(Parts(prefix, Encoded(UlidValue(timestamp, randomness), ULID_LENGTH)))
  {
    if prefix !in KNOWN_PREFIXES {
      return None;
    }
    var ulid := GenerateUlid(timestamp, randomness);
    SplitIff(prefix + "_" + ulid.value, prefix, ulid.value);
    r := Some(prefix + "_" + ulid.value);
  }

  /** Where the first underscore is, or the length. */
  function Separator(s: string): (i: nat)
    ensures i <= |s|
  {
    if s == "" || s[0] == '_' then 0 else 1 + Separator(s[1..])
  }

  /** Cut at the first underscore; the prefix must be known and the rest a valid ULID. */
  function SplitId(s: string): Option<Parts> {
    var i := Separator(s);
    if i == |s| || s[..i] !in KNOWN_PREFIXES || !IsValidUlid(s[i + 1..]) then None
    else Some(Parts(s[..i], s[i + 1..]))
  }

  lemma {:induction false} SeparatorIs(a: string, b: string)
    requires '_' !in a
    ensures Separator(a + "_" + b) == |a|
  {
    if a == "" {
      assert a + "_" + b == "_" + b;
    } else {
      assert (a + "_" + b)[1..] == a[1..] + "_" + b;
      SeparatorIs(a[1..], b);
    }
  }

  lemma {:induction false} SeparatorFinds(s: string)
    ensures Separator(s) < |s| ==> s[Separator(s)] == '_'
  {
    if s != "" && s[0] != '_' {
      SeparatorFinds(s[1..]);
    }
  }

  lemma PrefixesAreWords(p: string)
    requires p in KNOWN_PREFIXES
    ensures '_' !in p
  {
  }

  /** An id splits into a prefix and a ULID exactly when it is that known prefix, an underscore and that valid ULID. */
  lemma SplitIff(s: string, prefix: string, ulid: string)
    ensures SplitId(s) == Some(Parts(prefix, ulid)) <==>
      prefix in KNOWN_PREFIXES && IsValidUlid(ulid) && s == prefix + "_" + ulid
  {
    var i := Separator(s);
    SeparatorFinds(s);
    hide IsValidUlid;
    if SplitId(s) == Some(Parts(prefix, ulid)) {
      assert s == s[..i] + [s[i]] + s[i + 1..];
    }
    if prefix in KNOWN_PREFIXES && s == prefix + "_" + ulid {
      PrefixesAreWords(prefix);
      SeparatorIs(prefix, ulid);
      assert s[..|prefix|] == prefix && s[|prefix| + 1..] == ulid;
    }
  }

  predicate IsValidId(s: string, prefix: Option<string>) {
    SplitId(s).Some? && (prefix.Some? ==> SplitId(s).value.prefix == prefix.value)
  }

  /** An id is valid exactly when it is a known prefix, the one asked for if any, an underscore and a valid ULID. */
  lemma ValidIdIff(s: string, prefix: Option<string>)
    ensures IsValidId(s, prefix) <==> exists p, ulid :: IsIdOf(s, p, ulid) && (prefix.Some? ==> p == prefix.value)
  {
    hide SplitId;
    if IsValidId(s, prefix) {
      var parts := SplitId(s).value;
      SplitIff(s, parts.prefix, parts.ulid);
      assert IsIdOf(s, parts.prefix, parts.ulid);
    }
    if p, ulid :| IsIdOf(s, p, ulid) && (prefix.Some? ==> p == prefix.value) {
      SplitIff(s, p, ulid);
    }
  }

  predicate IsIdOf(s: string, prefix: string, ulid: string) {
    prefix in KNOWN_PREFIXES && IsValidUlid(ulid) && s == prefix + "_" + ulid
  }

  /** Ids of one prefix sort by their creation time. */
  lemma IdsSortByTime(prefix: string, t: nat, r: nat, t': nat, r': nat)
    requires t < t' <= MAX_TIMESTAMP && r < RANDOM_VALUES && r' < RANDOM_VALUES
    ensures Less(prefix + "_" + Encoded(UlidValue(t, r), ULID_LENGTH), prefix + "_" + Encoded(UlidValue(t', r'), ULID_LENGTH))
  {
    EarlierSortsFirst(t, r, t', r');
    LessAfter(prefix + "_", Encoded(UlidValue(t, r), ULID_LENGTH), Encoded(UlidValue(t', r'), ULID_LENGTH));
  }

  lemma {:induction false} LessAfter(front: string, a: string, b: string)
    requires Less(a, b)
    ensures Less(front + a, front + b)
  {
    if front == "" {
      assert front + a == a && front + b == b;
    } else {
      assert (front + a)[1..] == front[1..] + a && (front + b)[1..] == front[1..] + b;
      LessAfter(front[1..], a, b);
    }
  }
}

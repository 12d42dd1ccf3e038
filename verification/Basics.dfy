/** Sequence ends, bounds, and the page size both feeds of the server share. */
module Basics {
  function Last<T>(s: seq<T>): T
    requires s != []
  {
    s[|s| - 1]
  }

  function Init<T>(s: seq<T>): (r: seq<T>)
    requires s != []
    ensures |r| < |s|
  {
    s[..|s| - 1]
  }

  /** Positions of a list of that size, in order. */
  predicate Rising(at: seq<nat>, size: nat) {
    (forall i :: 0 <= i < |at| ==> at[i] < size) && forall i, j :: 0 <= i < j < |at| ==> at[i] < at[j]
  }

  lemma RisingMore(at: seq<nat>, n: nat)
    requires Rising(at, n)
    ensures Rising(at, n + 1) && Rising(at + [n], n + 1)
    ensures forall k: nat :: k in at + [n] <==> k in at || k == n
    ensures forall k: nat :: k in at ==> k < n
  {
  }

  /** `chosen` is what stands at these positions, in order. */
  ghost predicate Picked<T>(all: seq<T>, chosen: seq<T>, at: seq<nat>) {
    |at| == |chosen| && Rising(at, |all|) && forall i :: 0 <= i < |at| ==> chosen[i] == all[at[i]]
  }

  lemma PickedMore<T>(all: seq<T>, chosen: seq<T>, at: seq<nat>, x: T)
    requires Picked(all, chosen, at)
    ensures Picked(all + [x], chosen, at) && Picked(all + [x], chosen + [x], at + [|all|])
    ensures forall k: nat :: k in at + [|all|] <==> k in at || k == |all|
    ensures forall k: nat :: k in at ==> k < |all|
  {
    RisingMore(at, |all|);
  }

  /** How often `x` occurs. */
  function Count<T(==)>(s: seq<T>, x: T): nat {
    if s == [] then 0 else Count(Init(s), x) + if Last(s) == x then 1 else 0
  }

  lemma {:induction false} CountConcat<T>(a: seq<T>, b: seq<T>, x: T)
    ensures Count(a + b, x) == Count(a, x) + Count(b, x)
  {
    if b == [] {
      assert a + b == a;
    } else {
      CountConcat(a, Init(b), x);
      assert Init(a + b) == a + Init(b);
    }
  }

  lemma {:induction false} CountIsIn<T>(s: seq<T>, x: T)
    ensures Count(s, x) > 0 <==> x in s
  {
    if s != [] {
      CountIsIn(Init(s), x);
      assert s == Init(s) + [Last(s)];
    }
  }

  /** Two different positions of one value. */
  lemma {:induction false} CountTwice<T>(s: seq<T>, i: nat, j: nat)
    requires i < j < |s| && s[i] == s[j]
    ensures Count(s, s[i]) >= 2
  {
    if j == |s| - 1 {
      CountIsIn(Init(s), s[i]);
      assert Init(s)[i] in Init(s);
    } else {
      CountTwice(Init(s), i, j);
    }
  }

  function Min(a: int, b: int): (r: int)
    ensures r <= a && r <= b && (r == a || r == b)
  {
    if a <= b then a else b
  }

  function Max(a: int, b: int): (r: int)
    ensures r >= a && r >= b && (r == a || r == b)
  {
    if a <= b then b else a
  }

  lemma NothingAdded<T>(s: seq<T>)
    ensures s + [] == s
  {
  }

  const PAGE_MAX: int := 500

  /** The server's reading of a `limit` parameter. */
  function PageSize(limit: int): (size: nat)
    ensures 1 <= size <= PAGE_MAX
  {
    if limit < 1 then 1 else if limit < PAGE_MAX then limit else PAGE_MAX
  }
}

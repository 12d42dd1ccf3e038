/** The order of strings used by the program's sorts and comparisons: by code point, the shorter first. */
module Lexical {
  predicate Less(a: string, b: string) {
    if b == "" then false
    else if a == "" then true
    else a[0] < b[0] || (a[0] == b[0] && Less(a[1..], b[1..]))
  }

  /** The first place where two strings differ decides, or one is a proper prefix of the other. */
  ghost predicate DifferAt(a: string, b: string, d: nat) {
    && d <= |a| && d <= |b| && a[..d] == b[..d]
    && d < |b| && (d == |a| || a[d] < b[d])
  }

  lemma {:induction false} LessMeans(a: string, b: string)
    ensures Less(a, b) <==> exists d: nat :: DifferAt(a, b, d)
  {
    if b == "" {
      assert forall d: nat :: !DifferAt(a, b, d);
    } else if a == "" {
      assert DifferAt(a, b, 0);
    } else {
      LessMeans(a[1..], b[1..]);
      if a[0] < b[0] {
        assert DifferAt(a, b, 0);
      }
      if a[0] == b[0] {
        if d: nat :| DifferAt(a[1..], b[1..], d) {
          OneFurther(a, b, d);
        }
      }
      if d: nat :| DifferAt(a, b, d) {
        if d > 0 {
          OneNearer(a, b, d);
        }
      }
    }
  }

  lemma OneFurther(a: string, b: string, d: nat)
    requires a != "" && b != "" && a[0] == b[0] && DifferAt(a[1..], b[1..], d)
    ensures DifferAt(a, b, d + 1)
  {
    assert a[..d + 1] == [a[0]] + a[1..][..d] && b[..d + 1] == [b[0]] + b[1..][..d];
  }

  lemma OneNearer(a: string, b: string, d: nat)
    requires a != "" && b != "" && d > 0 && DifferAt(a, b, d)
    ensures a[0] == b[0] && DifferAt(a[1..], b[1..], d - 1)
  {
    assert a[0] == a[..d][0] == b[..d][0] == b[0];
    assert a[1..][..d - 1] == a[..d][1..] && b[1..][..d - 1] == b[..d][1..];
  }

  lemma {:induction false} LessIsTotal(a: string, b: string)
    ensures !(Less(a, b) && Less(b, a))
    ensures Less(a, b) || Less(b, a) || a == b
    ensures a == b ==> !Less(a, b)
  {
    if a != "" && b != "" {
      LessIsTotal(a[1..], b[1..]);
      assert a == [a[0]] + a[1..] && b == [b[0]] + b[1..];
    }
  }

  lemma {:induction false} LessIsTransitive(a: string, b: string, c: string)
    requires Less(a, b) && Less(b, c)
    ensures Less(a, c)
  {
    if a != "" && a[0] == b[0] == c[0] {
      LessIsTransitive(a[1..], b[1..], c[1..]);
    }
  }
}

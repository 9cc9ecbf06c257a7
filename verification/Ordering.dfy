/** The code-point order in which Python sorts strings. */
module Ordering {
  predicate Less(a: string, b: string)
  {
    b != "" && (a == "" || a[0] < b[0] || (a[0] == b[0] && Less(a[1..], b[1..])))
  }

  /** Where the order of two strings is decided: at the first difference, or where the smaller one ends. */
  predicate DecidedAt(a: string, b: string, k: nat)
  {
    && k <= |a| && k < |b|
    && (forall i :: 0 <= i < k ==> a[i] == b[i])
    && (k == |a| || (a[k] as int) < (b[k] as int))
  }

  /** Less means: at the first difference the code point is smaller, or there is none and the string ends first. */
  lemma LessExactly(a: string, b: string)
    ensures Less(a, b) <==> exists k: nat :: DecidedAt(a, b, k)
  {
    if Less(a, b) {
      var k := LessIsDecided(a, b);
    }
    if k: nat :| DecidedAt(a, b, k) {
      DecidedIsLess(a, b, k);
    }
  }

  lemma {:induction false} LessIsDecided(a: string, b: string) returns (k: nat)
    requires Less(a, b)
    ensures DecidedAt(a, b, k)
  {
    k := 0;
    if a != "" && a[0] == b[0] {
      k := LessIsDecided(a[1..], b[1..]);
      k := k + 1;
    }
  }

  lemma {:induction false} DecidedIsLess(a: string, b: string, k: nat)
    requires DecidedAt(a, b, k)
    ensures Less(a, b)
  {
    if k > 0 {
      DecidedIsLess(a[1..], b[1..], k - 1);
    }
  }

  lemma {:induction false} LessTotal(a: string, b: string)
    ensures a == b || Less(a, b) || Less(b, a)
    ensures !(Less(a, b) && Less(b, a))
    ensures !Less(a, a)
  {
    if a != "" && b != "" && a[0] == b[0] {
      LessTotal(a[1..], b[1..]);
      assert a == [a[0]] + a[1..] && b == [b[0]] + b[1..];
    }
    if a != "" { LessTotal(a[1..], a[1..]); }
  }

  lemma {:induction false} LessTransitive(a: string, b: string, c: string)
    requires Less(a, b) && Less(b, c)
    ensures Less(a, c)
  {
    if a != "" && a[0] == b[0] == c[0] {
      LessTransitive(a[1..], b[1..], c[1..]);
    }
  }
}

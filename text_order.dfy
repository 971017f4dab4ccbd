/**
 * Python's ordering of `str` values (code point by code point, a proper
 * prefix first) and `tuple(sorted([x, y]))` on two residue labels.
 */
module TextOrder {

  /** `a <= b` on Python strings. */
  predicate Le(a: string, b: string)
  {
    |a| == 0 || (|b| > 0 && (a[0] < b[0] || (a[0] == b[0] && Le(a[1..], b[1..]))))
  }

  lemma {:induction false} LeTotal(a: string, b: string)
    ensures Le(a, b) || Le(b, a)
  {
    if |a| > 0 && |b| > 0 && a[0] == b[0] {
      LeTotal(a[1..], b[1..]);
    }
  }

  lemma {:induction false} LeAntisymmetric(a: string, b: string)
    requires Le(a, b) && Le(b, a)
    ensures a == b
  {
    if |a| > 0 && |b| > 0 {
      LeAntisymmetric(a[1..], b[1..]);
      assert a == [a[0]] + a[1..];
      assert b == [b[0]] + b[1..];
    }
  }

  /**
   * `tuple(sorted([x, y]))`: the two labels, the smaller first. Python's
   * sort is stable, so `x` stays first unless `y < x`.
   */
  function SortedPair(x: string, y: string): (p: (string, string))
    ensures Le(p.0, p.1)
    ensures (p.0 == x && p.1 == y) || (p.0 == y && p.1 == x)
  {
    LeTotal(x, y);
    if Le(x, y) then (x, y) else (y, x)
  }

  /** The sorted pair does not depend on which end came first. */
  lemma SortedPairSymmetric(x: string, y: string)
    ensures SortedPair(x, y) == SortedPair(y, x)
  {
    if Le(x, y) && Le(y, x) {
      LeAntisymmetric(x, y);
    }
  }
}

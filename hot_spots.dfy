/**
 * Hot-spot residues (identify_hot_spots in 04_analyze_interactions.py):
 * the residues of the per-residue count dictionary whose count reaches a
 * threshold, sorted by count, highest first. Python's sort is stable even
 * with `reverse=True`, so residues with equal counts keep dictionary order.
 */
module HotSpots {
  import opened Tally

  type Entry = (string, nat)

  /** The comprehension `[(res, count) for ... if count >= min_interactions]`. */
  function AtLeast(counts: seq<Entry>, minInteractions: int): seq<Entry>
  {
    if |counts| == 0 then []
    else (if counts[0].1 >= minInteractions then [counts[0]] else []) + AtLeast(counts[1..], minInteractions)
  }

  predicate NonIncreasing(s: seq<Entry>)
  {
    forall i, j :: 0 <= i < j < |s| ==> s[i].1 >= s[j].1
  }

  /** The entries of `s` whose count is `c`, in order. */
  function WithCount(s: seq<Entry>, c: nat): seq<Entry>
  {
    if |s| == 0 then [] else (if s[0].1 == c then [s[0]] else []) + WithCount(s[1..], c)
  }

  /** Place `p` after every entry whose count is at least its own. */
  function Insert(sorted: seq<Entry>, p: Entry): seq<Entry>
  {
    if |sorted| == 0 then [p]
    else if sorted[0].1 >= p.1 then [sorted[0]] + Insert(sorted[1..], p)
    else [p] + sorted
  }

  /** `sorted(s, key=lambda x: x[1], reverse=True)`, as a stable insertion sort. */
  function SortByCount(s: seq<Entry>): seq<Entry>
  {
    if |s| == 0 then [] else Insert(SortByCount(s[..|s| - 1]), s[|s| - 1])
  }

  /**
   * `identify_hot_spots`: exactly the entries reaching the threshold, each
   * as often as in the input (once, for a dictionary), sorted by count
   * with the highest first, and entries of equal count in input order.
   * The threshold defaults to 3 interactions.
   */
  function IdentifyHotSpots(residueCounts: seq<Entry>, minInteractions: int := 3): (r: seq<Entry>)
    ensures NonIncreasing(r)
    ensures forall p :: p in r <==> p in residueCounts && p.1 >= minInteractions
    ensures multiset(r) == multiset(AtLeast(residueCounts, minInteractions))
    ensures forall c: nat :: WithCount(r, c) == if c >= minInteractions then WithCount(residueCounts, c) else []
    ensures DistinctKeys(residueCounts) ==> DistinctKeys(r)
  {
    var kept := AtLeast(residueCounts, minInteractions);
    SortByCountSpec(kept);
    AtLeastMembers(residueCounts, minInteractions);
    forall c: nat ensures WithCount(kept, c) == if c >= minInteractions then WithCount(residueCounts, c) else [] {
      AtLeastWithCount(residueCounts, minInteractions, c);
    }
    HotSpotsDistinct(residueCounts, minInteractions);
    forall p ensures p in SortByCount(kept) <==> p in kept {
      assert p in SortByCount(kept) <==> p in multiset(SortByCount(kept));
    }
    SortByCount(kept)
  }

  lemma HotSpotsDistinct(counts: seq<Entry>, minInteractions: int)
    ensures DistinctKeys(counts) ==> DistinctKeys(SortByCount(AtLeast(counts, minInteractions)))
  {
    if DistinctKeys(counts) {
      AtLeastDistinct(counts, minInteractions);
      SortByCountDistinct(AtLeast(counts, minInteractions));
    }
  }

  // ------------------------------------------------------------ filtering

  lemma {:induction false} AtLeastMembers(counts: seq<Entry>, minInteractions: int)
    ensures forall p :: p in AtLeast(counts, minInteractions) <==> p in counts && p.1 >= minInteractions
  {
    if |counts| > 0 {
      AtLeastMembers(counts[1..], minInteractions);
      assert counts == [counts[0]] + counts[1..];
    }
  }

  lemma {:induction false} AtLeastWithCount(counts: seq<Entry>, minInteractions: int, c: nat)
    ensures WithCount(AtLeast(counts, minInteractions), c)
         == if c >= minInteractions then WithCount(counts, c) else []
  {
    if |counts| > 0 {
      AtLeastWithCount(counts[1..], minInteractions, c);
      var head := if counts[0].1 >= minInteractions then [counts[0]] else [];
      WithCountAppend(head, AtLeast(counts[1..], minInteractions), c);
    }
  }

  lemma {:induction false} AtLeastDistinct(counts: seq<Entry>, minInteractions: int)
    requires DistinctKeys(counts)
    ensures DistinctKeys(AtLeast(counts, minInteractions))
  {
    if |counts| > 0 {
      var rest := counts[1..];
      assert DistinctKeys(rest) by {
        forall i, j | 0 <= i < j < |rest| ensures rest[i].0 != rest[j].0 {
          assert rest[i] == counts[i + 1] && rest[j] == counts[j + 1];
        }
      }
      AtLeastDistinct(rest, minInteractions);
      AtLeastMembers(rest, minInteractions);
      var tail := AtLeast(rest, minInteractions);
      forall q | q in tail ensures q.0 != counts[0].0 {
        var k :| 0 <= k < |rest| && rest[k] == q;
        assert counts[k + 1] == q;
      }
      ConsDistinct(counts[0], tail);
    }
  }

  lemma ConsDistinct(p: Entry, s: seq<Entry>)
    requires DistinctKeys(s)
    requires forall q :: q in s ==> q.0 != p.0
    ensures DistinctKeys([p] + s)
  {
    var t := [p] + s;
    forall i, j | 0 <= i < j < |t| ensures t[i].0 != t[j].0 {
      assert t[j] == s[j - 1];
      if i > 0 { assert t[i] == s[i - 1]; }
    }
  }

  // -------------------------------------------------------------- sorting

  lemma {:induction false} WithCountAppend(a: seq<Entry>, b: seq<Entry>, c: nat)
    ensures WithCount(a + b, c) == WithCount(a, c) + WithCount(b, c)
  {
    if |a| > 0 {
      WithCountAppend(a[1..], b, c);
      assert (a + b)[1..] == a[1..] + b;
    } else {
      assert a + b == b;
    }
  }

  lemma {:induction false} WithCountNone(s: seq<Entry>, c: nat)
    requires forall q :: q in s ==> q.1 != c
    ensures WithCount(s, c) == []
  {
    if |s| > 0 {
      assert s[0] in s;
      WithCountNone(s[1..], c);
    }
  }

  lemma {:induction false} InsertSorted(t: seq<Entry>, p: Entry)
    requires NonIncreasing(t)
    ensures NonIncreasing(Insert(t, p))
  {
    if |t| > 0 && t[0].1 >= p.1 {
      var rest := t[1..];
      InsertSorted(rest, p);
      InsertBounded(rest, p, t[0].1);
      var ins := Insert(rest, p);
      var r := [t[0]] + ins;
      forall i, j | 0 <= i < j < |r| ensures r[i].1 >= r[j].1 {
        assert r[j] == ins[j - 1];
        if i > 0 { assert r[i] == ins[i - 1]; }
      }
    } else if |t| > 0 {
      var r := [p] + t;
      forall i, j | 0 <= i < j < |r| ensures r[i].1 >= r[j].1 {
        assert r[j] == t[j - 1];
        if i > 0 { assert r[i] == t[i - 1]; }
      }
    }
  }

  lemma {:induction false} InsertBounded(t: seq<Entry>, p: Entry, b: nat)
    requires forall i :: 0 <= i < |t| ==> t[i].1 <= b
    requires p.1 <= b
    ensures |Insert(t, p)| == |t| + 1
    ensures forall i :: 0 <= i < |Insert(t, p)| ==> Insert(t, p)[i].1 <= b
  {
    if |t| > 0 && t[0].1 >= p.1 {
      InsertBounded(t[1..], p, b);
    }
  }

  /** Inserting `p` puts it after every entry of the same count. */
  lemma {:induction false} InsertStable(t: seq<Entry>, p: Entry, c: nat)
    requires NonIncreasing(t)
    ensures WithCount(Insert(t, p), c) == WithCount(t, c) + (if p.1 == c then [p] else [])
  {
    if |t| > 0 && t[0].1 >= p.1 {
      var rest := t[1..];
      InsertStable(rest, p, c);
      assert Insert(t, p)[1..] == Insert(rest, p);
    } else if |t| > 0 {
      assert Insert(t, p)[1..] == t;
      if p.1 == c {
        forall q | q in t ensures q.1 != c {
          var k :| 0 <= k < |t| && t[k] == q;
        }
        WithCountNone(t, c);
      }
    }
  }

  /** The sort returns a non-increasing permutation of its input and keeps ties in input order. */
  lemma {:induction false} SortByCountSpec(s: seq<Entry>)
    ensures NonIncreasing(SortByCount(s))
    ensures multiset(SortByCount(s)) == multiset(s)
    ensures forall c: nat :: WithCount(SortByCount(s), c) == WithCount(s, c)
  {
    if |s| > 0 {
      var n := |s| - 1;
      var prev := s[..n];
      SortByCountSpec(prev);
      InsertSorted(SortByCount(prev), s[n]);
      InsertPermutes(SortByCount(prev), s[n]);
      assert s == prev + [s[n]];
      forall c: nat ensures WithCount(SortByCount(s), c) == WithCount(s, c) {
        SortByCountStep(s, c);
      }
    }
  }

  /** The last insertion keeps ties in order, given that the shorter sort does. */
  lemma SortByCountStep(s: seq<Entry>, c: nat)
    requires |s| > 0
    requires NonIncreasing(SortByCount(s[..|s| - 1]))
    requires WithCount(SortByCount(s[..|s| - 1]), c) == WithCount(s[..|s| - 1], c)
    ensures WithCount(SortByCount(s), c) == WithCount(s, c)
  {
    var n := |s| - 1;
    InsertStable(SortByCount(s[..n]), s[n], c);
    WithCountAppend(s[..n], [s[n]], c);
    assert s == s[..n] + [s[n]];
  }

  lemma {:induction false} InsertDistinct(t: seq<Entry>, p: Entry)
    requires DistinctKeys(t)
    requires forall q :: q in t ==> q.0 != p.0
    ensures DistinctKeys(Insert(t, p))
  {
    if |t| > 0 && t[0].1 >= p.1 {
      var rest := t[1..];
      assert DistinctKeys(rest) by {
        forall i, j | 0 <= i < j < |rest| ensures rest[i].0 != rest[j].0 {
          assert rest[i] == t[i + 1] && rest[j] == t[j + 1];
        }
      }
      InsertDistinct(rest, p);
      InsertPermutes(rest, p);
      forall q | q in Insert(rest, p) ensures q.0 != t[0].0 {
        assert q in multiset(Insert(rest, p));
        if q != p {
          assert q in multiset(rest);
          var k :| 0 <= k < |rest| && rest[k] == q;
          assert t[k + 1] == q;
        }
      }
      ConsDistinct(t[0], Insert(rest, p));
    } else if |t| > 0 {
      ConsDistinct(p, t);
    }
  }

  /** `Insert` adds exactly one element, whatever the order of its argument. */
  lemma {:induction false} InsertPermutes(t: seq<Entry>, p: Entry)
    ensures multiset(Insert(t, p)) == multiset(t) + multiset{p}
  {
    if |t| > 0 && t[0].1 >= p.1 {
      InsertPermutes(t[1..], p);
      assert t == [t[0]] + t[1..];
    }
  }

  lemma {:induction false} SortByCountDistinct(s: seq<Entry>)
    requires DistinctKeys(s)
    ensures DistinctKeys(SortByCount(s))
  {
    if |s| > 0 {
      var n := |s| - 1;
      var prev := s[..n];
      assert DistinctKeys(prev);
      SortByCountDistinct(prev);
      SortByCountSpec(prev);
      forall q | q in SortByCount(prev) ensures q.0 != s[n].0 {
        assert q in multiset(prev);
        var k :| 0 <= k < n && prev[k] == q;
        assert s[k] == q;
      }
      InsertDistinct(SortByCount(prev), s[n]);
    }
  }
}

/**
 * Python's `Counter` and `defaultdict(list)` as the scripts use them:
 * insertion-ordered dictionaries, modelled as lists of key/value pairs
 * whose keys are pairwise distinct and appear in order of first insertion.
 */
module Tally {

  ghost predicate DistinctKeys<K(!new), V>(s: seq<(K, V)>)
  {
    forall i, j :: 0 <= i < j < |s| ==> s[i].0 != s[j].0
  }

  ghost function Keys<K(!new), V>(s: seq<(K, V)>): set<K>
  {
    set i | 0 <= i < |s| :: s[i].0
  }

  /** Position of key `k`, or `|s|` when it is absent. */
  function Find<K(==, !new), V>(s: seq<(K, V)>, k: K): (i: nat)
    ensures i <= |s|
    ensures i < |s| ==> s[i].0 == k
    ensures forall j :: 0 <= j < i ==> s[j].0 != k
  {
    if |s| == 0 then 0 else if s[0].0 == k then 0 else 1 + Find(s[1..], k)
  }

  lemma FindPresent<K(!new), V>(s: seq<(K, V)>, k: K)
    ensures Find(s, k) < |s| <==> k in Keys(s)
  {
    if k in Keys(s) {
      var j :| 0 <= j < |s| && s[j].0 == k;
    }
  }

  /** A dictionary with distinct keys has as many entries as keys. */
  lemma {:induction false} DistinctKeysCard<K(!new), V>(s: seq<(K, V)>)
    requires DistinctKeys(s)
    ensures |Keys(s)| == |s|
  {
    if |s| > 0 {
      var t := s[1..];
      DistinctKeysCard(t);
      assert Keys(s) == {s[0].0} + Keys(t) by {
        forall x | x in Keys(s) ensures x in {s[0].0} + Keys(t) {
          var i :| 0 <= i < |s| && s[i].0 == x;
          if i > 0 { assert t[i - 1].0 == x; }
        }
      }
    }
  }

  lemma KeysSnoc<K(!new), V>(s: seq<(K, V)>, p: (K, V))
    ensures Keys(s + [p]) == Keys(s) + {p.0}
  {
    assert (s + [p])[|s|].0 == p.0;
    forall x | x in Keys(s) ensures x in Keys(s + [p]) {
      var i :| 0 <= i < |s| && s[i].0 == x;
      assert (s + [p])[i].0 == x;
    }
  }

  lemma KeysSameKeys<K(!new), V>(s: seq<(K, V)>, r: seq<(K, V)>)
    requires |s| == |r| && forall i :: 0 <= i < |s| ==> r[i].0 == s[i].0
    ensures Keys(r) == Keys(s)
  {
    forall x | x in Keys(s) ensures x in Keys(r) {
      var i :| 0 <= i < |s| && s[i].0 == x;
      assert r[i].0 == x;
    }
  }

  // ---------------------------------------------------------------- Counter

  /** `counter[k]`: the count stored under `k`, zero when absent. */
  function Count<K(==, !new)>(s: seq<(K, nat)>, k: K): nat
  {
    var i := Find(s, k);
    if i < |s| then s[i].1 else 0
  }

  function Sum<K>(s: seq<(K, nat)>): nat
  {
    if |s| == 0 then 0 else s[0].1 + Sum(s[1..])
  }

  lemma {:induction false} SumUpdate<K>(s: seq<(K, nat)>, i: nat, p: (K, nat))
    requires i < |s|
    ensures Sum(s[i := p]) + s[i].1 == Sum(s) + p.1
  {
    if i > 0 {
      SumUpdate(s[1..], i - 1, p);
      assert s[i := p][1..] == s[1..][i - 1 := p];
    }
  }

  lemma {:induction false} SumAppend<K>(s: seq<(K, nat)>, p: (K, nat))
    ensures Sum(s + [p]) == Sum(s) + p.1
  {
    if |s| > 0 {
      SumAppend(s[1..], p);
      assert (s + [p])[1..] == s[1..] + [p];
    }
  }

  /**
   * `counter[k] += 1`: the entry for `k` grows by one (a new key is added
   * at the end with count 1), every other count and every existing
   * position is unchanged, and the total grows by one.
   */
  function Bump<K(==, !new)>(s: seq<(K, nat)>, k: K): (r: seq<(K, nat)>)
    ensures Count(r, k) == Count(s, k) + 1
    ensures forall k' :: k' != k ==> Count(r, k') == Count(s, k')
    ensures Sum(r) == Sum(s) + 1
    ensures Keys(r) == Keys(s) + {k}
    ensures |s| <= |r| && forall i :: 0 <= i < |s| ==> r[i].0 == s[i].0
    ensures |r| > |s| ==> r == s + [(k, 1)]
    ensures DistinctKeys(s) ==> DistinctKeys(r)
  {
    var i := Find(s, k);
    FindPresent(s, k);
    if i < |s| then
      var r := s[i := (k, s[i].1 + 1)];
      SumUpdate(s, i, (k, s[i].1 + 1));
      assert forall k' :: Find(r, k') == Find(s, k') by {
        forall k' ensures Find(r, k') == Find(s, k') {
          FindSameKeys(s, r, k');
        }
      }
      KeysSameKeys(s, r);
      r
    else
      var r := s + [(k, 1)];
      SumAppend(s, (k, 1));
      forall k' ensures Find(r, k') == (if Find(s, k') < |s| then Find(s, k') else if k' == k then |s| else |r|) {
        FindSnoc(s, (k, 1), k');
      }
      KeysSnoc(s, (k, 1));
      r
  }

  lemma {:induction false} FindSameKeys<K(!new), V>(s: seq<(K, V)>, r: seq<(K, V)>, k: K)
    requires |s| == |r| && forall i :: 0 <= i < |s| ==> r[i].0 == s[i].0
    ensures Find(r, k) == Find(s, k)
  {
    if |s| > 0 && s[0].0 != k {
      FindSameKeys(s[1..], r[1..], k);
    }
  }

  lemma {:induction false} FindSnoc<K(!new), V>(s: seq<(K, V)>, p: (K, V), k: K)
    ensures Find(s + [p], k) == if Find(s, k) < |s| then Find(s, k) else if p.0 == k then |s| else |s| + 1
  {
    if |s| > 0 {
      FindSnoc(s[1..], p, k);
      assert (s + [p])[1..] == s[1..] + [p];
    }
  }

  /** `Counter(xs)`: every element's number of occurrences, keys in order of first occurrence. */
  function Counter<K(==, !new)>(xs: seq<K>): (r: seq<(K, nat)>)
    ensures DistinctKeys(r)
    ensures Keys(r) == set x | x in xs
    ensures forall k :: Count(r, k) == multiset(xs)[k]
    ensures Sum(r) == |xs|
  {
    if |xs| == 0 then []
    else
      var n := |xs| - 1;
      assert xs == xs[..n] + [xs[n]];
      Bump(Counter(xs[..n]), xs[n])
  }

  /** Counting one more element is one `Bump`. */
  lemma CounterSnoc<K(!new)>(xs: seq<K>, x: K)
    ensures Counter(xs + [x]) == Bump(Counter(xs), x)
  {
    assert (xs + [x])[..|xs|] == xs;
  }

  /** The keys of a key/value list, in order. */
  function KeySeq<K, V>(s: seq<(K, V)>): (r: seq<K>)
    ensures |r| == |s| && forall i :: 0 <= i < |s| ==> r[i] == s[i].0
  {
    seq(|s|, i requires 0 <= i < |s| => s[i].0)
  }

  /** The distinct elements of `xs`, each at the place it first occurs. */
  function FirstOccurrences<K(==)>(xs: seq<K>): seq<K>
  {
    if |xs| == 0 then []
    else
      var n := |xs| - 1;
      FirstOccurrences(xs[..n]) + (if xs[n] in xs[..n] then [] else [xs[n]])
  }

  /** A Counter lists its keys in order of first occurrence, as a Python dict does. */
  lemma {:induction false} CounterKeyOrder<K(!new)>(xs: seq<K>)
    ensures KeySeq(Counter(xs)) == FirstOccurrences(xs)
  {
    if |xs| > 0 {
      var n := |xs| - 1;
      var prev, x := xs[..n], xs[n];
      CounterKeyOrder(prev);
      assert Counter(xs) == Bump(Counter(prev), x);
      assert x in prev <==> x in Keys(Counter(prev));
      BumpKeySeq(Counter(prev), x);
    }
  }

  /** Bumping a present key keeps the key order; a new key goes last. */
  lemma BumpKeySeq<K(!new)>(s: seq<(K, nat)>, k: K)
    requires DistinctKeys(s)
    ensures KeySeq(Bump(s, k)) == KeySeq(s) + (if k in Keys(s) then [] else [k])
  {
    var r := Bump(s, k);
    DistinctKeysCard(s);
    DistinctKeysCard(r);
    if k in Keys(s) {
      assert Keys(r) == Keys(s);
    } else {
      assert |Keys(r)| == |Keys(s)| + 1;
    }
  }

  // ------------------------------------------------------ defaultdict(list)

  /** `groups[k]`: the list stored under `k`, empty when absent. */
  function Lookup<K(==, !new), V>(s: seq<(K, seq<V>)>, k: K): seq<V>
  {
    var i := Find(s, k);
    if i < |s| then s[i].1 else []
  }

  function TotalLength<K, V>(s: seq<(K, seq<V>)>): nat
  {
    if |s| == 0 then 0 else |s[0].1| + TotalLength(s[1..])
  }

  lemma {:induction false} TotalLengthUpdate<K, V>(s: seq<(K, seq<V>)>, i: nat, p: (K, seq<V>))
    requires i < |s|
    ensures TotalLength(s[i := p]) + |s[i].1| == TotalLength(s) + |p.1|
  {
    if i > 0 {
      TotalLengthUpdate(s[1..], i - 1, p);
      assert s[i := p][1..] == s[1..][i - 1 := p];
    }
  }

  lemma {:induction false} TotalLengthAppend<K, V>(s: seq<(K, seq<V>)>, p: (K, seq<V>))
    ensures TotalLength(s + [p]) == TotalLength(s) + |p.1|
  {
    if |s| > 0 {
      TotalLengthAppend(s[1..], p);
      assert (s + [p])[1..] == s[1..] + [p];
    }
  }

  /**
   * `groups[k].append(v)`: `v` is added at the end of the list under `k`
   * (a new key is added at the end), every other list is unchanged, and
   * the total length grows by one.
   */
  function AppendTo<K(==, !new), V>(s: seq<(K, seq<V>)>, k: K, v: V): (r: seq<(K, seq<V>)>)
    ensures Lookup(r, k) == Lookup(s, k) + [v]
    ensures forall k' :: k' != k ==> Lookup(r, k') == Lookup(s, k')
    ensures TotalLength(r) == TotalLength(s) + 1
    ensures Keys(r) == Keys(s) + {k}
    ensures DistinctKeys(s) ==> DistinctKeys(r)
  {
    var i := Find(s, k);
    FindPresent(s, k);
    if i < |s| then
      var r := s[i := (k, s[i].1 + [v])];
      TotalLengthUpdate(s, i, (k, s[i].1 + [v]));
      assert forall k' :: Find(r, k') == Find(s, k') by {
        forall k' ensures Find(r, k') == Find(s, k') {
          FindSameKeys(s, r, k');
        }
      }
      KeysSameKeys(s, r);
      r
    else
      var r := s + [(k, [v])];
      TotalLengthAppend(s, (k, [v]));
      forall k' ensures Find(r, k') == (if Find(s, k') < |s| then Find(s, k') else if k' == k then |s| else |r|) {
        FindSnoc(s, (k, [v]), k');
      }
      KeysSnoc(s, (k, [v]));
      r
  }

  /** The values paired with key `k`, in order. */
  function ValuesFor<K(==, !new), V>(kvs: seq<(K, V)>, k: K): seq<V>
  {
    if |kvs| == 0 then []
    else
      var n := |kvs| - 1;
      ValuesFor(kvs[..n], k) + (if kvs[n].0 == k then [kvs[n].1] else [])
  }

  /** Grouping one more pair is one `AppendTo`. */
  lemma GroupBySnoc<K(!new), V>(kvs: seq<(K, V)>, p: (K, V))
    ensures GroupBy(kvs + [p]) == AppendTo(GroupBy(kvs), p.0, p.1)
  {
    assert (kvs + [p])[..|kvs|] == kvs;
  }

  /**
   * Appending every `(k, v)` to a `defaultdict(list)` in order: each key's
   * list holds exactly its values in input order, and the list lengths add
   * up to the number of pairs.
   */
  function GroupBy<K(==, !new), V>(kvs: seq<(K, V)>): (r: seq<(K, seq<V>)>)
    ensures DistinctKeys(r)
    ensures Keys(r) == Keys(kvs)
    ensures forall k :: Lookup(r, k) == ValuesFor(kvs, k)
    ensures TotalLength(r) == |kvs|
  {
    if |kvs| == 0 then []
    else
      var n := |kvs| - 1;
      var prev := kvs[..n];
      assert kvs == prev + [kvs[n]];
      KeysSnoc(prev, kvs[n]);
      assert forall k :: ValuesFor(kvs, k) == ValuesFor(prev, k) + (if kvs[n].0 == k then [kvs[n].1] else []);
      AppendTo(GroupBy(prev), kvs[n].0, kvs[n].1)
  }
}

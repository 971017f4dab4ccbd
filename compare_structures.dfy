/**
 * Interaction-set comparison (06_compare_structures.py): the same walk of
 * the interaction detector's output as extraction, reduced to canonical
 * `(residue, residue, type)` triples, and the precision/recall/F1
 * comparison of a predicted against an experimental triple list, overall
 * and per interaction type.
 *
 * Ratios are exact rationals; IEEE rounding is not modelled.
 */
module CompareStructures {
  import opened JsonValue
  import opened AtomPaths
  import opened TextOrder
  import opened Tally
  import A = AnalyzeInteractions

  /** `tuple(sorted([res1, res2])) + (itype,)`. */
  datatype Triple = Triple(lo: string, hi: string, kind: string)

  /** The canonical triple of a contact between residues labelled `res1` and `res2`. */
  function Canonical(res1: string, res2: string, kind: string): (t: Triple)
    ensures Le(t.lo, t.hi)
    ensures (t.lo == res1 && t.hi == res2) || (t.lo == res2 && t.hi == res1)
    ensures t.kind == kind
  {
    var p := SortedPair(res1, res2);
    Triple(p.0, p.1, kind)
  }

  /** Swapping the two atoms of a contact yields the identical triple. */
  lemma CanonicalSymmetric(res1: string, res2: string, kind: string)
    ensures Canonical(res1, res2, kind) == Canonical(res2, res1, kind)
  {
    SortedPairSymmetric(res1, res2);
  }

  // ---------------------------------------------------------------- parsing

  /** The triple one contact descriptor yields for the key residue `res1`. */
  function ContactTriple(res1: string, c: Json): Result<Option<Triple>>
  {
    if !c.Obj? then Ok(None)
    else
      var bgn := GetOr(c.fields, "bgn_atom", Str(""));
      var kind := GetOr(c.fields, "type", Str("unknown"));
      if !bgn.Str? then Err(PathNotText)
      else
        match ParseAtomPath(bgn.text)
        case None => Ok(None)
        case Some(a2) =>
          if !kind.Str? then Err(TypeNotText)
          else Ok(Some(Canonical(res1, ResidueLabel(a2), kind.text)))
  }

  /**
   * A descriptor is skipped exactly when it is not an object or its
   * partner path is text with fewer than four parts.
   */
  lemma TripleSkipped(res1: string, c: Json)
    ensures ContactTriple(res1, c) == Ok(None) <==>
      !c.Obj? || (GetOr(c.fields, "bgn_atom", Str("")).Str?
                  && Slashes(Strip(GetOr(c.fields, "bgn_atom", Str("")).text)) < 3)
  {
  }

  /** A descriptor without `bgn_atom` is skipped: the empty default never parses. */
  lemma TripleWithoutPartner(res1: string, c: Json)
    requires c.Obj? && Get(c.fields, "bgn_atom").None?
    ensures ContactTriple(res1, c) == Ok(None)
  {
    assert GetOr(c.fields, "bgn_atom", Str("")) == Str("");
    EmptyPathIsMalformed();
  }

  /**
   * A triple joins `res1` to the residue of the atom parsed from the
   * descriptor's `bgn_atom` text, with the triple's own type.
   */
  lemma TripleFields(res1: string, c: Json)
    ensures var r := ContactTriple(res1, c);
      r.Ok? && r.value.Some? ==>
        && c.Obj?
        && exists p, a2 :: Get(c.fields, "bgn_atom") == Some(Str(p)) && ParseAtomPath(p) == Some(a2)
                           && r.value.value == Canonical(res1, ResidueLabel(a2), r.value.value.kind)
  {
    if c.Obj? {
      var bgn := GetOr(c.fields, "bgn_atom", Str(""));
      var kind := GetOr(c.fields, "type", Str("unknown"));
      if Get(c.fields, "bgn_atom").None? {
        TripleWithoutPartner(res1, c);
      } else if bgn.Str? && ParseAtomPath(bgn.text).Some? && kind.Str? {
        var a2 := ParseAtomPath(bgn.text).value;
        assert ContactTriple(res1, c) == Ok(Some(Canonical(res1, ResidueLabel(a2), kind.text)));
        assert Get(c.fields, "bgn_atom") == Some(Str(bgn.text));
      }
    }
  }

  /** A triple's type is the descriptor's `type` text, `unknown` when absent. */
  lemma TripleKind(res1: string, c: Json)
    ensures var r := ContactTriple(res1, c);
      r.Ok? && r.value.Some? ==>
        && (Get(c.fields, "type").None? ==> r.value.value.kind == "unknown")
        && (Get(c.fields, "type").Some? ==> Get(c.fields, "type") == Some(Str(r.value.value.kind)))
  {
    if c.Obj? {
      var kind := GetOr(c.fields, "type", Str("unknown"));
      if Get(c.fields, "type").None? {
        assert kind == Str("unknown");
      } else {
        assert kind == Get(c.fields, "type").value;
      }
    }
  }

  function ContactTriples(res1: string, cs: seq<Json>): Result<seq<Triple>>
  {
    if |cs| == 0 then Ok([])
    else
      var rest := ContactTriples(res1, cs[1..]);
      match ContactTriple(res1, cs[0])
      case Err(e) => Err(e)
      case Ok(None) => rest
      case Ok(Some(t)) => Prepend([t], rest)
  }

  function EntryTriples(key: string, v: Json): Result<seq<Triple>>
  {
    if !v.Obj? || Get(v.fields, "contact").None? then Ok([])
    else match ParseAtomPath(key)
      case None => Ok([])
      case Some(a1) => ContactTriples(ResidueLabel(a1), AsList(Get(v.fields, "contact").value))
  }

  function ParseAll(entries: seq<(string, Json)>): Result<seq<Triple>>
  {
    if |entries| == 0 then Ok([])
    else Then(EntryTriples(entries[0].0, entries[0].1), ParseAll(entries[1..]))
  }

  /**
   * An atom entry whose value is not an object, whose key has fewer than
   * four parts, or which has no `contact` field yields no triples and
   * raises nothing.
   */
  lemma UnusableEntry(key: string, v: Json)
    requires !v.Obj? || Slashes(Strip(key)) < 3 || Get(v.fields, "contact").None?
    ensures EntryTriples(key, v) == Ok([])
  {
  }

  /** The interaction list `parse_arpeggio_interactions` returns or raises for a decoded document. */
  function Parsed(data: Json): Result<seq<Triple>>
  {
    if data.Obj? then ParseAll(data.fields) else Err(NotAnObject)
  }

  function KindsOf(ts: seq<Triple>): (r: seq<string>)
    ensures |r| == |ts|
  {
    if |ts| == 0 then [] else KindsOf(ts[..|ts| - 1]) + [ts[|ts| - 1].kind]
  }

  /** The pair (interactions, per-type counts) matches the interaction list `spec`. */
  predicate Tallied(r: Result<(seq<Triple>, seq<(string, nat)>)>, spec: Result<seq<Triple>>)
  {
    match spec
    case Err(e) => r == Err(e)
    case Ok(ts) => r == Ok((ts, Counter(KindsOf(ts))))
  }

  /**
   * `parse_arpeggio_interactions` after the file is loaded: the triples in
   * document order, duplicates kept, with a Counter of their types whose
   * counts add up to the number of triples.
   */
  method ParseArpeggioInteractions(data: Json) returns (r: Result<(seq<Triple>, seq<(string, nat)>)>)
    ensures Tallied(r, Parsed(data))
    ensures r.Ok? ==> Sum(r.value.1) == |r.value.0|
  {
    if !data.Obj? {
      return Err(NotAnObject);
    }
    var entries := data.fields;
    var interactions: seq<Triple> := [];
    var types: seq<(string, nat)> := [];
    assert entries[0..] == entries;
    PrependNothing(ParseAll(entries));
    for i := 0 to |entries|
      invariant ParseAll(entries) == Prepend(interactions, ParseAll(entries[i..]))
      invariant types == Counter(KindsOf(interactions))
    {
      var (atomKey, atomData) := entries[i];
      ghost var later := ParseAll(entries[i + 1..]);
      assert entries[i..][1..] == entries[i + 1..];
      PrependNothing(later);
      if !atomData.Obj? || Get(atomData.fields, "contact").None? {
        continue;
      }
      var head := ParseAtomPath(atomKey);
      if head.None? {
        continue;
      }
      var res1 := ResidueLabel(head.value);
      var contacts := AsList(Get(atomData.fields, "contact").value);
      var extended := AppendContactTriples(interactions, types, res1, contacts);
      if extended.Err? {
        return Err(extended.error);
      }
      PrependPrepend(interactions, ContactTriples(res1, contacts).value, later);
      interactions, types := extended.value.0, extended.value.1;
    }
    assert entries[|entries|..] == [] && interactions + [] == interactions;
    return Ok((interactions, types));
  }

  /** The inner loop: append one atom's triples and count their types. */
  method AppendContactTriples(interactions: seq<Triple>, types: seq<(string, nat)>, res1: string, contacts: seq<Json>)
    returns (r: Result<(seq<Triple>, seq<(string, nat)>)>)
    requires types == Counter(KindsOf(interactions))
    ensures Tallied(r, Prepend(interactions, ContactTriples(res1, contacts)))
  {
    var acc, counts := interactions, types;
    assert contacts[0..] == contacts;
    for j := 0 to |contacts|
      invariant Prepend(interactions, ContactTriples(res1, contacts)) == Prepend(acc, ContactTriples(res1, contacts[j..]))
      invariant counts == Counter(KindsOf(acc))
    {
      var c := contacts[j];
      ContactTriplesAt(res1, contacts, j);
      if !c.Obj? {
        assert ContactTriple(res1, c) == Ok(None);
        continue;
      }
      var bgn := GetOr(c.fields, "bgn_atom", Str(""));
      var itype := GetOr(c.fields, "type", Str("unknown"));
      if !bgn.Str? {
        assert ContactTriple(res1, c) == Err(PathNotText);
        return Err(PathNotText);
      }
      var partner := ParseAtomPath(bgn.text);
      if partner.None? {
        assert ContactTriple(res1, c) == Ok(None);
        continue;
      }
      if !itype.Str? {
        assert ContactTriple(res1, c) == Err(TypeNotText);
        return Err(TypeNotText);
      }
      var t := Canonical(res1, ResidueLabel(partner.value), itype.text);
      assert ContactTriple(res1, c) == Ok(Some(t));
      PrependPrepend(acc, [t], ContactTriples(res1, contacts[j + 1..]));
      TallyStep(acc, t);
      acc := acc + [t];
      counts := Bump(counts, t.kind);
    }
    assert contacts[|contacts|..] == [] && acc + [] == acc;
    return Ok((acc, counts));
  }

  /** The triples from the `j`-th descriptor on: that descriptor's outcome, then the rest. */
  lemma ContactTriplesAt(res1: string, cs: seq<Json>, j: nat)
    requires j < |cs|
    ensures ContactTriples(res1, cs[j..]) ==
      match ContactTriple(res1, cs[j])
      case Err(e) => Err(e)
      case Ok(None) => ContactTriples(res1, cs[j + 1..])
      case Ok(Some(t)) => Prepend([t], ContactTriples(res1, cs[j + 1..]))
  {
    assert cs[j..][1..] == cs[j + 1..];
  }

  /** One more triple bumps the count of its type. */
  lemma TallyStep(ts: seq<Triple>, t: Triple)
    ensures Counter(KindsOf(ts + [t])) == Bump(Counter(KindsOf(ts)), t.kind)
  {
    assert (ts + [t])[..|ts|] == ts;
    CounterSnoc(KindsOf(ts), t.kind);
  }

  // ------------------------------------------- agreement with extraction

  /** The triple of an extracted record. */
  function TripleOf(x: A.Interaction): Triple
  {
    Canonical(A.Residue1(x), A.Residue2(x), x.kind)
  }

  function TriplesOf(xs: seq<A.Interaction>): (r: seq<Triple>)
    ensures |r| == |xs|
  {
    if |xs| == 0 then [] else [TripleOf(xs[0])] + TriplesOf(xs[1..])
  }

  lemma {:induction false} TriplesOfConcat(a: seq<A.Interaction>, b: seq<A.Interaction>)
    ensures TriplesOf(a + b) == TriplesOf(a) + TriplesOf(b)
  {
    if |a| > 0 {
      TriplesOfConcat(a[1..], b);
      assert (a + b)[1..] == a[1..] + b;
    } else {
      assert a + b == b;
    }
  }

  /**
   * The parser skips exactly the descriptors extraction skips and yields
   * the triple of the record extraction yields; it raises only where
   * extraction raises (extraction may also reject a distance).
   */
  lemma ContactAgrees(a1: AtomId, c: Json)
    ensures A.ContactRecord(a1, c) == Ok(None) <==> ContactTriple(ResidueLabel(a1), c) == Ok(None)
    ensures A.ContactRecord(a1, c).Ok? && A.ContactRecord(a1, c).value.Some? ==>
      ContactTriple(ResidueLabel(a1), c) == Ok(Some(TripleOf(A.ContactRecord(a1, c).value.value)))
    ensures ContactTriple(ResidueLabel(a1), c).Err? ==>
      A.ContactRecord(a1, c) == Err(ContactTriple(ResidueLabel(a1), c).error)
  {
    if c.Obj? {
      var bgn := GetOr(c.fields, "bgn_atom", Str(""));
      var kind := GetOr(c.fields, "type", Str("unknown"));
      var distance := GetOr(c.fields, "distance", Num(0.0));
      if bgn.Str? && ParseAtomPath(bgn.text).Some? && kind.Str? {
        var a2 := ParseAtomPath(bgn.text).value;
        assert ContactTriple(ResidueLabel(a1), c) == Ok(Some(Canonical(ResidueLabel(a1), ResidueLabel(a2), kind.text)));
        if A.Distance(distance).Ok? {
          assert A.ContactRecord(a1, c) == Ok(Some(A.Interaction(a1, a2, kind.text, A.Distance(distance).value)));
        }
      }
    }
  }

  lemma {:induction false} ContactsAgree(a1: AtomId, cs: seq<Json>)
    ensures A.ContactRecords(a1, cs).Ok? ==>
      ContactTriples(ResidueLabel(a1), cs) == Ok(TriplesOf(A.ContactRecords(a1, cs).value))
    ensures ContactTriples(ResidueLabel(a1), cs).Err? ==> A.ContactRecords(a1, cs).Err?
  {
    if |cs| > 0 {
      ContactsAgree(a1, cs[1..]);
      ContactAgrees(a1, cs[0]);
    }
  }

  lemma EntryAgrees(key: string, v: Json)
    ensures A.EntryRecords(key, v).Ok? ==> EntryTriples(key, v) == Ok(TriplesOf(A.EntryRecords(key, v).value))
    ensures EntryTriples(key, v).Err? ==> A.EntryRecords(key, v).Err?
  {
    if v.Obj? && ParseAtomPath(key).Some? && Get(v.fields, "contact").Some? {
      ContactsAgree(ParseAtomPath(key).value, AsList(Get(v.fields, "contact").value));
    }
  }

  lemma {:induction false} AllAgree(entries: seq<(string, Json)>)
    ensures A.ExtractAll(entries).Ok? ==> ParseAll(entries) == Ok(TriplesOf(A.ExtractAll(entries).value))
    ensures ParseAll(entries).Err? ==> A.ExtractAll(entries).Err?
  {
    if |entries| > 0 {
      AllAgree(entries[1..]);
      EntryAgrees(entries[0].0, entries[0].1);
      var head := A.EntryRecords(entries[0].0, entries[0].1);
      var tail := A.ExtractAll(entries[1..]);
      if head.Ok? && tail.Ok? {
        TriplesOfConcat(head.value, tail.value);
      }
    }
  }

  /**
   * Both scripts apply the same skip rules: when extraction succeeds the
   * parser returns the canonical triples of its records, in the same
   * order, and the parser raises only where extraction raises.
   */
  lemma SameSkipRules(data: Json)
    ensures A.Extracted(data).Ok? ==> Parsed(data) == Ok(TriplesOf(A.Extracted(data).value))
    ensures Parsed(data).Err? ==> A.Extracted(data).Err?
  {
    if data.Obj? {
      AllAgree(data.fields);
    }
  }

  // ------------------------------------------------------------- comparison

  /** One block of metrics, for all interactions or for one interaction type. */
  datatype Metrics = Metrics(
    predicted: nat, experimental: nat,
    tp: nat, fp: nat, fn: nat,
    precision: real, recall: real, f1: real)

  /** `n / d if d else 0.0`. */
  function Ratio(n: nat, d: nat): real
  {
    if d > 0 then n as real / d as real else 0.0
  }

  /** A share of `d` counts lies in [0, 1] and is 0 or 1 only at the ends. */
  lemma RatioSpec(n: nat, d: nat)
    requires n <= d
    ensures 0.0 <= Ratio(n, d) <= 1.0
    ensures Ratio(n, d) == 0.0 <==> n == 0 || d == 0
    ensures Ratio(n, d) == 1.0 <==> d > 0 && n == d
  {
    if d > 0 {
      QuotientBounds(n as real, d as real);
    }
  }

  /** `2 * p * r / (p + r) if (p + r) > 0 else 0.0`. */
  function F1(p: real, r: real): real
  {
    if p + r > 0.0 then 2.0 * p * r / (p + r) else 0.0
  }

  /**
   * The harmonic mean of two ratios lies in [0, 1]; it is 0 exactly when
   * one of them is, and 1 exactly when both are.
   */
  lemma F1Spec(p: real, r: real)
    requires 0.0 <= p <= 1.0 && 0.0 <= r <= 1.0
    ensures 0.0 <= F1(p, r) <= 1.0
    ensures F1(p, r) == 0.0 <==> p == 0.0 || r == 0.0
    ensures F1(p, r) == 1.0 <==> p == 1.0 && r == 1.0
  {
    if p + r > 0.0 {
      ProductBounds(p, r);
      ProductOne(p, r);
      QuotientBounds(2.0 * p * r, p + r);
    }
  }

  lemma MulNonneg(x: real, y: real)
    requires x >= 0.0 && y >= 0.0
    ensures x * y >= 0.0
  {}
  lemma ZeroProduct(x: real, y: real)
    requires x * y == 0.0
    ensures x == 0.0 || y == 0.0
  {}
  lemma ProductBounds(p: real, r: real)
    requires 0.0 <= p <= 1.0 && 0.0 <= r <= 1.0
    ensures 0.0 <= 2.0 * p * r <= p + r
    ensures 2.0 * p * r == 0.0 <==> p == 0.0 || r == 0.0
  {
    MulNonneg(p, r);
    MulNonneg(p, 1.0 - r);
    MulNonneg(r, 1.0 - p);
    assert p * (1.0 - r) == p - p * r;
    assert r * (1.0 - p) == r - p * r;
    if p * r == 0.0 { ZeroProduct(p, r); }
  }
  lemma ProductOne(p: real, r: real)
    requires 0.0 <= p <= 1.0 && 0.0 <= r <= 1.0 && p + r > 0.0
    ensures 2.0 * p * r == p + r <==> p == 1.0 && r == 1.0
  {
    var x, y := p * (1.0 - r), r * (1.0 - p);
    MulNonneg(p, 1.0 - r);
    MulNonneg(r, 1.0 - p);
    assert x == p - p * r && y == r - p * r;
    if 2.0 * p * r == p + r {
      assert x == 0.0 && y == 0.0;
      ZeroProduct(p, 1.0 - r);
      ZeroProduct(r, 1.0 - p);
    }
  }
  lemma QuotientBounds(n: real, d: real)
    requires 0.0 <= n <= d && d > 0.0
    ensures 0.0 <= n / d <= 1.0
    ensures n / d == 0.0 <==> n == 0.0
    ensures n / d == 1.0 <==> n == d
  {
  }
  lemma Dice(t: real, a: real, b: real)
    requires t > 0.0 && a > 0.0 && b > 0.0
    ensures F1(t / a, t / b) == 2.0 * t / (a + b)
  {
    var p, r := t / a, t / b;
    assert p * a == t && r * b == t;
    MulNonneg(p, 1.0);
    assert p > 0.0 && r > 0.0;
    var g := 2.0 * t / (a + b);
    assert g * (a + b) == 2.0 * t;
    assert (p + r) * (a * b) == t * (a + b) by {
      assert (p + r) * (a * b) == (p * a) * b + (r * b) * a;
    }
    assert 2.0 * p * r * (a * b) == 2.0 * t * t by {
      assert 2.0 * p * r * (a * b) == 2.0 * (p * a) * (r * b);
    }
    assert g * (p + r) * (a * b) == 2.0 * p * r * (a * b) by {
      assert g * (p + r) * (a * b) == g * (a + b) * t;
    }
    MulNonneg(a, b);
    assert a * b > 0.0;
    assert g * (p + r) == 2.0 * p * r;
  }

  /** The metrics block for a predicted and an experimental set. */
  function Score(pred: set<Triple>, exp: set<Triple>): Metrics
  {
    var tp := |pred * exp|;
    var precision := Ratio(tp, |pred|);
    var recall := Ratio(tp, |exp|);
    Metrics(|pred|, |exp|, tp, |pred - exp|, |exp - pred|, precision, recall, F1(precision, recall))
  }

  /**
   * True positives are shared, false positives only predicted, false
   * negatives only experimental; precision, recall and F1 lie in [0, 1]
   * and are 1 exactly when nothing is missed on that side.
   */
  lemma ScoreSpec(pred: set<Triple>, exp: set<Triple>)
    ensures var m := Score(pred, exp);
      && m.predicted == |pred| && m.experimental == |exp|
      && m.tp + m.fp == |pred| && m.tp + m.fn == |exp|
      && (m.fp == 0 <==> pred <= exp)
      && (m.fn == 0 <==> exp <= pred)
      && 0.0 <= m.precision <= 1.0 && 0.0 <= m.recall <= 1.0 && 0.0 <= m.f1 <= 1.0
      && (m.precision == 1.0 <==> pred != {} && pred <= exp)
      && (m.recall == 1.0 <==> exp != {} && exp <= pred)
      && (m.f1 == 1.0 <==> pred != {} && pred == exp)
  {
    var m := Score(pred, exp);
    NothingLeft(pred, exp);
    NothingLeft(exp, pred);
    assert exp * pred == pred * exp;
    RatioSpec(m.tp, |pred|);
    RatioSpec(m.tp, |exp|);
    F1Spec(m.precision, m.recall);
    assert pred == exp <==> pred <= exp && exp <= pred;
    assert m.f1 == 1.0 <==> m.precision == 1.0 && m.recall == 1.0;
  }

  lemma NothingLeft(a: set<Triple>, b: set<Triple>)
    ensures |a - b| == 0 <==> a <= b
  {
    if |a - b| == 0 {
      assert a - b == {};
      forall x | x in a ensures x in b {
        assert x !in a - b;
      }
    }
  }

  /** F1 is the Dice coefficient `2 tp / (|pred| + |exp|)`. */
  lemma F1Dice(pred: set<Triple>, exp: set<Triple>)
    ensures Score(pred, exp).f1 ==
      if pred + exp == {} then 0.0 else 2.0 * Score(pred, exp).tp as real / (|pred| + |exp|) as real
  {
    var m := Score(pred, exp);
    var tp := |pred * exp|;
    assert m.tp == tp && m.f1 == F1(m.precision, m.recall);
    if tp > 0 {
      assert exp * pred == pred * exp;
      assert |pred| > 0 && |exp| > 0;
      assert m.precision == tp as real / |pred| as real;
      assert m.recall == tp as real / |exp| as real;
      Dice(tp as real, |pred| as real, |exp| as real);
    } else {
      assert m.precision == 0.0 && m.recall == 0.0;
    }
  }

  /** Against an empty reference everything predicted is a false positive and every ratio is 0. */
  lemma EmptyReference(pred: set<Triple>)
    ensures var m := Score(pred, {});
      m.tp == 0 && m.fp == |pred| && m.fn == 0 && m.precision == 0.0 && m.recall == 0.0 && m.f1 == 0.0
  {
    assert pred * {} == {} && pred - {} == pred;
  }

  /** Swapping the roles of the two lists swaps precision and recall, and FP and FN. */
  lemma ScoreSwap(pred: set<Triple>, exp: set<Triple>)
    ensures var m, w := Score(pred, exp), Score(exp, pred);
      w.tp == m.tp && w.fp == m.fn && w.fn == m.fp &&
      w.precision == m.recall && w.recall == m.precision && w.f1 == m.f1
  {
    assert exp * pred == pred * exp;
  }

  function SetOf(xs: seq<Triple>): set<Triple>
  {
    set t | t in xs
  }

  /** The interaction types occurring in `xs`. */
  function KindSet(xs: seq<Triple>): set<string>
  {
    set t | t in xs :: t.kind
  }

  /** The members of `s` of interaction type `kind`. */
  function OfKind(s: set<Triple>, kind: string): set<Triple>
  {
    set t | t in s && t.kind == kind
  }

  /** The `by_type` entry for one interaction type. */
  function TypeScore(pred: seq<Triple>, exp: seq<Triple>, kind: string): Metrics
  {
    Score(OfKind(SetOf(pred), kind), OfKind(SetOf(exp), kind))
  }

  /** `by_type`: one entry per type occurring in either list. */
  function ByType(pred: seq<Triple>, exp: seq<Triple>): map<string, Metrics>
  {
    map k | k in KindSet(pred) + KindSet(exp) :: TypeScore(pred, exp, k)
  }

  /** `compare_interactions`: the overall block and the per-type blocks. */
  method CompareInteractions(pred: seq<Triple>, exp: seq<Triple>) returns (overall: Metrics, byType: map<string, Metrics>)
    ensures overall == Score(SetOf(pred), SetOf(exp))
    ensures byType == ByType(pred, exp)
  {
    overall := Score(SetOf(pred), SetOf(exp));
    var predByType := GroupByKind(pred);
    var expByType := GroupByKind(exp);
    byType := ScoreTypes(predByType, expByType);
    forall k | k in byType ensures byType[k] == TypeScore(pred, exp, k) {
      GroupOrEmpty(pred, predByType, k);
      GroupOrEmpty(exp, expByType, k);
    }
    ByTypeEntries(pred, exp, byType);
  }

  /** `by_type.get(itype, set())`. */
  function GroupOf(groups: map<string, set<Triple>>, kind: string): set<Triple>
  {
    if kind in groups then groups[kind] else {}
  }

  /** The loop over `all_types`: one entry per type of either grouping. */
  method ScoreTypes(predByType: map<string, set<Triple>>, expByType: map<string, set<Triple>>)
    returns (byType: map<string, Metrics>)
    ensures byType.Keys == predByType.Keys + expByType.Keys
    ensures forall k :: k in byType ==> byType[k] == Score(GroupOf(predByType, k), GroupOf(expByType, k))
  {
    var allTypes := predByType.Keys + expByType.Keys;
    byType := map[];
    var remaining := allTypes;
    while remaining != {}
      invariant remaining <= allTypes
      invariant byType.Keys == allTypes - remaining
      invariant forall k :: k in byType ==> byType[k] == Score(GroupOf(predByType, k), GroupOf(expByType, k))
      decreases remaining
    {
      var itype :| itype in remaining;
      var predType := if itype in predByType then predByType[itype] else {};
      var expType := if itype in expByType then expByType[itype] else {};
      byType := byType[itype := Score(predType, expType)];
      remaining := remaining - {itype};
    }
  }

  /** `by_type.get(itype, set())` is the part of the list of type `itype`. */
  lemma GroupOrEmpty(xs: seq<Triple>, groups: map<string, set<Triple>>, kind: string)
    requires groups.Keys == KindSet(xs)
    requires forall k :: k in groups ==> groups[k] == OfKind(SetOf(xs), k)
    ensures GroupOf(groups, kind) == OfKind(SetOf(xs), kind)
  {
    if kind !in groups {
      forall t | t in SetOf(xs) ensures t.kind != kind {
        assert t.kind in KindSet(xs);
      }
    }
  }

  lemma ByTypeEntries(pred: seq<Triple>, exp: seq<Triple>, byType: map<string, Metrics>)
    requires byType.Keys == KindSet(pred) + KindSet(exp)
    requires forall k :: k in byType ==> byType[k] == TypeScore(pred, exp, k)
    ensures byType == ByType(pred, exp)
  {
  }

  /** The `pred_by_type` / `exp_by_type` loop: each type's set of distinct triples. */
  method GroupByKind(xs: seq<Triple>) returns (groups: map<string, set<Triple>>)
    ensures groups.Keys == KindSet(xs)
    ensures forall k :: k in groups ==> groups[k] == OfKind(SetOf(xs), k)
  {
    groups := map[];
    for i := 0 to |xs|
      invariant groups.Keys == KindSet(xs[..i])
      invariant forall k :: k in groups ==> groups[k] == OfKind(SetOf(xs[..i]), k)
    {
      var interaction := xs[i];
      assert xs[..i + 1] == xs[..i] + [interaction];
      var itype := interaction.kind;
      if itype !in groups {
        groups := groups[itype := {}];
      }
      groups := groups[itype := groups[itype] + {interaction}];
    }
    assert xs[..|xs|] == xs;
  }

  // ----------------------------------------------- per-type consistency

  /** `by_type` has an entry for exactly the types occurring in either list. */
  lemma ByTypeKeys(pred: seq<Triple>, exp: seq<Triple>, kind: string)
    ensures kind in ByType(pred, exp) <==> exists t :: (t in pred || t in exp) && t.kind == kind
  {
  }

  /**
   * Each per-type entry counts the distinct triples of its type on each
   * side and balances like the overall block.
   */
  lemma PerTypeBalance(pred: seq<Triple>, exp: seq<Triple>, kind: string)
    requires kind in ByType(pred, exp)
    ensures var m := ByType(pred, exp)[kind];
      && m.predicted == |set t | t in pred && t.kind == kind|
      && m.experimental == |set t | t in exp && t.kind == kind|
      && m.tp + m.fp == m.predicted && m.tp + m.fn == m.experimental
      && 0.0 <= m.precision <= 1.0 && 0.0 <= m.recall <= 1.0 && 0.0 <= m.f1 <= 1.0
  {
    var p, e := OfKind(SetOf(pred), kind), OfKind(SetOf(exp), kind);
    ScoreSpec(p, e);
    assert p == set t | t in pred && t.kind == kind;
    assert e == set t | t in exp && t.kind == kind;
  }

  /** Repeated triples collapse before counting: doubling a list changes nothing. */
  lemma DuplicatesCollapse(pred: seq<Triple>, exp: seq<Triple>)
    ensures Score(SetOf(pred + pred), SetOf(exp)) == Score(SetOf(pred), SetOf(exp))
    ensures ByType(pred + pred, exp) == ByType(pred, exp)
  {
    assert SetOf(pred + pred) == SetOf(pred);
    assert KindSet(pred + pred) == KindSet(pred);
  }

  /** Every per-type entry has at least one interaction on one side. */
  lemma TypesPresent(pred: seq<Triple>, exp: seq<Triple>)
    ensures forall k :: k in ByType(pred, exp) ==>
      ByType(pred, exp)[k].predicted + ByType(pred, exp)[k].experimental > 0
  {
    forall k | k in ByType(pred, exp)
      ensures ByType(pred, exp)[k].predicted + ByType(pred, exp)[k].experimental > 0
    {
      if k in KindSet(pred) {
        var t :| t in pred && t.kind == k;
        assert t in OfKind(SetOf(pred), k);
      } else {
        var t :| t in exp && t.kind == k;
        assert t in OfKind(SetOf(exp), k);
      }
    }
  }

  /** The columns of a metrics block that count interactions. */
  datatype Column = Predicted | Experimental | TruePositives | FalsePositives | FalseNegatives

  function Cell(m: Metrics, c: Column): nat
  {
    match c
    case Predicted => m.predicted
    case Experimental => m.experimental
    case TruePositives => m.tp
    case FalsePositives => m.fp
    case FalseNegatives => m.fn
  }

  /** Column `c` summed over the per-type entries of the types `ks`. */
  function ColumnSum(ks: seq<string>, byType: map<string, Metrics>, c: Column): nat
    requires forall k :: k in ks ==> k in byType
  {
    if |ks| == 0 then 0 else Cell(byType[ks[0]], c) + ColumnSum(ks[1..], byType, c)
  }

  /** The interactions column `c` counts, overall. */
  function Counted(pred: set<Triple>, exp: set<Triple>, c: Column): set<Triple>
  {
    match c
    case Predicted => pred
    case Experimental => exp
    case TruePositives => pred * exp
    case FalsePositives => pred - exp
    case FalseNegatives => exp - pred
  }

  function SizeByKind(s: set<Triple>, ks: seq<string>): nat
  {
    if |ks| == 0 then 0 else |OfKind(s, ks[0])| + SizeByKind(s, ks[1..])
  }

  /** Splitting a set by pairwise distinct types loses and doubles nothing. */
  lemma {:induction false} KindPartition(s: set<Triple>, ks: seq<string>)
    requires forall i, j :: 0 <= i < j < |ks| ==> ks[i] != ks[j]
    ensures SizeByKind(s, ks) == |set t | t in s && t.kind in ks|
  {
    if |ks| > 0 {
      KindPartition(s, ks[1..]);
      KindSplit(s, ks);
    }
  }

  /** The part of types `ks` is the part of the first type plus the disjoint rest. */
  lemma KindSplit(s: set<Triple>, ks: seq<string>)
    requires |ks| > 0
    requires forall i, j :: 0 <= i < j < |ks| ==> ks[i] != ks[j]
    ensures |set t | t in s && t.kind in ks| == |OfKind(s, ks[0])| + |set t | t in s && t.kind in ks[1..]|
  {
    var rest := ks[1..];
    var head := OfKind(s, ks[0]);
    var tail := set t | t in s && t.kind in rest;
    forall t | t in tail ensures t.kind != ks[0] {
      var i :| 0 <= i < |rest| && rest[i] == t.kind;
      assert ks[i + 1] == rest[i];
    }
    assert head * tail == {};
    assert (set t | t in s && t.kind in ks) == head + tail;
  }

  /** Each per-type cell counts the part of the overall set of that type. */
  lemma {:induction false} ColumnByKind(pred: seq<Triple>, exp: seq<Triple>, ks: seq<string>, c: Column)
    requires forall k :: k in ks ==> k in ByType(pred, exp)
    ensures ColumnSum(ks, ByType(pred, exp), c) == SizeByKind(Counted(SetOf(pred), SetOf(exp), c), ks)
  {
    if |ks| > 0 {
      ColumnByKind(pred, exp, ks[1..], c);
      CountedOfKind(SetOf(pred), SetOf(exp), ks[0], c);
    }
  }

  /** Restricting to one type commutes with the set operation behind each column. */
  lemma CountedOfKind(p: set<Triple>, e: set<Triple>, k: string, c: Column)
    ensures Counted(OfKind(p, k), OfKind(e, k), c) == OfKind(Counted(p, e, c), k)
  {
  }

  /**
   * The per-type entries partition the overall counts: summed over the
   * types, predicted, experimental, TP, FP and FN each equal the overall
   * figure.
   */
  lemma PerTypeSums(pred: seq<Triple>, exp: seq<Triple>, ks: seq<string>, c: Column)
    requires forall i, j :: 0 <= i < j < |ks| ==> ks[i] != ks[j]
    requires forall k :: k in ks <==> k in KindSet(pred) + KindSet(exp)
    ensures ColumnSum(ks, ByType(pred, exp), c) == Cell(Score(SetOf(pred), SetOf(exp)), c)
  {
    ColumnByKind(pred, exp, ks, c);
    var s := Counted(SetOf(pred), SetOf(exp), c);
    KindPartition(s, ks);
    assert (set t | t in s && t.kind in ks) == s by {
      forall t | t in s ensures t.kind in ks {
        assert t in pred || t in exp;
      }
    }
  }

  /** A non-empty list compared with itself scores 1 overall and for every type. */
  lemma SelfComparison(xs: seq<Triple>)
    requires |xs| > 0
    ensures var m := Score(SetOf(xs), SetOf(xs));
      m.fp == 0 && m.fn == 0 && m.precision == 1.0 && m.recall == 1.0 && m.f1 == 1.0
    ensures forall k :: k in ByType(xs, xs) ==>
      var m := ByType(xs, xs)[k];
      m.fp == 0 && m.fn == 0 && m.precision == 1.0 && m.recall == 1.0 && m.f1 == 1.0
  {
    assert xs[0] in SetOf(xs);
    ScoreSpec(SetOf(xs), SetOf(xs));
    TypesPresent(xs, xs);
    forall k | k in ByType(xs, xs)
      ensures var m := ByType(xs, xs)[k];
        m.fp == 0 && m.fn == 0 && m.precision == 1.0 && m.recall == 1.0 && m.f1 == 1.0
    {
      var s := OfKind(SetOf(xs), k);
      ScoreSpec(s, s);
    }
  }
}


/**
 * Contact extraction and aggregation over the interaction detector's
 * atom-keyed output (04_analyze_interactions.py).
 *
 * The document maps atom paths to per-atom objects; an object's `contact`
 * field holds one contact descriptor or a list of them, each naming its
 * partner atom in `bgn_atom` with a `type` and a `distance`. Extraction
 * flattens these into records, silently dropping malformed entries;
 * analysis tallies the records by type, by unordered residue pair and by
 * residue.
 */
module AnalyzeInteractions {
  import opened JsonValue
  import opened AtomPaths
  import opened TextOrder
  import opened Tally

  /** One contact: the atom of the key, the partner atom, its type and distance. */
  datatype Interaction = Interaction(atom1: AtomId, atom2: AtomId, kind: string, distance: real)

  // ------------------------------------------------------------ extraction

  /** `float(distance) if distance else 0.0`; textual distances are not parsed. */
  function Distance(v: Json): Result<real>
  {
    if Falsy(v) then Ok(0.0)
    else match v
      case Num(x) => Ok(x)
      case Bool(_) => Ok(1.0)
      case _ => Err(DistanceNotNumber)
  }

  /**
   * The record one contact descriptor yields for the key atom `a1`:
   * `Ok(None)` when the descriptor is skipped, an error when the script
   * would raise.
   */
  function ContactRecord(a1: AtomId, c: Json): Result<Option<Interaction>>
  {
    if !c.Obj? then Ok(None)
    else
      var bgn := GetOr(c.fields, "bgn_atom", Str(""));
      var kind := GetOr(c.fields, "type", Str("unknown"));
      var distance := GetOr(c.fields, "distance", Num(0.0));
      if !bgn.Str? then Err(PathNotText)
      else
        match ParseAtomPath(bgn.text)
        case None => Ok(None)
        case Some(a2) =>
          if !kind.Str? then Err(TypeNotText)
          else match Distance(distance)
            case Err(e) => Err(e)
            case Ok(d) => Ok(Some(Interaction(a1, a2, kind.text, d)))
  }

  /**
   * A descriptor is skipped exactly when it is not an object or its
   * partner path is text with fewer than four parts.
   */
  lemma ContactSkipped(a1: AtomId, c: Json)
    ensures ContactRecord(a1, c) == Ok(None) <==>
      !c.Obj? || (GetOr(c.fields, "bgn_atom", Str("")).Str?
                  && Slashes(Strip(GetOr(c.fields, "bgn_atom", Str("")).text)) < 3)
  {
  }

  /** A descriptor without `bgn_atom` is skipped: the empty default never parses. */
  lemma ContactWithoutPartner(a1: AtomId, c: Json)
    requires c.Obj? && Get(c.fields, "bgn_atom").None?
    ensures ContactRecord(a1, c) == Ok(None)
  {
    assert GetOr(c.fields, "bgn_atom", Str("")) == Str("");
    EmptyPathIsMalformed();
  }

  /** A record joins the key atom to the atom parsed from the descriptor's `bgn_atom` text. */
  lemma ContactAtoms(a1: AtomId, c: Json)
    ensures var r := ContactRecord(a1, c);
      r.Ok? && r.value.Some? ==>
        && c.Obj?
        && r.value.value.atom1 == a1
        && exists p :: Get(c.fields, "bgn_atom") == Some(Str(p)) && ParseAtomPath(p) == Some(r.value.value.atom2)
  {
    if c.Obj? {
      if Get(c.fields, "bgn_atom").None? {
        ContactWithoutPartner(a1, c);
      } else {
        assert GetOr(c.fields, "bgn_atom", Str("")) == Get(c.fields, "bgn_atom").value;
      }
    }
  }

  /** A record's type is the descriptor's `type` text, `unknown` when absent. */
  lemma ContactKind(a1: AtomId, c: Json)
    ensures var r := ContactRecord(a1, c);
      r.Ok? && r.value.Some? ==>
        && (Get(c.fields, "type").None? ==> r.value.value.kind == "unknown")
        && (Get(c.fields, "type").Some? ==> Get(c.fields, "type") == Some(Str(r.value.value.kind)))
  {
    if c.Obj? {
      var kind := GetOr(c.fields, "type", Str("unknown"));
      if Get(c.fields, "type").None? {
        assert kind == Str("unknown");
      } else {
        assert kind == Get(c.fields, "type").value;
      }
    }
  }

  /**
   * A record's distance is 0.0 when `distance` is absent or falsy, the
   * number itself when it is a number, and 1.0 for `true`.
   */
  lemma ContactDistance(a1: AtomId, c: Json)
    ensures var r := ContactRecord(a1, c);
      r.Ok? && r.value.Some? ==>
        var d := GetOr(c.fields, "distance", Num(0.0));
        && (Get(c.fields, "distance").None? ==> r.value.value.distance == 0.0)
        && (Falsy(d) ==> r.value.value.distance == 0.0)
        && (d.Num? ==> r.value.value.distance == d.value)
        && (d == Bool(true) ==> r.value.value.distance == 1.0)
  {
    var r := ContactRecord(a1, c);
    if r.Ok? && r.value.Some? {
      var d := GetOr(c.fields, "distance", Num(0.0));
      RecordDistance(a1, c);
      DistanceSpec(d);
      if Get(c.fields, "distance").None? {
        assert d == Num(0.0);
      }
    }
  }

  /** A record carries the converted `distance` of its descriptor. */
  lemma RecordDistance(a1: AtomId, c: Json)
    requires ContactRecord(a1, c).Ok? && ContactRecord(a1, c).value.Some?
    ensures c.Obj? && Distance(GetOr(c.fields, "distance", Num(0.0))).Ok?
    ensures ContactRecord(a1, c).value.value.distance == Distance(GetOr(c.fields, "distance", Num(0.0))).value
  {
    var bgn := GetOr(c.fields, "bgn_atom", Str(""));
    var kind := GetOr(c.fields, "type", Str("unknown"));
    var d := GetOr(c.fields, "distance", Num(0.0));
    assert bgn.Str? && ParseAtomPath(bgn.text).Some? && kind.Str? && Distance(d).Ok?;
    assert ContactRecord(a1, c) == Ok(Some(Interaction(a1, ParseAtomPath(bgn.text).value, kind.text, Distance(d).value)));
  }

  /**
   * `float(distance) if distance else 0.0`: a falsy value gives 0.0, a
   * number itself and `true` 1.0; any other truthy value is rejected.
   */
  lemma DistanceSpec(v: Json)
    ensures Distance(v).Err? <==> !Falsy(v) && !v.Num? && !v.Bool?
    ensures Falsy(v) ==> Distance(v) == Ok(0.0)
    ensures v.Num? ==> Distance(v) == Ok(v.value)
    ensures v == Bool(true) ==> Distance(v) == Ok(1.0)
  {
  }

  /** The records of a list of contacts, in list order; the first error wins. */
  function ContactRecords(a1: AtomId, cs: seq<Json>): Result<seq<Interaction>>
  {
    if |cs| == 0 then Ok([])
    else
      var rest := ContactRecords(a1, cs[1..]);
      match ContactRecord(a1, cs[0])
      case Err(e) => Err(e)
      case Ok(None) => rest
      case Ok(Some(x)) => Prepend([x], rest)
  }

  /** The records of one atom entry of the document. */
  function EntryRecords(key: string, v: Json): Result<seq<Interaction>>
  {
    if !v.Obj? then Ok([])
    else match ParseAtomPath(key)
      case None => Ok([])
      case Some(a1) =>
        match Get(v.fields, "contact")
        case None => Ok([])
        case Some(c) => ContactRecords(a1, AsList(c))
  }

  /** The records of a list of atom entries: key order, then contact order. */
  function ExtractAll(entries: seq<(string, Json)>): Result<seq<Interaction>>
  {
    if |entries| == 0 then Ok([])
    else Then(EntryRecords(entries[0].0, entries[0].1), ExtractAll(entries[1..]))
  }

  /** What `extract_interactions` returns or raises for a decoded document. */
  function Extracted(data: Json): Result<seq<Interaction>>
  {
    if data.Obj? then ExtractAll(data.fields) else Err(NotAnObject)
  }

  /** `extract_interactions`: a loop over the atom entries appending their records. */
  method ExtractInteractions(data: Json) returns (r: Result<seq<Interaction>>)
    ensures r == Extracted(data)
  {
    if !data.Obj? {
      return Err(NotAnObject);
    }
    var entries := data.fields;
    var interactions: seq<Interaction> := [];
    assert entries[0..] == entries;
    PrependNothing(ExtractAll(entries));
    for i := 0 to |entries|
      invariant ExtractAll(entries) == Prepend(interactions, ExtractAll(entries[i..]))
    {
      var (atomKey, atomData) := entries[i];
      ghost var later := ExtractAll(entries[i + 1..]);
      assert entries[i..][1..] == entries[i + 1..];
      PrependNothing(later);
      if !atomData.Obj? {
        continue;
      }
      var head := ParseAtomPath(atomKey);
      if head.None? {
        continue;
      }
      var contact := Get(atomData.fields, "contact");
      if contact.None? {
        continue;
      }
      var extended := AppendContactRecords(interactions, head.value, AsList(contact.value));
      if extended.Err? {
        return extended;
      }
      PrependPrepend(interactions, ContactRecords(head.value, AsList(contact.value)).value, later);
      interactions := extended.value;
    }
    assert entries[|entries|..] == [] && interactions + [] == interactions;
    return Ok(interactions);
  }

  /** The inner loop of `extract_interactions`: append the records of one atom's contacts. */
  method AppendContactRecords(interactions: seq<Interaction>, a1: AtomId, contacts: seq<Json>)
    returns (r: Result<seq<Interaction>>)
    ensures r == Prepend(interactions, ContactRecords(a1, contacts))
  {
    var acc := interactions;
    assert contacts[0..] == contacts;
    for j := 0 to |contacts|
      invariant Prepend(interactions, ContactRecords(a1, contacts)) == Prepend(acc, ContactRecords(a1, contacts[j..]))
    {
      var c := contacts[j];
      assert contacts[j..][1..] == contacts[j + 1..];
      if !c.Obj? {
        continue;
      }
      var bgn := GetOr(c.fields, "bgn_atom", Str(""));
      var kind := GetOr(c.fields, "type", Str("unknown"));
      var distance := GetOr(c.fields, "distance", Num(0.0));
      if !bgn.Str? {
        return Err(PathNotText);
      }
      var partner := ParseAtomPath(bgn.text);
      if partner.None? {
        continue;
      }
      if !kind.Str? {
        return Err(TypeNotText);
      }
      var d: real;
      if Falsy(distance) {
        d := 0.0;
      } else if distance.Num? {
        d := distance.value;
      } else if distance.Bool? {
        d := 1.0;
      } else {
        return Err(DistanceNotNumber);
      }
      var x := Interaction(a1, partner.value, kind.text, d);
      PrependPrepend(acc, [x], ContactRecords(a1, contacts[j + 1..]));
      acc := acc + [x];
    }
    assert contacts[|contacts|..] == [] && acc + [] == acc;
    return Ok(acc);
  }

  // ------------------------------------------------- extraction properties

  /** Extraction is compositional: key order first, then contact order, nothing merged. */
  lemma {:induction false} ExtractConcat(e1: seq<(string, Json)>, e2: seq<(string, Json)>)
    ensures ExtractAll(e1 + e2) == Then(ExtractAll(e1), ExtractAll(e2))
  {
    if |e1| == 0 {
      assert e1 + e2 == e2;
      PrependNothing(ExtractAll(e2));
    } else {
      assert (e1 + e2)[0] == e1[0];
      assert (e1 + e2)[1..] == e1[1..] + e2;
      ExtractConcat(e1[1..], e2);
      ThenAssociative(EntryRecords(e1[0].0, e1[0].1), ExtractAll(e1[1..]), ExtractAll(e2));
    }
  }

  /**
   * An atom entry whose value is not an object, whose key has fewer than
   * four parts, or which has no `contact` field contributes no records.
   */
  lemma SkippedEntry(before: seq<(string, Json)>, key: string, v: Json, after: seq<(string, Json)>)
    requires !v.Obj? || Slashes(Strip(key)) < 3 || Get(v.fields, "contact").None?
    ensures ExtractAll(before + [(key, v)] + after) == ExtractAll(before + after)
  {
    ExtractConcat(before + [(key, v)], after);
    ExtractConcat(before, [(key, v)]);
    ExtractConcat(before, after);
    assert [(key, v)][1..] == [];
    PrependNothing(ExtractAll(after));
    var nothing: Result<seq<Interaction>> := Ok([]);
    PrependNothing(nothing);
    ThenAssociative(ExtractAll(before), ExtractAll([(key, v)]), ExtractAll(after));
  }

  /** Contacts are handled in list order and duplicates are kept. */
  lemma {:induction false} ContactRecordsConcat(a1: AtomId, c1: seq<Json>, c2: seq<Json>)
    ensures ContactRecords(a1, c1 + c2) == Then(ContactRecords(a1, c1), ContactRecords(a1, c2))
  {
    if |c1| == 0 {
      assert c1 + c2 == c2;
      PrependNothing(ContactRecords(a1, c2));
    } else {
      assert (c1 + c2)[0] == c1[0];
      assert (c1 + c2)[1..] == c1[1..] + c2;
      ContactRecordsConcat(a1, c1[1..], c2);
      match ContactRecord(a1, c1[0])
      case Err(e) =>
      case Ok(None) =>
      case Ok(Some(x)) =>
        ThenPrepend([x], ContactRecords(a1, c1[1..]), ContactRecords(a1, c2));
    }
  }

  /** A repeated contact list yields its records twice: there is no deduplication. */
  lemma DuplicatesKept(a1: AtomId, cs: seq<Json>, rs: seq<Interaction>)
    requires ContactRecords(a1, cs) == Ok(rs)
    ensures ContactRecords(a1, cs + cs) == Ok(rs + rs)
  {
    ContactRecordsConcat(a1, cs, cs);
  }

  /**
   * An entry whose `contact` value is not a list yields the records of the
   * one-element list holding it, whatever other fields the entry has.
   */
  lemma SingleContactAsList(key: string, v: Json, c: Json)
    requires v.Obj? && Get(v.fields, "contact") == Some(c) && !c.Arr?
    ensures EntryRecords(key, v) ==
      match ParseAtomPath(key)
      case None => Ok([])
      case Some(a1) => ContactRecords(a1, [c])
  {
    assert AsList(c) == [c];
  }

  lemma {:induction false} ContactRecordsBound(a1: AtomId, cs: seq<Json>)
    ensures ContactRecords(a1, cs).Ok? ==>
      |ContactRecords(a1, cs).value| <= |cs| && forall x :: x in ContactRecords(a1, cs).value ==> x.atom1 == a1
  {
    if |cs| > 0 {
      ContactRecordsBound(a1, cs[1..]);
    }
  }

  /** The number of contact descriptors an entry holds (zero when it is skipped outright). */
  function ContactCount(v: Json): nat
  {
    if v.Obj? && Get(v.fields, "contact").Some? then |AsList(Get(v.fields, "contact").value)| else 0
  }

  function TotalContacts(entries: seq<(string, Json)>): nat
  {
    if |entries| == 0 then 0 else ContactCount(entries[0].1) + TotalContacts(entries[1..])
  }

  /**
   * At most one record per contact descriptor, and every record's first
   * atom is the parsed key of one of the entries: malformed keys never
   * reach the output.
   */
  lemma {:induction false} ExtractBound(entries: seq<(string, Json)>)
    ensures ExtractAll(entries).Ok? ==>
      && |ExtractAll(entries).value| <= TotalContacts(entries)
      && forall x :: x in ExtractAll(entries).value ==>
           exists i :: 0 <= i < |entries| && ParseAtomPath(entries[i].0) == Some(x.atom1)
  {
    if |entries| > 0 && ExtractAll(entries).Ok? {
      var (key, v) := entries[0];
      var rest := entries[1..];
      ExtractBound(rest);
      var head := EntryRecords(key, v).value;
      var tail := ExtractAll(rest).value;
      assert ExtractAll(entries).value == head + tail;
      if v.Obj? && ParseAtomPath(key).Some? && Get(v.fields, "contact").Some? {
        ContactRecordsBound(ParseAtomPath(key).value, AsList(Get(v.fields, "contact").value));
      }
      forall x: Interaction | x in head + tail
        ensures exists i :: 0 <= i < |entries| && ParseAtomPath(entries[i].0) == Some(x.atom1)
      {
        if x in head {
          assert ParseAtomPath(entries[0].0) == Some(x.atom1);
        } else {
          var i :| 0 <= i < |rest| && ParseAtomPath(rest[i].0) == Some(x.atom1);
          assert entries[i + 1] == rest[i];
        }
      }
    }
  }

  // ----------------------------------------------------------- aggregation

  /** The residue labels `chain:resnameresnum` of the two ends of a record. */
  function Residue1(x: Interaction): string { ResidueLabel(x.atom1) }
  function Residue2(x: Interaction): string { ResidueLabel(x.atom2) }

  /** The residue-pair key `tuple(sorted([res1, res2]))`. */
  function PairKey(x: Interaction): (string, string)
  {
    SortedPair(Residue1(x), Residue2(x))
  }

  /** The same contact seen from its partner atom. */
  function Swap(x: Interaction): Interaction
  {
    x.(atom1 := x.atom2, atom2 := x.atom1)
  }

  /** Pair keys do not depend on which end a contact was recorded from. */
  lemma PairKeySwap(x: Interaction)
    ensures PairKey(Swap(x)) == PairKey(x)
  {
    SortedPairSymmetric(Residue1(x), Residue2(x));
  }

  function Kinds(xs: seq<Interaction>): (r: seq<string>)
    ensures |r| == |xs|
  {
    if |xs| == 0 then [] else Kinds(xs[..|xs| - 1]) + [xs[|xs| - 1].kind]
  }

  function PairKinds(xs: seq<Interaction>): (r: seq<((string, string), string)>)
    ensures |r| == |xs|
  {
    if |xs| == 0 then [] else PairKinds(xs[..|xs| - 1]) + [(PairKey(xs[|xs| - 1]), xs[|xs| - 1].kind)]
  }

  function Residues1(xs: seq<Interaction>): seq<string>
  {
    if |xs| == 0 then [] else Residues1(xs[..|xs| - 1]) + [Residue1(xs[|xs| - 1])]
  }

  function Residues2(xs: seq<Interaction>): seq<string>
  {
    if |xs| == 0 then [] else Residues2(xs[..|xs| - 1]) + [Residue2(xs[|xs| - 1])]
  }

  /** Both residue labels of every record, in record order. */
  function Endpoints(xs: seq<Interaction>): (r: seq<string>)
    ensures |r| == 2 * |xs|
  {
    if |xs| == 0 then []
    else
      var n := |xs| - 1;
      Endpoints(xs[..n]) + [Residue1(xs[n]), Residue2(xs[n])]
  }

  /** The part of `analyze_interactions`' result this model covers. */
  datatype Analysis = Analysis(
    total: nat,
    typeCounts: seq<(string, nat)>,
    pairGroups: seq<((string, string), seq<string>)>,
    residueCounts: seq<(string, nat)>,
    uniquePairs: nat)

  /**
   * `analyze_interactions` without the distance statistics: a Counter of
   * types, a loop grouping types by residue pair, and a loop counting
   * both ends of every record per residue.
   */
  method AnalyzeInteractions(interactions: seq<Interaction>) returns (a: Analysis)
    ensures a.total == |interactions|
    ensures a.typeCounts == Counter(Kinds(interactions))
    ensures a.pairGroups == GroupBy(PairKinds(interactions))
    ensures a.residueCounts == Counter(Endpoints(interactions))
    ensures a.uniquePairs == |Keys(a.pairGroups)|
    ensures Sum(a.typeCounts) == a.total
    ensures TotalLength(a.pairGroups) == a.total
    ensures Sum(a.residueCounts) == 2 * a.total
  {
    var typeCounts := Counter(Kinds(interactions));
    var pairs := GroupByResiduePair(interactions);
    var residues := CountResidues(interactions);
    DistinctKeysCard(pairs);
    a := Analysis(|interactions|, typeCounts, pairs, residues, |pairs|);
  }

  /** The `residue_pair_counts` loop: append each type under its pair key. */
  method GroupByResiduePair(interactions: seq<Interaction>) returns (pairs: seq<((string, string), seq<string>)>)
    ensures pairs == GroupBy(PairKinds(interactions))
  {
    pairs := [];
    for i := 0 to |interactions|
      invariant pairs == GroupBy(PairKinds(interactions[..i]))
    {
      var inter := interactions[i];
      var res1 := ResidueLabel(inter.atom1);
      var res2 := ResidueLabel(inter.atom2);
      var key := SortedPair(res1, res2);
      GroupPairStep(interactions, i);
      pairs := AppendTo(pairs, key, inter.kind);
    }
    assert interactions[..|interactions|] == interactions;
  }

  /** One more record appends its type under its pair key. */
  lemma GroupPairStep(xs: seq<Interaction>, i: nat)
    requires i < |xs|
    ensures GroupBy(PairKinds(xs[..i + 1])) == AppendTo(GroupBy(PairKinds(xs[..i])), PairKey(xs[i]), xs[i].kind)
  {
    assert xs[..i + 1][..i] == xs[..i];
    assert PairKinds(xs[..i + 1]) == PairKinds(xs[..i]) + [(PairKey(xs[i]), xs[i].kind)];
    GroupBySnoc(PairKinds(xs[..i]), (PairKey(xs[i]), xs[i].kind));
  }

  /** The `residue_counts` loop: count both ends of every record. */
  method CountResidues(interactions: seq<Interaction>) returns (residues: seq<(string, nat)>)
    ensures residues == Counter(Endpoints(interactions))
  {
    residues := [];
    for i := 0 to |interactions|
      invariant residues == Counter(Endpoints(interactions[..i]))
    {
      var inter := interactions[i];
      var res1 := ResidueLabel(inter.atom1);
      var res2 := ResidueLabel(inter.atom2);
      CountBothEndsStep(interactions, i);
      residues := Bump(residues, res1);
      residues := Bump(residues, res2);
    }
    assert interactions[..|interactions|] == interactions;
  }

  /** One more record bumps the count of its first end, then of its second. */
  lemma CountBothEndsStep(xs: seq<Interaction>, i: nat)
    requires i < |xs|
    ensures Counter(Endpoints(xs[..i + 1])) == Bump(Bump(Counter(Endpoints(xs[..i])), Residue1(xs[i])), Residue2(xs[i]))
  {
    var e := Endpoints(xs[..i]);
    var e1 := e + [Residue1(xs[i])];
    assert xs[..i + 1][..i] == xs[..i];
    assert Endpoints(xs[..i + 1]) == e1 + [Residue2(xs[i])];
    CounterSnoc(e, Residue1(xs[i]));
    CounterSnoc(e1, Residue2(xs[i]));
  }

  lemma {:induction false} EndpointsMultiset(xs: seq<Interaction>)
    ensures multiset(Endpoints(xs)) == multiset(Residues1(xs)) + multiset(Residues2(xs))
  {
    if |xs| > 0 {
      var n := |xs| - 1;
      var prev := xs[..n];
      EndpointsMultiset(prev);
      SnocBoth(Endpoints(prev), Residues1(prev), Residues2(prev), Residue1(xs[n]), Residue2(xs[n]));
    }
  }

  /** Appending one label to each side keeps the two sides' multisets in balance. */
  lemma SnocBoth<T>(e: seq<T>, s1: seq<T>, s2: seq<T>, a: T, b: T)
    requires multiset(e) == multiset(s1) + multiset(s2)
    ensures multiset(e + [a, b]) == multiset(s1 + [a]) + multiset(s2 + [b])
  {
  }

  /**
   * A residue's count is the number of records naming it at either end;
   * a record with the same residue at both ends counts twice.
   */
  lemma ResidueCountBothEnds(xs: seq<Interaction>, r: string)
    ensures Count(Counter(Endpoints(xs)), r) == multiset(Residues1(xs))[r] + multiset(Residues2(xs))[r]
  {
    EndpointsMultiset(xs);
  }

  /** Every record seen from its partner atom. */
  function SwapAll(xs: seq<Interaction>): (r: seq<Interaction>)
    ensures |r| == |xs|
  {
    if |xs| == 0 then [] else SwapAll(xs[..|xs| - 1]) + [Swap(xs[|xs| - 1])]
  }

  /** Recording every contact from its partner's side gives the same pair groups. */
  lemma PairGroupsSwapInvariant(xs: seq<Interaction>)
    ensures GroupBy(PairKinds(SwapAll(xs))) == GroupBy(PairKinds(xs))
  {
    SwapPairKinds(xs);
  }

  lemma {:induction false} SwapPairKinds(xs: seq<Interaction>)
    ensures PairKinds(SwapAll(xs)) == PairKinds(xs)
  {
    if |xs| > 0 {
      var n := |xs| - 1;
      SwapPairKinds(xs[..n]);
      PairKeySwap(xs[n]);
      assert SwapAll(xs)[..n] == SwapAll(xs[..n]);
    }
  }
}

# Interaction analysis and structure comparison, modelled in Dafny

This project models the two data transformations at the heart of a
protein-interaction analysis pipeline. Both work on the atom-keyed JSON
document an interaction detector writes. Keys are atom paths
`/chain/resnum/resname/atom/`. Values are objects whose `contact` field
holds one contact descriptor or a list of them; a descriptor carries
`bgn_atom` (the partner atom path), `type` and `distance`.

- **Contact extraction and aggregation** (`04_analyze_interactions.py`):
  - `extract_interactions` flattens the document into contact records. It
    silently skips malformed entries and descriptors, and keeps key order,
    then contact order.
  - `analyze_interactions` tallies the records by type, groups types by
    unordered residue pair, and counts interactions per residue.
  - `identify_hot_spots` keeps the residues whose count reaches a threshold
    and sorts them by count, highest first, in a stable sort.
- **Interaction-set comparison** (`06_compare_structures.py`):
  - `parse_arpeggio_interactions` applies the same skip rules and yields
    canonical `(residue, residue, type)` triples together with a per-type
    Counter.
  - `compare_interactions` scores a predicted against an experimental triple
    list: TP/FP/FN, precision, recall and F1, overall and per type.

Modules:

| module | file | contents |
|---|---|---|
| `JsonValue` | `json_value.dfy` | the decoded document; the outcome of a walk: a value, or the exception the script raises |
| `AtomPaths` | `atom_paths.dfy` | `str.strip('/')`, `str.split('/')`, atom paths, residue labels |
| `TextOrder` | `text_order.dfy` | Python string ordering, `tuple(sorted([a, b]))` |
| `Tally` | `tally.dfy` | `Counter` and `defaultdict(list)` as insertion-ordered key/value lists |
| `AnalyzeInteractions` | `analyze_interactions.dfy` | extraction and aggregation |
| `HotSpots` | `hot_spots.dfy` | hot-spot filtering and the stable descending sort |
| `CompareStructures` | `compare_structures.dfy` | triple parsing and the comparison metrics |

How the model is built:
- Each loop of the scripts is a Dafny `method` with its own loop. Each method
  is proved equal to a recursive or comprehension-defined specification
  function, and the properties are proved about those functions as lemmas.
- Python dictionaries keep insertion order, which decides hot-spot ties. So
  `Counter`/`defaultdict` results are key/value lists with distinct keys.
- The per-type comparison results form a `map`, because the script fills that
  dictionary while iterating a set.
- Where a script would raise an exception, the model returns an `Err`:
  - the document is not an object;
  - a `bgn_atom` is not a string;
  - a truthy distance is not a number.
- Precision, recall and F1 are exact rationals (`real`).

The comparison matches triples of two sorted residue labels and a type.

## Model

| member | source | states |
|---|---|---|
| AtomPaths.Strip | 04_analyze_interactions.py:65 | the input is the result framed by a run of leading and a run of trailing slashes, and the result neither starts nor ends with `/` |
| AtomPaths.Split | 04_analyze_interactions.py:65 | there is one more part than there are separators, and no part contains `/` (empty parts are kept) |
| AtomPaths.JoinSplit | 04_analyze_interactions.py:65 | joining the parts with `/` gives back the text: splitting loses nothing |
| AtomPaths.SplitJoin | 04_analyze_interactions.py:65 | splitting a `/`-join of slash-free parts gives back those parts |
| AtomPaths.ParseAtomPath | 04_analyze_interactions.py:65-69 | a path parses exactly when its stripped form has at least four parts; the atom is the first four parts, further parts are ignored, and no component contains `/` |
| AtomPaths.EmptyPathIsMalformed | 04_analyze_interactions.py:84-91 | the default `''` of a missing `bgn_atom` never parses, so that contact is skipped |
| AtomPaths.ParseFormat | 04_analyze_interactions.py:64-69 | parsing `/chain/resnum/resname/atom/` gives back the atom, for slash-free components with non-empty chain and atom |
| TextOrder.LeTotal | 04_analyze_interactions.py:127 | any two residue labels are comparable |
| TextOrder.LeAntisymmetric | 04_analyze_interactions.py:127 | labels ordered both ways are equal |
| TextOrder.SortedPair | 04_analyze_interactions.py:127 | the result is in order and is the two labels in one order or the other |
| TextOrder.SortedPairSymmetric | 04_analyze_interactions.py:127 | the sorted pair does not depend on argument order |
| Tally.Bump | 04_analyze_interactions.py:135-136 | `counts[k] += 1`: k's count grows by one, others are unchanged, the total grows by one, existing positions are kept, and a new key goes at the end |
| Tally.Counter | 04_analyze_interactions.py:120 | keys are exactly the elements, each once; a key's count is its number of occurrences; the counts sum to the length |
| Tally.AppendTo | 04_analyze_interactions.py:128 | `groups[k].append(v)`: v goes at the end of k's list, other lists are unchanged, and the total length grows by one |
| Tally.CounterKeyOrder | 04_analyze_interactions.py:131-136 | a counter lists its keys in order of first occurrence, as an insertion-ordered dictionary does |
| Tally.GroupBy | 04_analyze_interactions.py:123-128 | keys are exactly the keys of the pairs, each once; a key's list holds its values in input order; list lengths sum to the number of pairs |
| Tally.DistinctKeysCard | 04_analyze_interactions.py:146 | a dictionary with distinct keys has as many entries as keys |
| AnalyzeInteractions.ContactSkipped | 04_analyze_interactions.py:79-91 | a descriptor is skipped exactly when it is not an object or its `bgn_atom` is text with fewer than four parts |
| AnalyzeInteractions.ContactWithoutPartner | 04_analyze_interactions.py:84-91 | a descriptor without `bgn_atom` is skipped, because the empty default never parses |
| AnalyzeInteractions.ContactAtoms | 04_analyze_interactions.py:93-104 | a record joins the key atom to the atom parsed from the descriptor's `bgn_atom` text |
| AnalyzeInteractions.ContactKind | 04_analyze_interactions.py:85 | a record's type is the descriptor's `type` text, or `unknown` when it is absent |
| AnalyzeInteractions.ContactDistance | 04_analyze_interactions.py:86 | a record's distance is 0.0 when `distance` is absent or falsy, the number itself when it is a number, and 1.0 for `true` |
| AnalyzeInteractions.DistanceSpec | 04_analyze_interactions.py:106 | a falsy value converts to 0.0, a number to itself and `true` to 1.0; the conversion fails exactly for a truthy value that is neither a number nor a boolean |
| AnalyzeInteractions.ExtractInteractions | 04_analyze_interactions.py:50-109 | the nested loops return exactly the front-to-back extraction of the document, or the error it raises |
| AnalyzeInteractions.AppendContactRecords | 04_analyze_interactions.py:79-107 | the inner loop appends one atom's records, in contact order, to the records so far |
| AnalyzeInteractions.ExtractConcat | 04_analyze_interactions.py:59-109 | extraction is compositional: the records of two runs of entries are the records of the first followed by those of the second |
| AnalyzeInteractions.SkippedEntry | 04_analyze_interactions.py:59-73 | an entry that is not an object, has a key of fewer than four parts, or has no `contact` can be removed without changing the output |
| AnalyzeInteractions.ContactRecordsConcat | 04_analyze_interactions.py:79-107 | contacts are handled in list order |
| AnalyzeInteractions.DuplicatesKept | 04_analyze_interactions.py:96-107 | a repeated contact list yields its records twice: nothing is deduplicated |
| AnalyzeInteractions.SingleContactAsList | 04_analyze_interactions.py:75-77 | an entry whose `contact` value is not a list yields the records of the one-element list holding it, whatever other fields the entry has |
| AnalyzeInteractions.ContactRecordsBound | 04_analyze_interactions.py:79-107 | at most one record per descriptor, each with the key atom as first atom |
| AnalyzeInteractions.ExtractBound | 04_analyze_interactions.py:57-109 | no more records than contact descriptors, and every record's first atom is the parsed key of some entry |
| AnalyzeInteractions.PairKeySwap | 04_analyze_interactions.py:125-127 | swapping a record's two atoms leaves its residue-pair key unchanged |
| AnalyzeInteractions.AnalyzeInteractions | 04_analyze_interactions.py:112-146 | the total is the number of records; type counts are the Counter of the types and sum to the total; pair groups are the grouping of types by sorted residue pair and their lengths sum to the total; residue counts are the Counter of both ends of every record and sum to twice the total; the unique-pair count is the number of pair keys |
| AnalyzeInteractions.GroupByResiduePair | 04_analyze_interactions.py:123-128 | the loop builds exactly the grouping of types by sorted residue pair |
| AnalyzeInteractions.CountResidues | 04_analyze_interactions.py:131-136 | the loop builds exactly the Counter of both ends of every record |
| AnalyzeInteractions.EndpointsMultiset | 04_analyze_interactions.py:131-136 | the counted residues are the first ends plus the second ends, as multisets |
| AnalyzeInteractions.ResidueCountBothEnds | 04_analyze_interactions.py:131-136 | a residue's count is the number of records with it as first end plus those with it as second end, so a self-contact counts twice |
| AnalyzeInteractions.SwapPairKinds | 04_analyze_interactions.py:123-128 | recording every contact from its partner's side gives the same (pair, type) sequence |
| AnalyzeInteractions.PairGroupsSwapInvariant | 04_analyze_interactions.py:123-128 | recording every contact from its partner's side gives the same pair groups |
| HotSpots.IdentifyHotSpots | 04_analyze_interactions.py:155-170 | the result is sorted non-increasing by count; it holds exactly the entries whose count reaches the threshold, each as often as in the input (a permutation of the filtered entries) and each residue once; entries of equal count keep input order; the threshold defaults to 3 |
| HotSpots.AtLeastMembers | 04_analyze_interactions.py:166-169 | the filter keeps exactly the entries whose count reaches the threshold |
| HotSpots.AtLeastWithCount | 04_analyze_interactions.py:166-169 | the filter keeps every entry of a count at or above the threshold in order, and drops every other count |
| HotSpots.AtLeastDistinct | 04_analyze_interactions.py:166-169 | filtering a dictionary keeps residues distinct |
| HotSpots.SortByCountSpec | 04_analyze_interactions.py:170 | the stable descending sort returns a non-increasing permutation and keeps entries of equal count in input order |
| HotSpots.InsertSorted | 04_analyze_interactions.py:170 | an insertion step keeps the list non-increasing |
| HotSpots.InsertStable | 04_analyze_interactions.py:170 | an insertion step puts the new entry after all entries of its count |
| HotSpots.InsertPermutes | 04_analyze_interactions.py:170 | an insertion step adds exactly the new entry |
| HotSpots.SortByCountDistinct | 04_analyze_interactions.py:170 | sorting keeps residues distinct |
| CompareStructures.Canonical | 06_compare_structures.py:167 | the triple's labels are in order, are the two residues in one order or the other, and carry the type |
| CompareStructures.CanonicalSymmetric | 06_compare_structures.py:164-167 | swapping the two atoms of a contact yields the identical triple |
| CompareStructures.TripleSkipped | 06_compare_structures.py:152-161 | a descriptor is skipped exactly when it is not an object or its `bgn_atom` is text with fewer than four parts |
| CompareStructures.TripleWithoutPartner | 06_compare_structures.py:156-161 | a descriptor without `bgn_atom` is skipped, because the empty default never parses |
| CompareStructures.TripleFields | 06_compare_structures.py:163-167 | a triple joins the key residue to the residue of the atom parsed from the descriptor's `bgn_atom` text |
| CompareStructures.TripleKind | 06_compare_structures.py:157 | a triple's type is the descriptor's `type` text, or `unknown` when it is absent |
| CompareStructures.UnusableEntry | 06_compare_structures.py:136-143 | an entry that is not an object, has no `contact` or has a key of fewer than four parts yields nothing and raises nothing |
| CompareStructures.ParseArpeggioInteractions | 06_compare_structures.py:123-171 | the loops return exactly the triples of the document in order, duplicates kept, with the Counter of their types whose counts sum to the number of triples; or the error the script raises |
| CompareStructures.AppendContactTriples | 06_compare_structures.py:152-169 | the inner loop appends one atom's triples and keeps the type Counter in step with them |
| CompareStructures.ContactAgrees | 06_compare_structures.py:152-167 | a descriptor is skipped by the parser exactly when extraction skips it; otherwise the parser yields the triple of extraction's record, and it raises only where extraction raises |
| CompareStructures.ContactsAgree | 06_compare_structures.py:152-169 | the same agreement for a whole contact list |
| CompareStructures.EntryAgrees | 06_compare_structures.py:136-169 | the same agreement for one atom entry |
| CompareStructures.AllAgree | 06_compare_structures.py:136-169 | the same agreement for a run of entries |
| CompareStructures.SameSkipRules | 06_compare_structures.py:123-171 | when extraction succeeds, the parser returns the canonical triples of its records in the same order; the parser fails only where extraction fails |
| CompareStructures.RatioSpec | 06_compare_structures.py:189-190 | a guarded share lies in [0, 1]; it is 0 exactly when there is nothing to share or nothing shared, and 1 exactly when everything is shared |
| CompareStructures.F1Spec | 06_compare_structures.py:191 | the guarded harmonic mean of two ratios lies in [0, 1]; it is 0 exactly when one of them is, and 1 exactly when both are |
| CompareStructures.ScoreSpec | 06_compare_structures.py:181-191 | tp + fp is the predicted set size and tp + fn the experimental one; fp is 0 exactly when every prediction is confirmed, fn exactly when every experimental triple is predicted; all three ratios lie in [0, 1]; precision, recall and F1 are 1 exactly when that side is non-empty and fully matched (F1: the two sets are equal and non-empty) |
| CompareStructures.F1Dice | 06_compare_structures.py:189-191 | F1 equals the Dice coefficient 2·tp divided by the sum of the two set sizes, and 0 when both sets are empty |
| CompareStructures.EmptyReference | 06_compare_structures.py:181-191 | against an empty experimental set every prediction is a false positive and precision, recall and F1 are 0 |
| CompareStructures.ScoreSwap | 06_compare_structures.py:181-191 | exchanging the two lists exchanges FP with FN and precision with recall, and keeps TP and F1 |
| CompareStructures.CompareInteractions | 06_compare_structures.py:174-248 | the overall block is the score of the two triple sets, and the per-type results are one score per type |
| CompareStructures.GroupByKind | 06_compare_structures.py:197-207 | the grouping loop has one key per occurring type, holding that type's distinct triples |
| CompareStructures.GroupOrEmpty | 06_compare_structures.py:214-215 | looking up a type with an empty default gives that type's distinct triples |
| CompareStructures.ScoreTypes | 06_compare_structures.py:210-234 | the loop over all types has an entry for each type of either grouping, holding the score of the two groups |
| CompareStructures.ByTypeKeys | 06_compare_structures.py:197-211 | the per-type results have an entry for exactly the types occurring in either list |
| CompareStructures.TypesPresent | 06_compare_structures.py:211-227 | every per-type entry counts at least one triple on one side |
| CompareStructures.PerTypeBalance | 06_compare_structures.py:213-234 | per type, predicted and experimental are the distinct-triple counts of that type; tp + fp = predicted, tp + fn = experimental, and the ratios lie in [0, 1] |
| CompareStructures.KindPartition | 06_compare_structures.py:197-207 | splitting a set by pairwise distinct types neither loses nor double-counts a triple |
| CompareStructures.ColumnByKind | 06_compare_structures.py:213-219 | each per-type count is the size of that type's part of the corresponding overall set |
| CompareStructures.PerTypeSums | 06_compare_structures.py:185-219 | summed over all types, predicted, experimental, TP, FP and FN each equal the overall figure |
| CompareStructures.DuplicatesCollapse | 06_compare_structures.py:181-207 | repeated triples collapse before counting: doubling the predicted list changes neither the overall nor the per-type results |
| CompareStructures.SelfComparison | 06_compare_structures.py:181-191 | a non-empty list compared with itself has no FP or FN, and precision, recall and F1 of 1, overall and for every type |

## Left out

- Distance statistics (`04_analyze_interactions.py:138-151`) are not modelled. They are the floating-point mean, minimum and maximum of the positive distances. `Analysis` omits them.
- File loading, CSV export, text reports, `print_header`, the star-rating bands, `argparse` and `main` in both scripts are not modelled. They are file and console I/O. The decoded JSON value is the model's input.
- `calculate_rmsd` (`06_compare_structures.py:54-120`) is not part of this model. It is BioPython parsing and superposition in floating point.
- `02_visualize_pymol.py` and `05_download_pdb.py` are not part of this model. They are PyMOL commands and network downloads.
- AnalyzeInteractions.Distance: `float(distance)` on a non-empty string is not parsed. The model raises `DistanceNotNumber` for every truthy string, including numeric ones the script would accept. Numbers, booleans and falsy values are modelled as the script handles them.
- AnalyzeInteractions.ContactRecord: a `type` that is not a string raises `TypeNotText`. The script stores such a value unchanged and fails only if it is unhashable when counted.
- CompareStructures.ContactTriple: a `type` that is not a string raises `TypeNotText`. The script builds the tuple with that value and fails only if it is unhashable when counted.
- Duplicate keys inside one JSON object are not modelled. The input is the decoded document, whose objects have distinct keys. Lookups take the first match.
- The iteration order of the per-type results in `compare_interactions` is not modelled. The script fills that dictionary while iterating a set, and the model returns a `map`.
- IEEE floating-point rounding of precision, recall and F1 is not modelled. The model uses exact rationals.
- HotSpots.IdentifyHotSpots: the threshold is an integer. The script would also accept a float threshold.

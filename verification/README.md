# dossier.label — a Dafny model of the label store

`dossier.label` keeps ground-truth coreference judgments. Each judgment is a
*label* on a pair of content items: an optional pair of subtopics, an
annotator, a time in epoch milliseconds, and a value of −1, 0 or 1
(`CorefValue`). Labels are stored in an ordered key/value table. Each
`put` writes the label twice, once per orientation of the pair. The key
holds the time *complemented* against a constant 100 years in the future,
so the most recent label of a pair sorts first. The queries are:

- `get`: the newest label for an exact key;
- `get_all_for_content_id`: the newest version of every label touching an
  id;
- `everything`;
- `connected_component`: a transitive walk over labels of one value.

The project covers all of `dossier/label/label.py`:

| file | module | contents |
|---|---|---|
| `results.dfy` | `Results` | `Option`, and `Result` for the exceptions the Python code raises |
| `ordering.dfy` | `Ordering` | Python 2's `<` on strings and on tuples of strings and ints: lexicographic, a strict total order |
| `decimal.dfy` | `Decimal` | `str()` and `int()` on integers, which is how a value is written into a row and read back |
| `labels.dfy` | `Labels` | `CorefValue`; the `Label` constructor with its defaults; `reversed`; equality and hashing; `_cmp_value` and `__lt__`; `normalize_pair`, `unordered_pair_eq` and `time_complement`; the row encoding `_to_kvlayer`/`_from_kvlayer` |
| `latest.dfy` | `Latest` | `latest_labels`, an `itertools.groupby` that keeps the first label of each run of equal labels |
| `store.dfy` | `Store` | the table as a strictly ascending sequence of rows; `put`, `get`, `get_all_for_content_id`, `everything` |
| `component.dfy` | `Component` | `connected_component` as a work-list walk |
| `scenarios.dfy` | `Scenarios` | the component scenarios of `dossier/label/tests/test_label_store.py`, proved on concrete stores |

`connected_component` depends on the store only through
`get_all_for_content_id`. The walk is therefore modelled over any *lookup*
function from a content id to a result. `StoreLookup(s)` is the lookup a
store `s` answers with. `set.pop()` returns an arbitrary element, so the
model takes an arbitrary element of the to-do set. The set of ids queried
is a ghost output.

Two places where the code and its own description part ways:

- The scan bounds of `get_all_for_content_id` are `(content_id,)` and
  `(content_id + '\xff',)`. That range is described as the rows whose first
  content id *equals* `content_id`. As written, it also admits every id
  that extends `content_id`: `"ab"` lies between `("a",)` and `("a\xff",)`.
  The model follows the code (`Store.ContentRangeAdmitsExtension`).
- `__lt__` says its ordering is "the same as the ordering used in the
  underlying database storage". Stored keys are not normalized, though. A
  label whose content ids are in order but whose subtopics are not is
  stored under two keys, and neither one is its `_cmp_value`
  (`Labels.MixedOrientationNotStoredInOrder`). The model stores rows as
  `_to_kvlayer` writes them.

## Model

| member | source | states |
|---|---|---|
| Labels.ValueOfInt | dossier/label/label.py:38-50 | `CorefValue(i)` succeeds exactly for −1, 0 and 1 and returns the member with that integer; otherwise it fails with `InvalidValue(i)`, as `ValueError` does |
| Labels.ResolveValue | dossier/label/label.py:64-65 | a `CorefValue` argument passes through unchanged; an integer argument succeeds exactly when it is −1, 0 or 1 and resolves to the member with that integer |
| Labels.NewLabel | dossier/label/label.py:59-75 | construction fails exactly when an integer value is outside −1..1; otherwise every field is the given one, a missing subtopic becomes `""`, and an integer value becomes its `CorefValue` |
| Labels.NormalizePair | dossier/label/label.py:314-323 | the result is the two arguments in one of their two orders, smaller first |
| Labels.NormalizePairSymmetric | dossier/label/label.py:314-323 | normalizing `(x, y)` and `(y, x)` gives the same pair |
| Labels.UnorderedPairEqIsSetEq | dossier/label/label.py:304-311 | `unordered_pair_eq` holds exactly when the two pairs have the same set of elements, as its docstring promises |
| Labels.UnorderedPairEqIffNormalized | dossier/label/label.py:304-323 | two pairs are unordered-equal exactly when they normalize to the same pair |
| Labels.UnorderedPairEq | dossier/label/label.py:304-311 | `unordered_pair_eq`; `Labels.UnorderedPairEqIsSetEq` proves it is equality of the pairs read as sets, and `Labels.UnorderedPairEqIffNormalized` proves it is equality after `normalize_pair` |
| Labels.Reversed | dossier/label/label.py:77-85 | the reversed label swaps the content ids and swaps the subtopic ids; annotator, time and value are unchanged |
| Labels.ReversedLaws | dossier/label/label.py:77-85 | a label equals its reversal and has the same hash key, and reversing twice gives the label back |
| Labels.Eq | dossier/label/label.py:139-154 | `Label.__eq__`; it is an equivalence (`Labels.EqSymmetric`, `Labels.EqTransitive`), it holds between a label and its reversal (`Labels.ReversedLaws`), and it holds exactly when the hash keys agree (`Labels.EqIffSameIdentity`) |
| Labels.Identity | dossier/label/label.py:156-168 | the tuple `__hash__` hashes; `Labels.EqIffSameIdentity` proves equal labels and only equal labels share it, and `Labels.NeConsistentWithEq` proves the corrected `!=` is its disagreement |
| Labels.EqIffSameIdentity | dossier/label/label.py:139-168 | `__eq__` holds exactly when `__hash__`'s tuple (annotator, normalized content pair, normalized subtopic pair) agrees, so `==` and hashing are consistent |
| Labels.EqSymmetric | dossier/label/label.py:139-154 | label equality is symmetric |
| Labels.EqTransitive | dossier/label/label.py:139-154 | label equality is transitive |
| Labels.TimeComplement | dossier/label/label.py:335-336 | `time_complement`; `Labels.TimeComplementLaws` proves it reverses the order of times, is its own inverse and keeps 0..MAX_MILLI_TICKS |
| Labels.TimeComplementLaws | dossier/label/label.py:335-336 | complementing reverses the order of times, is its own inverse, and maps 0..MAX_MILLI_TICKS onto itself |
| Labels.KeyLtLex | dossier/label/label.py:130-137 | key order compares the five string fields lexicographically first, then the complemented time |
| Labels.KeyLtTotal | dossier/label/label.py:130-137 | any two distinct keys are ordered one way or the other |
| Labels.CmpValue | dossier/label/label.py:132-137 | `_cmp_value` has its content ids in order and its subtopic ids in order |
| Labels.CmpPrefixIsIdentity | dossier/label/label.py:132-154 | two labels' `_cmp_value` agree outside the time exactly when the labels are `==` |
| Labels.Lt | dossier/label/label.py:117-137 | `Label.__lt__`; `Labels.LtStrictTotalOrder` proves it a strict order total outside equal labels of the same time, `Labels.MoreRecentSortsFirst` that the newer of two equal labels sorts first, and `Labels.EqualLabelsContiguous` that equal labels form one run |
| Labels.LtStrictTotalOrder | dossier/label/label.py:117-137 | `__lt__` is irreflexive, transitive and asymmetric; two labels are comparable unless they are equal and carry the same time |
| Labels.MoreRecentSortsFirst | dossier/label/label.py:126-137 | of two equal labels, the newer sorts first |
| Labels.EqualLabelsContiguous | dossier/label/label.py:117-154 | a label sorted between two equal labels equals both, so equal labels form one run in sorted order |
| Labels.ToKv | dossier/label/label.py:87-97 | `_to_kvlayer`; `Labels.KvRoundTrip` proves `Labels.FromKv` inverts it, and `Labels.StoredKeyIsCmpValue`/`Labels.MixedOrientationNotStoredInOrder` say when its key is the label's `_cmp_value` |
| Labels.FromKv | dossier/label/label.py:99-115 | decoding a row succeeds exactly when its value text parses as −1, 0 or 1 (for value texts within a Python 2 `int`; see `## Left out`); unparsable text is `MalformedRow`; a decoded label encodes back to the same key |
| Labels.KvRoundTrip | dossier/label/label.py:87-115 | `_from_kvlayer(_to_kvlayer(l)) == l` for every label, the time included |
| Labels.KvRowRoundTrip | dossier/label/label.py:87-115 | a row whose value text is "-1", "0" or "1" decodes, and its label encodes back to the same row |
| Labels.StoredKeyIsCmpValue | dossier/label/label.py:87-137 | for a label whose content ids and subtopic ids are both in order, the stored key is its `_cmp_value` |
| Labels.MixedOrientationNotStoredInOrder | dossier/label/label.py:117-130 | a label with ordered content ids and unordered subtopics is stored under two keys, neither of which is its `_cmp_value` |
| Labels.GtAsWrittenContradictsLt | dossier/label/label.py:53-56 | as written, `>` on a label and a copy one millisecond newer agrees with `<` in the same direction |
| Labels.GtConsistentWithLt | dossier/label/label.py:117-137 | the corrected `>` is the converse of `__lt__`: it excludes `<`, it is exactly "not `<=`", and two labels are comparable by `<` or `>` unless they are equal and carry the same time |
| Labels.NeAsWrittenContradictsEq | dossier/label/label.py:139-154 | as written, a label with distinct content ids is both `==` and `!=` to its reversal |
| Labels.NeConsistentWithEq | dossier/label/label.py:139-168 | the corrected `!=` holds exactly when the hash keys differ, and never between a label and its reversal |
| Decimal.ShowInt | dossier/label/label.py:97 | `str(i)`: never empty, with a leading `-` exactly for negative `i`; `Decimal.ParseShowInt` proves `int` reads it back |
| Decimal.ParseInt | dossier/label/label.py:115 | `int(s)`: it only parses a non-empty text; `Decimal.ParseShowInt` proves it inverts `str` |
| Decimal.ParseShowInt | dossier/label/label.py:97-115 | `int(str(i)) == i` for every integer, so a stored value and a stored time read back exactly |
| Ordering.FieldsLtTotal | dossier/label/label.py:130 | Python tuple `<` over string and int fields is total |
| Ordering.FieldsLtTransitive | dossier/label/label.py:130 | Python tuple `<` over string and int fields is transitive |
| Latest.RunLength | dossier/label/label.py:329-332 | a `groupby` run is the longest prefix of labels equal to its head; the label after it is not equal |
| Latest.LatestLabels | dossier/label/label.py:326-332 | the output is no longer than the input, and a non-empty input's first label is kept |
| Latest.LatestIsRunHeads | dossier/label/label.py:326-332 | `latest_labels` yields exactly the labels that differ from their predecessor, starting with the first: `groupby` keeps the head of each run |
| Latest.LatestSubseq | dossier/label/label.py:326-332 | the output is a subsequence of the input, in input order |
| Latest.LatestNoAdjacentEq | dossier/label/label.py:326-332 | no two consecutive output labels are equal |
| Latest.LatestCovers | dossier/label/label.py:326-332 | every input label has an equal label in the output |
| Latest.SortedGrouped | dossier/label/label.py:117-154 | a list sorted by `__lt__` keeps equal labels contiguous |
| Latest.LatestGroupedDistinct | dossier/label/label.py:326-332 | on input whose equal labels are contiguous, no two output labels are equal |
| Latest.LatestGroupedNewest | dossier/label/label.py:326-332 | on such input (as storage order yields it), each output label is at least as new as every input label equal to it |
| Latest.LatestSortedDistinct | dossier/label/label.py:326-328 | on input sorted by `__lt__`, no two output labels are equal |
| Latest.LatestSortedNewest | dossier/label/label.py:326-328 | on input sorted by `__lt__`, each output label is the newest of its equal labels |
| Store.Insert | dossier/label/label.py:214-215 | a table write keeps the rows strictly ascending, adds the row, and replaces only a row with the same key |
| Store.Put | dossier/label/label.py:208-215 | `put` writes the label's row and its reversal's row, replaces only rows under those two keys, keeps the table ordered, and keeps every row decodable |
| Store.Scan | dossier/label/label.py:236 | a scan yields exactly the rows inside its bounds, in table order |
| Store.GetRangeExact | dossier/label/label.py:229-230 | the scan bounds of `get` admit exactly the keys with the requested ids, annotator and subtopics, at any time that fits in a signed 64-bit integer |
| Store.Get | dossier/label/label.py:217-238 | a label returned by `get` carries the requested content ids, subtopics and annotator |
| Store.GetNewest | dossier/label/label.py:217-238 | `get` raises `KeyError` exactly when no row matches; otherwise it decodes a matching row with the smallest complemented time, i.e. the newest |
| Store.GetFindsNewestRow | dossier/label/label.py:232-237 | `get` on the key of a row that is the newest of its key returns that row's label |
| Store.PutThenGet | dossier/label/label.py:208-238 | after `put(l)` of a label at least as new as the stored ones, `get` in its own orientation returns `l`, and in the swapped orientation returns its reversal |
| Store.DecodeAll | dossier/label/label.py:253 | decoding a scan succeeds exactly when every row decodes and then yields the labels in row order; otherwise it fails with the error of the first bad row |
| Store.ContentRangeExact | dossier/label/label.py:251-252 | the range of `get_all_for_content_id` admits exactly the keys whose first content id lies between the id and the id followed by `'\xff'` |
| Store.ContentRangeAdmitsExtension | dossier/label/label.py:251-252 | the range for `"a"` also admits rows whose first content id is `"ab"` |
| Store.GetAllForContentId | dossier/label/label.py:240-254 | never raises on a decodable table; `Store.GetAllSound`, `Store.GetAllCovers` and `Store.GetAllNewest` state where its labels come from, that every row of the id is represented, and that on a plain range it is one newest label per identity |
| Store.GetAllSound | dossier/label/label.py:240-254 | every label returned decodes a row in the range; a failure is the decoding error of some row in the range; on a decodable table the call succeeds |
| Store.GetAllCovers | dossier/label/label.py:240-254 | every stored row whose first content id is the queried id has an equal label in the answer |
| Store.GetAllNewest | dossier/label/label.py:240-254 | when the range holds only rows of that id without subtopics, no two answered labels are equal, and each is at least as new as every equal row in the range |
| Store.Everything | dossier/label/label.py:288-297 | succeeds exactly on a decodable table; with deleted labels it is every row decoded in order; without them every label comes from a row and every row has an equal label in the answer |
| Component.EndpointsMember | dossier/label/label.py:279-284 | an id is queued from a lookup answer exactly when it is an end of a label of the requested value |
| Component.IdentitiesMember | dossier/label/label.py:274-285 | a label's hash key is in the answer's key set exactly when the answer holds an equal label, as the Python `set` of labels does |
| Component.SetAdd | dossier/label/label.py:285 | adding a label to the answer adds exactly its hash key, keeps the answer free of equal pairs, and drops nothing |
| Component.QueryLabels | dossier/label/label.py:278-285 | processing one lookup answer keeps every queued id reachable, covers every answered label of the value, and adds only such labels, without equal pairs |
| Component.Visit | dossier/label/label.py:276-285 | one iteration moves the popped id to the done set and keeps the walk's invariants |
| Component.Traverse | dossier/label/label.py:272-286 | over any lookup, a successful walk returns a connected component (see `IsComponent`) and every id it queried answered; a failure is the error of the lookup of an id reachable from the start; a lookup that never fails gives success |
| Component.ConnectedComponent | dossier/label/label.py:256-286 | an invalid integer value fails before any query; a success is a connected component of the store, every queried id's `get_all_for_content_id` having succeeded; a failure is the `get_all_for_content_id` error of an id reachable from the start; a decodable table with a valid value always succeeds |
| Component.ComponentIsReachableSet | dossier/label/label.py:256-286 | the ids a component queried are exactly the ids reachable from the start over labels of the requested value |
| Component.VisitedStored | dossier/label/label.py:272-286 | the walk over a store queries only the start and ids that occur in stored rows |
| Component.CurrentIdsStored | dossier/label/label.py:240-254 | both ends of every label `get_all_for_content_id` returns occur in stored rows |
| Component.DecodableAnswers | dossier/label/label.py:240-254 | on a decodable table every lookup succeeds |
| Component.CurrentNewest | dossier/label/label.py:240-254 | on a plain range, no row of the id holds a newer version of an answered label |
| Component.NewestRowAnswered | dossier/label/label.py:240-254 | on a plain range, a row strictly newer than every other equal row of its id is answered |
| Scenarios.QueryFromA | dossier/label/label.py:270-286 | `connected_component('a', 1)` on any decodable table resolves 1 to `Positive` and succeeds with the component of `a` |
| Scenarios.ManyQuery | dossier/label/tests/test_label_store.py:155-164 | after `put(ab); put(bc); put(cd)` with every value 1, `connected_component('a', 1)` succeeds and its answer as a frozenset is `{ab, bc, cd}` |
| Scenarios.ManyDiffValueQuery | dossier/label/tests/test_label_store.py:167-176 | with `bc` at −1, the answer as a frozenset is `{ab}` |
| Scenarios.MostRecentQuery | dossier/label/tests/test_label_store.py:179-196 | `{ab}` before a later `bc` at 1 is put, and `{ab, bc', cd}` after |
| Scenarios.MostRecentDiffValueQuery | dossier/label/tests/test_label_store.py:199-216 | `{ab, bc, cd}` before a later `bc` at −1 is put, and `{ab}` after |
| Scenarios.WidenQuery | dossier/label/tests/test_label_store.py:190-196 | after the later `bc` at 1 over one at −1, the answer as a frozenset is `{ab, bc', cd}` |
| Scenarios.NarrowQuery | dossier/label/tests/test_label_store.py:210-216 | after the later `bc` at −1 over one at 1, the answer as a frozenset is `{ab}` |
| Scenarios.DirectConnect | dossier/label/tests/test_label_store.py:95-104 | after `put(ab); put(ac); put(bc)`, `get_all_for_content_id('a')` is exactly the list `[ab, ac]` |
| Scenarios.DirectConnectUnordered | dossier/label/tests/test_label_store.py:107-116 | with `ac` put as `Label('c', 'a', …)`, the answer is `[ab, ac']` in that order, where `ac'` is the `a`-first orientation and `==` the label put |
| Scenarios.BadRowQuery | dossier/label/label.py:275-278 | on a table whose row under `a` holds the value text "x", `connected_component('a', 1)` fails with the decoding error that `int('x')` raises at label.py:115, rather than answering an empty component |
| Scenarios.ThreeAllAnswered | dossier/label/tests/test_label_store.py:155-161 | after `put(ab); put(bc); put(cd)`, the lookups of `a`, `b` and `c` answer `ab`, `bc` and `cd` |
| Scenarios.ChainComponent | dossier/label/tests/test_label_store.py:155-164 | with every value 1, the component of `a` for value 1 visits a, b, c, d and holds exactly `ab`, `bc`, `cd` |
| Scenarios.BlockedComponent | dossier/label/tests/test_label_store.py:167-188 | with `bc` at −1, the component of `a` for value 1 visits only a, b and holds exactly `ab` |
| Scenarios.FourFresh | dossier/label/tests/test_label_store.py:190-193 | after a later `bc` is put over an earlier one, no lookup answers the earlier `bc` in either orientation |
| Scenarios.WidenComponent | dossier/label/tests/test_label_store.py:179-196 | a later `bc` at 1 over one at −1 widens the component of `a` to a, b, c, d with `ab`, the later `bc`, and `cd` |
| Scenarios.NarrowComponent | dossier/label/tests/test_label_store.py:199-216 | a later `bc` at −1 over one at 1 narrows the component of `a` to a, b with only `ab` |

`IsComponent(g, start, v, labels, visited)` states what `connected_component`
promises:

- the start is queried;
- every queried id is reachable from the start, and its lookup succeeded;
- every label of value `v` that a queried id's lookup returns has both ends
  queried and an equal label in the answer;
- the answer holds only such labels, and no two of them are equal.

## Left out

- `Label.__repr__` (label.py:170-181) and `LabelStore.__init__`'s namespace setup (189-206) are not modelled. Neither affects stored data or answers.
- The default time (label.py:66-67) reads the wall clock. The model takes `epochTicks` as a parameter of `NewLabel`.
- `__hash__` returns a Python integer hash of its identity tuple. The model uses the tuple itself (`Labels.Identity`), so hash collisions are not modelled.
- The `logger.info` call in `put` (label.py:213) is left out, as is `delete_all` (299-301), which only clears the table.
- The values of `CorefValue` accepted by `connected_component` are modelled as an enum member or an `int` (`ValueArg`). Other Python types are not modelled.
- Labels.FromKv: in Python 2, `int()` of a value text beyond `sys.maxint` returns a `long`. `isinstance(value, int)` at label.py:64 is false for a `long`, so `__new__` skips `CorefValue(value)` and `_from_kvlayer` returns a label holding that unvalidated number. The model decodes such a row as a failure (`InvalidValue`), because `CorefValue` cannot hold the number. Rows are only written by `_to_kvlayer`, whose value text is "-1", "0" or "1", so this never arises from `put`.
- Labels.NewLabel: `Raw(i)` stands for a Python `int`, that is |i| ≤ sys.maxint. A `long` value, however it arises, skips the validation at label.py:64-65 and is stored as given; the model does not represent such labels.
- `Decimal.ParseInt` accepts an optional sign followed by decimal digits. Python's `int()` also accepts surrounding whitespace. Rows are only ever written by `str()`, so this does not arise.
- Generators are modelled as whole sequences. A decoding error that Python raises partway through iteration is a failure of the whole call (`Result`).
- The key/value backend is modelled by its observable contract: rows kept in ascending key order, a write that replaces an equal key, and a scan between two bounds. Scan bounds are inclusive at both ends. `get_all_for_content_id`'s 1-tuple bounds never equal a stored 6-field key, so whether the upper bound is exclusive makes no difference there.
- `'\xff'` is the character U+00FF. Python 2 byte-string ordering is modelled as ordering on characters.
- Times are unbounded integers. The backend's 64-bit and unsigned storage of the complemented time is not modelled. `get`'s bounds are the signed 64-bit limits: `Store.Get` returns only labels whose complemented time lies between them, and `Store.PutThenGet` requires the put label's complemented time to lie between them.
- Component.Traverse: it requires a *universe* set containing both ends of every label any lookup returns. This is a termination measure only. `Component.ConnectedComponent` supplies it from the ids stored in the table.
- Store.GetAllNewest: it is stated only for a *plain range*, where every row in the scanned range has the queried id as its first content id and equal subtopics. Otherwise equal labels need not be adjacent in storage order, for two reasons:
  - an id that extends the queried id, such as `"ab"` for `"a"`, sorts in between;
  - a label stored as `(a, b, x, y)` equals one stored as `(a, b, y, x)`, yet `(a, b, x, z)` sorts between them.
  In those cases `groupby` may answer two equal labels, or a superseded one. `Component.CurrentNewest` and `Component.NewestRowAnswered` carry the same restriction.
- `connected_component` returns `list(set)`, whose order is arbitrary. The model returns the labels in insertion order, and its contract says nothing about order.
- Of the test file, the two `get_all_for_content_id` tests (95-116) and the four multi-hop component tests (155-216) are proved as `Scenarios`. The three single-hop component tests at test_label_store.py:119-152 are not proved as scenarios; they rely only on the general contracts of `Component.ConnectedComponent`.

## Findings

| source | as written | input that shows it | evidently intended | confidence | as-written member | corrected member |
|---|---|---|---|---|---|---|
| dossier/label/label.py:53-56 | `functools.total_ordering` adds only the comparisons a class lacks. The namedtuple base already defines `>`, `<=` and `>=`, so these stay field-by-field tuple comparisons that ignore normalization and put the newer time *later* | `l = Label('a','b','',1,epoch_ticks=0)` and `m = l._replace(epoch_ticks=1)`: `m < l` (newer sorts first) and also `m > l` | `>` as the converse of `__lt__` | high; not executed | Labels.GtAsWrittenContradictsLt | Labels.GtConsistentWithLt |
| dossier/label/label.py:139-154 | Python 2 does not derive `!=` from `__eq__`, so `!=` on labels is the tuple's field-wise inequality | `l = Label('a','b','',1)`: `l == l.reversed()` and `l != l.reversed()` are both true | `!=` as the negation of `__eq__` | high; not executed | Labels.NeAsWrittenContradictsEq | Labels.NeConsistentWithEq |

The store, latest-label and component operations use only `__eq__`,
`_cmp_value`, `__lt__` and the hash key. None of them use `>` or `!=` on
labels, so the corrected `Labels.Gt` and `Labels.Ne` are the only
comparisons of those kinds in the model.

# HREx in Dafny

HREx extracts hypernym–hyponym relations from parsed text. The pipeline has four stages:

1. A Stanford parser reader turns parse files into a document of `(word, tag)` terms.
2. A windowed extractor counts target words, marked contexts and their co-occurrences in three dictionaries:
   - `dwords`, a `DictWords` of `word -> (id, freq)`;
   - `dctxs`, the same for contexts;
   - `drels`, the `(idw, idc) -> weight` cells.
3. Filters keep the top-N or frequent terms and the heaviest contexts of each word.
4. Relation heuristics compare pairs of words and append `(broader, narrower)` pairs:
   - DF and TF compare stored frequencies;
   - Weeds and ClarkeDE compare a precision with a recall over shared contexts;
   - INRIASAC compares document frequencies of words that share a context.

Around these stages sit three more parts:
- a plain-text store for the dictionaries;
- the set logic of two gold standards, Onto.PT and WordNet;
- the pair loop that writes the Onto.PT relation file.

The project has one module per source file. Each module takes the source's form:
- Objects that change their fields are classes with `modifies` clauses: `DictWords`, `DictList`, `DictRels`, `Corpus`, the method classes, `Stanford` and `PlainText`.
- Each class method is proved against a pure function of the old state.
- Loops are `while` or `for` loops with invariants.
- Pure code is functions and lemmas.

Supporting modules:
- `PairScan` holds the `for i` / `for j in xrange(i + 1, ...)` scan shared by DF, TF, Weeds, ClarkeDE and `gen_OPT`, and the two nested-loop shapes of INRIASAC and `allRelations`.
- `FrequencyRelations` holds the comparison shared by DF and TF.
- `PyBuiltins` writes out the Python 2 built-ins the code relies on: `str.split()`, `split('/')`, `join`, `replace`, `basename`, `isdigit`, `'%d'`, `int()`, slicing with a negative bound, and `lower()`.

Assumptions:
- Python's dict iteration order is arbitrary. Where an output depends on it, the model takes an explicit `keys` sequence that lists every key exactly once (`Enumerates`).
- `DictRels`, `dic2List`, `getContexts` and `DictList.transpose` are used by the code but are not part of this model's source files. The model assumes the following:
  - `DictRels` is a `map<(int, int), int>` whose `d[k] = v` adds `v` to an existing cell or creates it.
  - `filterTopNContexts` stores a list per word id in its `DictRels` (hrex/corpus/filters.py:92-96). There the result is a `map<int, seq<(int, real)>>` from a word id to its kept `(idc, weight)` entries.
  - The list view `dic2List()` is a parameter `map<int, seq<(int, real)>>` from a word id to its `(idc, weight)` list.
  - `getContexts` is a parameter from a word id to its context ids.
- Weights are `real`. Float rounding is not modelled. Division follows IEEE for the special cases only: `x/0` is an infinity of the sign of `x`, and `0/0` is NaN, which compares false with everything.

Where the code and its documentation disagree, the model follows the code:
- `_buildVectors` (hrex/methods/dsim.py:122-137) builds its vectors over the union of both context sets, where the docstring example shows the intersection.
  - `DSim.BuildVectorsUnionExample` and `DSim.BuildVectorsMaskExample` show that the union followed by `_intersectedFeatures` gives the documented vectors.
- `filterTF` keeps `tf >= min_tf`, where the docstring says `>`.
- The `DictWords.__getitem__` docstring says it returns the value "without the frequency" (hrex/structure/dictionaries.py:181-187). The code returns the whole `(id, freq)` pair, and the model indexes the map the same way. The Onto.PT word-mode finding below rests on this.
- The `Weeds` class docstring divides WeedsRec by the weights of `v` over the contexts of `u` (hrex/methods/dsim.py:180-181). The code divides by `v2.sum()`, the weights over the contexts of `v` (hrex/methods/dsim.py:256), as the module docstring does (hrex/methods/dsim.py:18).
- The `ctw` docstrings of `listOfTerms` and `contentWords` list `p` for pronouns (hrex/corpus/stanford.py:193-200, 333-338), but `_contentPos` never accepts a pronoun tag (`Stanford.ContentPosByLetter`).
- The `_window` docstring calls a context on the left `-r`. The code marks a context to the right of its target `-r` and one to the left `-l`.
- In INRIASAC, `ctx2` is always bound after the inner loop, because that loop runs over the same non-empty dictionary.
- `PlainText` replaces every occurrence of the file's basename, also inside the directory part of the path (`Storage.StoragePathRepeats`).
- `plainPhrase` joins the token words, so an empty word (a token without `/`) leaves a doubled or trailing space.
- `parse_rdf` records hypernyms into a `DictList`, which ignores falsy values, so a hypernym synset with id 0 is never recorded.
- The ratio of a word without any context weight is `0/0`. NumPy computes NaN where a ZeroDivisionError might be expected, and the comparison then appends nothing (`DSim.NoContextsNaN`).

## Model

| member | source | states |
|---|---|---|
| Dictionaries.DictWords.constructor | hrex/structure/dictionaries.py:128-142 | `DictWords()` is empty with the counter at 1 and an empty inverse cache |
| Dictionaries.DictWords.FromDict | hrex/structure/dictionaries.py:137-142 | a non-empty input dict is stored as given and leaves `self.id` unset; an empty one counts as no input |
| Dictionaries.DictWords.SetItem | hrex/structure/dictionaries.py:172-178 | `d[key] = n` gives a new key `(self.id, n)` and advances the counter, or adds `n` to a known key's frequency; a new key on a dictionary without counter is an AttributeError that changes nothing |
| Dictionaries.DictWords.SetItemPair | hrex/structure/dictionaries.py:165-171 | `d[key] = (id, f)` stores the pair for a new key, keeps a known key's id while adding `f`, and never moves the counter |
| Dictionaries.DictWords.SetId | hrex/structure/dictionaries.py:259-274 | only an existing key changes, and only its id |
| Dictionaries.DictWords.SetFreq | hrex/structure/dictionaries.py:277-294 | only an existing key changes, and only its frequency |
| Dictionaries.DictWords.Id2Key | hrex/structure/dictionaries.py:218-243 | the first call fills the cache with exactly the stored ids, each mapped to a key holding it, and to its own `(key, freq)` when ids are distinct; later calls return the cache unchanged |
| Dictionaries.DictWords.HasId | hrex/structure/dictionaries.py:245-256 | answers whether the id is in the cache, building the cache first when it is empty |
| Dictionaries.DictWords.Simplify | hrex/structure/dictionaries.py:190-215 | a plain copy of the map; transposed, the cached inverse, which when first built holds exactly the stored ids, each mapped to a key holding it, and to `(key, freq)` when ids are distinct |
| Dictionaries.DictWords.GetFreq | hrex/structure/dictionaries.py:319-323 | the stored frequency of a key, or None when absent |
| Dictionaries.DictWords.GetFreqTransposedAsWritten | hrex/structure/dictionaries.py:313-318 | as written: a NameError for every id present in the cache, None for an absent one |
| Dictionaries.DictWords.GetFreqTransposed | hrex/structure/dictionaries.py:313-318 | as intended: the frequency of the word holding the id, read from the cache |
| Dictionaries.GetFreqTransposedExample | hrex/structure/dictionaries.py:313-318 | on `{'w1': (1, 3)}`, id 1 gives NameError as written and 3 as intended |
| Dictionaries.StaleInverseExample | hrex/structure/dictionaries.py:235-256 | an id inserted after the first `id2key` is not seen by `has_id` |
| Dictionaries.InsertPreservesDense | hrex/structure/dictionaries.py:172-178 | scalar insertion into a dictionary whose ids are exactly `1 .. self.id - 1` succeeds and keeps that so |
| Dictionaries.InsertNewKeyDense | hrex/structure/dictionaries.py:176-178 | a new key taking the counter keeps the ids distinct and contiguous |
| Dictionaries.InsertKnownKeyDense | hrex/structure/dictionaries.py:173-175 | a known key's accumulation keeps the ids distinct and contiguous |
| Dictionaries.InsertTwiceExample | hrex/structure/dictionaries.py:153-158 | the docstring example `d['w1'] = 3; d['w1'] = 4` gives `{'w1': (1, 7)}` |
| Dictionaries.FromDictInsertNewKeyFails | hrex/structure/dictionaries.py:138-142 | for a dictionary built from a non-empty dict, scalar insertion fails exactly for new keys; known keys still accumulate |
| Dictionaries.SetIdAndFreqAreSeparate | hrex/structure/dictionaries.py:259-294 | `setid`/`setfreq` keep the key set, each changes only its own component of the one key, and leave the other keys alone |
| Dictionaries.FreqAfterInsert | hrex/structure/dictionaries.py:172-178 | after `d[key] = n` the frequency of `key` grew by `n` (or is `n`), other frequencies unchanged |
| Dictionaries.InsertPairKeepsOldId | hrex/structure/dictionaries.py:165-171 | pair insertion keeps an existing id and ignores the given one, stores a new key's pair as given, and adds exactly the key |
| Dictionaries.ObserveAll | hrex/structure/dictionaries.py:172-178 | feeding terms one by one keeps the ids distinct and contiguous |
| Dictionaries.ObserveAllKeys | hrex/structure/dictionaries.py:172-178 | the keys are the distinct terms fed |
| Dictionaries.ObserveAllCounts | hrex/structure/dictionaries.py:172-178 | each frequency is the number of occurrences of the term |
| Dictionaries.ObserveAllOrder | hrex/structure/dictionaries.py:176-178 | ids follow first-seen order in both directions |
| Dictionaries.ObserveAllExtendKeeps | hrex/structure/dictionaries.py:173-175 | a further term never changes the ids already given |
| Dictionaries.ObserveAllExtendNew | hrex/structure/dictionaries.py:176-178 | a new term gets an id above all earlier ones |
| Dictionaries.ObserveAllFirstSeen | hrex/structure/dictionaries.py:145-178 | from empty: keys are the distinct terms, frequencies their counts, ids in first-seen order |
| Dictionaries.AppendItemKeepsListsNonEmpty | hrex/structure/dictionaries.py:55-75 | a falsy value changes nothing; otherwise the value (or list) ends up at the end of the key's list, other keys are unchanged, and no stored list is empty |
| Dictionaries.DictList.constructor | hrex/structure/dictionaries.py:34-52 | a DictList built without input is empty |
| Dictionaries.DictList.SetItem | hrex/structure/dictionaries.py:55-75 | `d[key] = value` appends, extends or stores exactly as `AppendItem` says |
| Dictionaries.DictRels.constructor | hrex/corpus/corpus.py:54 | a new `DictRels` has no cells |
| Dictionaries.DictRels.Add | hrex/corpus/corpus.py:96 | `drels[k] = v` adds `v` to the cell `k`, creating it at `v` |
| Corpus.HalfWindow | hrex/corpus/corpus.py:72-75 | `n` is the floor of `(size - 1) / 2` for an int or digit-string window, `len(doc)` otherwise |
| Corpus.PairEventsShape | hrex/corpus/corpus.py:80-113 | a pair records something exactly for the recognised tag pairs, two events exactly for noun–noun; the target is a noun and its context is marked `-r` when right of it and `-l` when left; noun–noun records the left-marked event first |
| Corpus.RowEventsMembers | hrex/corpus/corpus.py:78-79 | the events of row `i` are those of the pairs `i < j < hi` with `j <= len(doc) - 1` |
| Corpus.AllRowsSound | hrex/corpus/corpus.py:77-79 | every event of the first `k` rows is produced by an examined pair of those rows |
| Corpus.AllRowsComplete | hrex/corpus/corpus.py:77-79 | every event an examined pair of the first `k` rows produces is recorded |
| Corpus.AllRowsMembers | hrex/corpus/corpus.py:77-79 | both directions of the two above |
| Corpus.EventsMembers | hrex/corpus/corpus.py:72-113 | an event is recorded iff an examined pair `i < j <= min(i + n, len(doc) - 1)` produces it; with `n >= len(doc)` every pair `i < j` is examined |
| Corpus.RecordAllAppend | hrex/corpus/corpus.py:108-113 | recording `a + b` is recording `a` then `b` |
| Corpus.RecordAllIndexes | hrex/corpus/corpus.py:109-112 | the word and context dictionaries are exactly the targets and the contexts fed one by one |
| Corpus.RecordKeepsCellTallies | hrex/corpus/corpus.py:109-113 | recording one event keeps every `(idt, idc)` cell equal to the count of events with that target and context |
| Corpus.RecordCell | hrex/corpus/corpus.py:109-113 | after one more event, the cell of `(t, x)` is the number of events `(t, x)` so far |
| Corpus.RecordAllCells | hrex/corpus/corpus.py:109-113 | from empty dictionaries every cell counts its events |
| Corpus.RecordAllCounts | hrex/corpus/corpus.py:108-113 | from empty: target and context frequencies are occurrence counts, ids in first-seen order, cells count events |
| Corpus.WindowExampleEvents | hrex/corpus/corpus.py:77-113 | `[(dog,n),(chase,v),(cat,n)]` with size 5 gives four events, the noun–noun pair at distance 2 in both directions |
| Corpus.WindowExampleCounts | hrex/corpus/corpus.py:108-113 | those events give four cells of weight 1, and dog and cat frequency 2 |
| Corpus.Corpus.constructor | hrex/corpus/corpus.py:52-54 | three fresh empty dictionaries and the window size |
| Corpus.Corpus.RecordEvent | hrex/corpus/corpus.py:109-113 | one event's three in-place increments are `Record` |
| Corpus.Corpus.RecordPair | hrex/corpus/corpus.py:80-113 | the if-chain for one position pair records `PairEvents` in order |
| Corpus.Corpus.WindowPair | hrex/corpus/corpus.py:79-113 | a pair past the end records nothing |
| Corpus.Corpus.WindowRow | hrex/corpus/corpus.py:78-113 | the inner loop records the events of row `i` |
| Corpus.Corpus.Window | hrex/corpus/corpus.py:56-113 | `_window(doc)` records `Events(doc, n)`, keeping the dictionaries dense |
| Filters.InsertDesc | hrex/corpus/filters.py:42 | inserting into the stable descending order is a permutation of the input plus the element |
| Filters.SortDesc | hrex/corpus/filters.py:42 | `sorted(..., reverse=True)` is a permutation of its input |
| Filters.InsertDescSorted | hrex/corpus/filters.py:42 | inserting into a descending list keeps it descending |
| Filters.WithKeyInsertDesc | hrex/corpus/filters.py:42 | insertion puts the new element before every element of equal key, which is what keeps the sort stable |
| Filters.SortDescSorted | hrex/corpus/filters.py:42 | the sort is in non-increasing key order |
| Filters.SortDescStable | hrex/corpus/filters.py:42 | the elements of each key keep their input order (stability) |
| Filters.CutDominates | hrex/corpus/filters.py:42 | a cut of a descending list splits it, and nothing after the cut outweighs anything before |
| Filters.TopOfSorted | hrex/corpus/filters.py:42 | `sorted(...)[:n]` is descending, a sub-multiset of the input, and no element left out outweighs a kept one |
| Filters.TopN | hrex/corpus/filters.py:42-46 | the kept words are dictionary words with their own entries |
| Filters.Sizes | hrex/corpus/filters.py:39-41 | `sizes` holds `(w, tf of w)` for each word, in iteration order |
| Filters.RankedEntries | hrex/corpus/filters.py:39-42 | every ranked pair is `(w, tf of w)` and no word is ranked twice |
| Filters.TopNSize | hrex/corpus/filters.py:42-46 | `min(N, len(dic))` words are kept for `N >= 0` (a negative N drops from the end), each with its `(id, tf)` |
| Filters.TopNDominates | hrex/corpus/filters.py:40-46 | no dropped word has a greater tf than a kept one |
| Filters.TopNTies | hrex/corpus/filters.py:39-42 | words of equal tf are ranked in dictionary iteration order |
| Filters.DistinctFirstsPermutation | hrex/corpus/filters.py:42-43 | a permutation keeps the word components distinct, so `dict(ar_topN)` loses no word |
| Filters.CollectSizes | hrex/corpus/filters.py:38-41 | the first loop builds `(w, tf)` in iteration order |
| Filters.CopyEntries | hrex/corpus/filters.py:44-46 | the second loop fills a fresh DictWords with exactly the chosen words' entries |
| Filters.FilterTopN | hrex/corpus/filters.py:19-48 | `filter_topN` returns a fresh DictWords holding `TopN`, the input unchanged |
| Filters.AtLeast | hrex/corpus/filters.py:67-70 | a word is kept iff `tf >= min_tf`, with its entry |
| Filters.AtLeastComposes | hrex/corpus/filters.py:67-70 | filtering twice is filtering by the larger threshold; filtering is idempotent |
| Filters.AtLeastAntitone | hrex/corpus/filters.py:67-70 | a higher threshold keeps a subset |
| Filters.FilterTF | hrex/corpus/filters.py:51-72 | `filterTF` returns a fresh DictWords holding `AtLeast` |
| Filters.TopContextsProperties | hrex/corpus/filters.py:96 | each word keeps `min(N, len)` entries, in non-increasing weight, a sub-multiset of its list, and no dropped entry outweighs a kept one |
| Filters.FilterTopNContexts | hrex/corpus/filters.py:93-97 | every word id keeps exactly its top-N list |
| PairScan.RowMembers | hrex/methods/df.py:72-79 | row `i` appends `r` iff the body appends it for some `j` with `i < j` |
| PairScan.ScanMembers | hrex/methods/df.py:68-79 | the scan appends `r` iff the body appends it for some pair of positions `i < j` |
| PairScan.RowsSound | hrex/methods/df.py:69-79 | every relation of the first `k` rows comes from a compared pair of those rows |
| PairScan.RowsComplete | hrex/methods/df.py:69-79 | every relation a compared pair of the first `k` rows gives is appended |
| PairScan.ScanOnce | hrex/methods/df.py:68-79 | over distinct keys and a body appending at most one relation between its words: no repeats, no self-pair, never both directions |
| PairScan.RowNoRepeats | hrex/methods/df.py:72-79 | one row appends no relation twice |
| PairScan.RowsNoRepeats | hrex/methods/df.py:69-79 | the rows together append no relation twice |
| PairScan.RowLater | hrex/methods/df.py:72-79 | both words of a relation of row `i` are listed at `i` or later |
| PairScan.RowsEarlier | hrex/methods/df.py:69-79 | a relation of the first `k` rows involves a word listed before `k` |
| PairScan.NotReversed | hrex/methods/df.py:68-79 | no position pair appends the reverse of a relation another pair appended |
| PairScan.SamePair | hrex/methods/df.py:69-74 | over distinct keys each unordered pair of words is at one pair of positions |
| PairScan.LastKeyMembers | hrex/methods/inriasac.py:103-113 | the INRIASAC loop appends `r` iff some `w1` against the last key gives it |
| PairScan.InnerMembers | hrex/resources/wordnet.py:253-255 | the inner loop over all keys appends what `w1` against some `w2` gives |
| PairScan.AllPairsSound | hrex/resources/wordnet.py:252-255 | every relation of the all-pairs loop comes from some `(w1, w2)` |
| PairScan.FlattenSound | hrex/methods/df.py:69-79 | a relation in the concatenated rows comes from one of them |
| PairScan.FlattenComplete | hrex/methods/df.py:69-79 | a relation of any row is in the concatenation |
| PairScan.AllPairsComplete | hrex/resources/wordnet.py:252-255 | every relation some `(w1, w2)` gives is appended |
| FrequencyRelations.FreqCmpOriented | hrex/methods/df.py:75-79 | the body appends at most one relation, only between its two words |
| FrequencyRelations.RelationsMembers | hrex/methods/df.py:68-79 | `(a, b)` is appended iff both are stored and `a` is strictly more frequent |
| FrequencyRelations.RelationsAntisymmetric | hrex/methods/tf.py:77-81 | no self-pair, never both directions, and the broader word is strictly more frequent |
| FrequencyRelations.RelationsExactlyOnce | hrex/methods/tf.py:70-81 | no relation repeated; exactly the dominance pairs, as many as there are pairs of unequal frequency |
| FrequencyRelations.CompareAll | hrex/methods/df.py:68-79 | the nested loops compute `Relations(keys, m)` |
| DocumentFrequency.DF.constructor | hrex/methods/df.py:26-53 | holds the dictionary, with no relations |
| DocumentFrequency.DF.IdentifyRelations | hrex/methods/df.py:56-79 | appends `Relations` to the relations of earlier calls (a second call duplicates them) |
| TermFrequency.TF.constructor | hrex/methods/tf.py:28-55 | holds the dictionary, with no relations |
| TermFrequency.TF.IdentifyRelations | hrex/methods/tf.py:58-81 | appends `Relations` to the relations of earlier calls |
| DSim.GreaterStrictOrder | hrex/methods/dsim.py:258-261 | float `>` is a strict total order off NaN, and NaN compares false both ways |
| DSim.QuotientCases | hrex/methods/dsim.py:255-256 | a non-zero divisor gives the real quotient; `0/0` is NaN and a non-zero `x/0` an infinity |
| DSim.DictOfKeys | hrex/methods/dsim.py:122-123 | `dict(l)` has the ids of `l` as keys |
| DSim.DictOfLastWins | hrex/methods/dsim.py:122-123 | the last pair of each id gives its weight |
| DSim.Project | hrex/methods/dsim.py:128-136 | one entry per id of the order: the word's weight or 0 |
| DSim.IntersectedFeatures | hrex/methods/dsim.py:168-169 | two equal-length masked vectors with no zero entry |
| DSim.IntersectedFeaturesExample | hrex/methods/dsim.py:160-166 | the docstring example `[10,0,5]`, `[20,30,2]` gives `[10,5]`, `[20,2]` |
| DSim.IntersectedProject | hrex/methods/dsim.py:168-169 | masking projected vectors keeps exactly the ids where both weights are non-zero, in order |
| DSim.SharedIn | hrex/methods/dsim.py:168 | an id is kept iff it is in the order and weighs non-zero for both words |
| DSim.SumProject | hrex/methods/dsim.py:255-256 | a vector's sum along an order without repeats is the set sum over its ids, whatever the order |
| DSim.SetSumZeros | hrex/methods/dsim.py:132-136 | zero-weight ids add nothing |
| DSim.SetSumAgree | hrex/methods/dsim.py:255-256 | maps agreeing on a set have the same sum over it |
| DSim.TotalAlongUnion | hrex/methods/dsim.py:124-137 | along the union of both context sets a vector sums to the word's full weight |
| DSim.SharedSums | hrex/methods/dsim.py:254-256 | the masked sums are each word's weight over the shared contexts |
| DSim.MaskedAlong | hrex/methods/dsim.py:168-169 | masking two projections is projecting both on their shared ids, which repeat no id |
| DSim.SharedInSet | hrex/methods/dsim.py:168-169 | along an enumeration of the union, the shared ids are exactly the contexts both words weigh |
| DSim.SumMinProject | hrex/methods/dsim.py:344-347 | the sum of pairwise minima of two projections is the sum of the projected minimum weights |
| DSim.SharedMinSum | hrex/methods/dsim.py:342-347 | the ClarkeDE numerator is the sum of the minima over the shared contexts |
| DSim.ScoresAreRatios | hrex/methods/dsim.py:255-256 | with non-zero full sums, precision and recall are the documented ratios for both measures |
| DSim.InclusionFullPrecision | hrex/methods/dsim.py:255 | when every weighted context of `u` is one of `v`, Weeds precision is 1 |
| DSim.NoContextsNaN | hrex/methods/dsim.py:255-256 | a word without contexts gets NaN ratios |
| DSim.DirectionMembers | hrex/methods/dsim.py:258-261 | `prec > rec` appends `(w2, w1)`, `rec > prec` `(w1, w2)`, equal or NaN nothing, at most one |
| DSim.ScoresSwap | hrex/methods/dsim.py:254-256 | swapping the words swaps precision and recall |
| DSim.MeasureOriented | hrex/methods/dsim.py:351-354 | both measures append at most one relation per body, between the two words |
| DSim.JudgeEitherOrder | hrex/methods/dsim.py:252-261 | the body appends `(b, a)` iff `b` is broader, whichever word comes first |
| DSim.MeasureRelations | hrex/methods/dsim.py:241-261 | `(b, a)` is appended iff `a`, `b` are distinct stored words and `b` is broader; independent of key order, no repeats, never both directions |
| DSim.BuildVectorsExample | hrex/methods/dsim.py:112-123 | the docstring lists become the dictionaries `{1:1,2:2,3:3}` and `{2:20,3:30,4:40}` |
| DSim.BuildVectorsUnionExample | hrex/methods/dsim.py:124-137 | the code builds `[1,2,3,0]` and `[0,20,30,40]` over the union |
| DSim.BuildVectorsMaskExample | hrex/methods/dsim.py:115-118 | the mask of those gives the documented `[2,3]` and `[20,30]` |
| DSim.BuildVectors | hrex/methods/dsim.py:90-137 | lists each id of the union once and both vectors are the projections along it |
| DSim.ClarkeNumerator | hrex/methods/dsim.py:344-347 | the loop sums the pairwise minima |
| DSim.Scores | hrex/methods/dsim.py:252-256 | the loop body's scores are the measure's precision and recall of the two context dictionaries, for any union order |
| DSim.ScanRow | hrex/methods/dsim.py:247-261 | the inner loop appends row `i` of the scan |
| DSim.RunScan | hrex/methods/dsim.py:243-261 | the nested loops append `Scan(keys, Measure)` |
| DSim.Weeds.constructor | hrex/methods/dsim.py:194-225 | holds the dictionary, with no relations |
| DSim.Weeds.IdentifyRelations | hrex/methods/dsim.py:228-261 | appends the Weeds scan to earlier relations |
| DSim.ClarkDE.constructor | hrex/methods/dsim.py:283-314 | holds the dictionary, with no relations |
| DSim.ClarkDE.IdentifyRelations | hrex/methods/dsim.py:317-354 | appends the ClarkeDE scan to earlier relations |
| Inriasac.CompareMembers | hrex/methods/inriasac.py:109-113 | a relation needs shared contexts and a strictly higher df for its first word; at most one |
| Inriasac.JudgeMembers | hrex/methods/inriasac.py:104-113 | the same for two stored words |
| Inriasac.AtMostOnePerWord | hrex/methods/inriasac.py:103-113 | at most one relation per `w1` |
| Inriasac.LastKeyCount | hrex/methods/inriasac.py:106-113 | the last key meets itself with equal df: at most `len - 1` relations, none for a one-word dictionary |
| Inriasac.LastKeyOnly | hrex/methods/inriasac.py:103-113 | `(a, b)` is appended iff one is the last key, they share a context and `a` has higher df |
| Inriasac.CandidateMembers | hrex/methods/inriasac.py:103-113 | as intended: `(a, b)` is found iff they share a context and `a` has higher df |
| Inriasac.LastKeyOnlyExample | hrex/methods/inriasac.py:106-109 | three words sharing a context: the code misses `(a, b)`, which the intended comparison finds |
| Inriasac.INRIASAC.constructor | hrex/methods/inriasac.py:56-88 | holds the dictionary and `getContexts`, with no relations |
| Inriasac.INRIASAC.IdentifyRelations | hrex/methods/inriasac.py:91-113 | appends what comparing each `w1` with the last key gives, to earlier relations |
| Stanford.NormalizationIdempotent | hrex/corpus/stanford.py:144-152 | normalising twice is normalising once |
| Stanford.ContentPosByLetter | hrex/corpus/stanford.py:178-184 | a content tag is one normalising to `n`, `j` or `v` with that letter in `content`; `p` never is |
| Stanford.NormalizationKeepsContent | hrex/corpus/stanford.py:144-184 | the content test gives the same answer before and after normalising |
| Stanford.TokenSplit | hrex/corpus/stanford.py:219-226 | the tag follows the last `/`, the word is all before it; no `/` gives the empty word |
| Stanford.TermsOfLength | hrex/corpus/stanford.py:218-235 | no more terms than tokens |
| Stanford.TermsOfUnfiltered | hrex/corpus/stanford.py:233-234 | unfiltered, one term per token, in order |
| Stanford.TermsOfSound | hrex/corpus/stanford.py:218-235 | every term is a token's term, and filtered ones have content tags |
| Stanford.TermsOfPhrase | hrex/corpus/stanford.py:217-235 | the loop computes `TermsOf` of the phrase's tokens |
| Stanford.SpacedJoin | hrex/corpus/stanford.py:315-322 | dropping the last character of the spaced words gives `' '.join` |
| Stanford.WordsOf | hrex/corpus/stanford.py:315-321 | one word per token, each the part before the token's last `/` |
| Stanford.SpacedIsJoin | hrex/corpus/stanford.py:116-117 | the tree buffer of non-empty lines is their `' '.join` plus a trailing space |
| Stanford.SpacedAppend | hrex/corpus/stanford.py:116-117 | one more tree line appends the line and a space |
| Stanford.StepCycle | hrex/corpus/stanford.py:84-119 | blank lines cycle phrase → tree → deps → phrase, only the last step yields (and empties the buffers); other lines write the current buffer |
| Stanford.RunOneHot | hrex/corpus/stanford.py:76-119 | exactly one flag is set throughout |
| Stanford.RunAppend | hrex/corpus/stanford.py:82-119 | reading two blocks of lines in turn is reading them together |
| Stanford.NoBlankNoYield | hrex/corpus/stanford.py:113-119 | lines without a blank yield nothing and keep the state |
| Stanford.TrailingBlockIgnored | hrex/corpus/stanford.py:82-119 | a block not closed by a blank line is never yielded |
| Stanford.RunPhrase | hrex/corpus/stanford.py:114-115 | the last phrase line wins |
| Stanford.RunTree | hrex/corpus/stanford.py:116-117 | tree lines are appended, each followed by a space |
| Stanford.RunDeps | hrex/corpus/stanford.py:118-119 | dependency lines are appended to the list |
| Stanford.BlockYields | hrex/corpus/stanford.py:82-119 | one sentence block yields once, its last phrase line, spaced tree and dependencies, and returns to the empty phrase state |
| Stanford.BlockDocument | hrex/corpus/stanford.py:394-397 | a sentence's document is the terms of its last phrase line |
| Stanford.Stanford.constructor | hrex/corpus/stanford.py:63-68 | empty buffers and the extract mode |
| Stanford.Stanford.Iterate | hrex/corpus/stanford.py:70-119 | `__iter__` yields, by `extract`, the buffers `Run` yields and leaves the buffers `Run` ends with |
| Stanford.Stanford.ListOfTerms | hrex/corpus/stanford.py:187-235 | `TermsOf` of the phrase's tokens |
| Stanford.Stanford.PlainPhrase | hrex/corpus/stanford.py:298-322 | the token words joined by single spaces |
| Stanford.Stanford.ContentWords | hrex/corpus/stanford.py:325-360 | ValueError exactly for an empty `ctw`, otherwise the normalised content terms |
| Stanford.Stanford.Document | hrex/corpus/stanford.py:363-397 | the concatenated terms of every yielded phrase |
| Storage.StoragePathOfFile | hrex/structure/storage.py:281-283 | a file whose name occurs nowhere earlier in its path is stored as `dir + dtype_name` in the same directory |
| Storage.StoragePathRepeats | hrex/structure/storage.py:281-283 | `name/name` is stored in `dtype_name/dtype_name`: the directory is renamed too |
| Storage.ReplaceOnlySuffix | hrex/structure/storage.py:283 | a pattern found only at the end is replaced there alone |
| Storage.BasenameAppend | hrex/structure/storage.py:282 | the basename of `dir/ + name` is `name` |
| Storage.LoadStops | hrex/structure/storage.py:330-348 | once an error or `False` occurs, later lines change nothing |
| Storage.LoadIgnoresComments | hrex/structure/storage.py:331-332 | every `%%` line is skipped wherever it stands |
| Storage.LoadUnknownType | hrex/structure/storage.py:346-348 | an unknown dtype gives `False` at the first data line, an empty dict for comments only |
| Storage.LoadTransposedSwaps | hrex/structure/storage.py:334-339 | transposed `drels` load swaps the two ids of every key, and only that |
| Storage.RelLineParses | hrex/structure/storage.py:293-296 | a saved `drels` line is no comment and parses back to its three numbers, ids swapped when transposed |
| Storage.FieldsParse | hrex/structure/storage.py:335 | `'%d %d %d'` parses back with `map(int, ...)` |
| Storage.RelLineLoads | hrex/structure/storage.py:334-339 | a saved `drels` line loads as its entry |
| Storage.WordFieldsTransposed | hrex/structure/storage.py:340-345 | `'%d %s %d'` reads back as the word and its entry |
| Storage.WordFieldsPlain | hrex/structure/storage.py:340-345 | `'%s %d %d'` reads back as the word and its entry, for a word not starting with `%%` |
| Storage.WordLineLoads | hrex/structure/storage.py:340-345 | a saved word line loads as its entry |
| Storage.LoadRelLines | hrex/structure/storage.py:285-296 | the header and any prefix of the saved `drels` lines load as those entries |
| Storage.LoadHeader | hrex/structure/storage.py:331-332 | a file holding only its header loads as an empty dictionary, whatever the dtype |
| Storage.LoadWordLines | hrex/structure/storage.py:297-307 | the same for word dictionaries |
| Storage.LoadSaveRels | hrex/structure/storage.py:285-296 | `load(save(d))` is `d` for `drels`, both orientations |
| Storage.LoadSaveWords | hrex/structure/storage.py:297-307 | `load(save(d))` is `d` for `dwords`/`dctxs`, both orientations, for whitespace-free words not starting with `%%` |
| Storage.CommentWordLost | hrex/structure/storage.py:331-332 | a word starting with `%%` is read back as a comment and lost |
| Storage.PlainText.constructor | hrex/structure/storage.py:246-253 | holds the file name |
| Storage.PlainText.Save | hrex/structure/storage.py:268-311 | writes `SavedLines` to the derived path; `True`, or the TypeError of formatting an unknown dtype with `%d` |
| Storage.PlainText.Load | hrex/structure/storage.py:314-349 | reads the derived path and returns `LoadSpec` of its lines |
| OntoPT.HypernymOrderCases | hrex/resources/ontopt.py:124-131 | 1 when `id1` is over `id2` (first), -1 when only the reverse, else 0; KeyError exactly for a reached missing lookup |
| OntoPT.HypernymOrderSwap | hrex/resources/ontopt.py:124-131 | swapping the ids negates a one-direction answer and keeps 0 |
| OntoPT.IsHypernymModes | hrex/resources/ontopt.py:115-123 | an unsupported mode or word mode without `dcpt` exits; id mode agrees; word mode as written always fails while the corrected one compares ids |
| OntoPT.WordModeExample | hrex/resources/ontopt.py:118-126 | 'animal' over 'cao': KeyError as written, -1 as intended |
| OntoPT.AllLemmas | hrex/resources/ontopt.py:141-148 | the union of the nouns of all the word's synsets; KeyError for an unknown word or synset |
| OntoPT.UpMembers | hrex/resources/ontopt.py:210-212 | a parent of some synset of the frontier is in the next frontier |
| OntoPT.ReachMembers | hrex/resources/ontopt.py:208-215 | the search to level `n` finds exactly the synsets of levels 1 to `n` |
| OntoPT.UpAdd | hrex/resources/ontopt.py:210-212 | adding a synset to the frontier adds exactly its parents to the next one |
| OntoPT.ReachGrows | hrex/resources/ontopt.py:208-215 | a deeper search finds everything a shallower one does |
| OntoPT.ParentsRound | hrex/resources/ontopt.py:209-214 | one round gathers exactly the parents of the frontier and adds them to the result |
| OntoPT.NLevelSynsetHypernyms | hrex/resources/ontopt.py:199-215 | own synsets for level 0, levels 1 to `levels` otherwise, KeyError for an unknown word |
| OntoPT.KeepByWord | hrex/resources/ontopt.py:247-254 | keeps exactly the words Onto.PT has, with their entries |
| OntoPT.KeepById | hrex/resources/ontopt.py:247-252 | transposed: the ids of exactly the kept words, each holding a kept word of that id |
| OntoPT.FilterDictionary | hrex/resources/ontopt.py:228-257 | exits exactly when both dictionaries are empty; otherwise the kept words, by word or by id |
| OntoPT.TransposedInjective | hrex/resources/ontopt.py:251-252 | with distinct ids, each id holds its own word's tf |
| OntoPT.CleanRelations | hrex/resources/ontopt.py:319-328 | only pairs passing all three tests are recorded, every such pair is (bar hypernym id 0), no 2-cycle survives, and kept synsets get their nouns |
| OntoPT.OrderOriented | hrex/resources/ontopt.py:344-348 | the body writes at most one line, between its two ids |
| OntoPT.GenOPT | hrex/resources/ontopt.py:339-348 | the pair loop writes `Scan(keys, Order)` |
| OntoPT.GenOPTLines | hrex/resources/ontopt.py:339-348 | `a b` is written iff `a` is over `b` and, if both are over each other, `a` comes first; no repeats, never both orders |
| WordNet.AllLemmas | hrex/resources/wordnet.py:96-100 | as written: `{word}` without noun synsets, else only the last synset's names |
| WordNet.AllLemmasUnion | hrex/resources/wordnet.py:96-100 | as intended: the word and the names of all its noun synsets |
| WordNet.AllLemmasExample | hrex/resources/wordnet.py:96-100 | 'bank' with two synsets loses 'depository' as written |
| WordNet.IsHypernymCases | hrex/resources/wordnet.py:173-177 | true iff the hypernyms of `v2` meet the lemmas of `v1`; KeyError iff one is not loaded |
| WordNet.IsHypernymModes | hrex/resources/wordnet.py:167-172 | word mode is id mode on the stored ids; another mode leaves `idw2` unbound |
| WordNet.FilterDictionary | hrex/resources/wordnet.py:219-234 | exits when both dictionaries are empty, else keeps exactly the words with noun synsets |
| WordNet.KeptFilters | hrex/resources/wordnet.py:228-231 | keeping only drops words, keeps their entries, and is idempotent |
| WordNet.AllRelations | hrex/resources/wordnet.py:237-257 | exits for an empty dictionary; else, iterating the filtered dictionary, `(a, b)` is appended iff both are distinct kept words and `isHypernym` holds |
| WordNet.RelatedPairCases | hrex/resources/wordnet.py:254-255 | two kept words are related iff distinct and the hypernyms of the second meet the lemmas of the first |
| WordNet.RelatedPairs | hrex/resources/wordnet.py:252-255 | the nested loops append, for each `w1` in order, the pairs `(w1, w2)` of distinct related words, as `AllPairsRelations` |
| WordNet.AllRelationsFound | hrex/resources/wordnet.py:250-255 | over an enumeration of the kept words, the found pairs are exactly the distinct related kept words |
| WordNet.AllRelationsMembers | hrex/resources/wordnet.py:252-255 | `(a, b)` is found iff both are distinct kept words and `isHypernym` holds |
| WordNet.NoSelfRelations | hrex/resources/wordnet.py:254 | no word is related to itself |
| PyBuiltins.SplitWsJoin | hrex/corpus/stanford.py:218 | `' '.join` of whitespace-free words splits back into them |
| PyBuiltins.TokenPrefix | hrex/corpus/stanford.py:218 | the leading run of non-whitespace of a string, ended by whitespace or the end |
| PyBuiltins.SplitWsCons | hrex/corpus/stanford.py:218 | a token followed by whitespace or nothing is split off whole |
| PyBuiltins.SplitOn | hrex/corpus/stanford.py:219 | `split('/')` always gives at least one part |
| PyBuiltins.NatToDecimal | hrex/structure/storage.py:294-307 | `'%d' % n` for `n >= 0` is a non-empty string of ASCII digits |
| PyBuiltins.SplitWsTokens | hrex/corpus/stanford.py:218 | `split()` gives non-empty whitespace-free tokens |
| PyBuiltins.JoinSplitOn | hrex/corpus/stanford.py:219-223 | joining a split on a separator gives the string back |
| PyBuiltins.SplitOnParts | hrex/corpus/stanford.py:219 | no part of a split holds the separator |
| PyBuiltins.BasenameSuffix | hrex/structure/storage.py:282 | the basename is the longest suffix without `/` |
| PyBuiltins.ParseIntDecimal | hrex/structure/storage.py:335 | `int('%d' % i) == i` |
| PyBuiltins.DigitsValueOfDecimal | hrex/corpus/corpus.py:73 | the digits written for `n` have value `n` |
| PyBuiltins.Take | hrex/corpus/filters.py:42 | `s[:n]` is a prefix of Python's length for any `n` |
| PyBuiltins.Lower | hrex/corpus/stanford.py:224-225 | `lower()` maps each character |

## Left out

- `DictRels`, `dic2List`, `getContexts` and `DictList.transpose` are not defined in the modelled files. They are the stated assumptions above (a map, a list-view parameter and a context function).
- `DictList.__init__` from a file or database, `load_from_*` and `save_as_text` are file and database plumbing. They also use undefined names.
- Logging (the `logger` calls) is left out. `DictWords.stats` only logs the number of terms, so it is left out too.
- Aliasing between the dictionaries a `Corpus` holds and those passed to a method is not modelled. The method classes take a `DictWords` and read its items once.
- Dictionaries.DictList.SetItem: a new key's list value is stored by reference in the source, so the dictionary shares it with the caller. The model's lists are sequence values, so that sharing is not modelled.
- `lower()` is modelled on ASCII letters only. Unicode case mapping is left out.
- `int()` and `isdigit()` are modelled on ASCII digits only. On the unicode strings the code reads, Python also accepts other Unicode decimal digits (`int(u'\u0661') == 1`), which the model treats as a ValueError or a non-digit window size.
- Weights are exact reals: float64 rounding, signed zeros and overflow are left out.
- Files are sequences of already-stripped lines, and generators are sequences. `open` and `close` are left out. So is `PlainText.clear`, which only truncates files.
- `Stanford.nounPhrases` and `_treeToNP` are left out: they need NLTK trees.
- Stanford.Stanford.Iterate: each call reads the given `lines` from the start. The source opens its file once in `__init__` and every `__iter__` reads that same file object, so a second pass (for example `document()` after an earlier iteration) yields nothing. That exhausted-file behaviour is not modelled.
- `Corpus.extractWindow` is left out: it does directory listing and language dispatch. `Corpus.save` and `Corpus.load` are left out as well.
- SQLite, Shelve, mathutils (`pmi`, `ppmi`, `lmi`), methods.py, goldstandard.py, parser.py, databases.py, parameters.py, the run/ drivers and slqs.py are not part of this model.
- The Onto.PT tables, the rdflib parsing in `parse_rdf` and `main` are left out:
  - The tables (`load_synsets` from shelve files) are given as the `Onto` value.
  - The graph's `get_parents` is a parameter.
  - The triple-reading loop of `parse_rdf` is left out. Only its cleaning loop is modelled, over given `dNomeSyn`, `dallsyns` and `dHh`.
- `all_synsets_hypernyms`, `parent_synset_hypernyms`, `set_of_hypernyms` and WordNet's `allHypernyms` are left out. They are NLTK or graph closure calls.
- WordNet's `_loadSynsets` is the assumption `Loaded`: every kept word has its tables.
- NLTK's `wn.synsets(word, pos=wn.NOUN)` is the parameter `nounSynsets`.
- `gen_OPT`'s output is the sequence of written pairs. The `'%d %d\n'` formatting and the file are left out.
- The filters' results are given as the map of entries of a fresh `DictWords`, not as the logger output.
- DSim.Weeds.IdentifyRelations: requires every word id to have a context list in `dic2List()`. The source raises KeyError otherwise, and the model does not cover that error path.
- DSim.ClarkDE.IdentifyRelations: the same KeyError precondition.
- OntoPT.GenOPT: requires every id to be stored in both tables. The source raises KeyError otherwise.
- WordNet.AllRelations: requires `Loaded` (see above) rather than modelling the KeyError.
- Dictionaries.DictWords.SetFreq: frequencies are `int` only. The docstring allows a float `newf`, such as an entropy value, and the model cannot store one.
- Dictionaries.DictWords.SetId: ids are `int` only. The docstring allows a string `newid`, and the model cannot store one.
- OntoPT.FilterDictionary: with `transpose`, for an id shared by several kept words, it does not state the summed tf that pair insertion stores. It states only that the id holds one of those words (see `OntoPT.KeepById`).
- OntoPT.KeepById: for an id shared by several kept words, it does not state the summed tf. It states only that the id holds one of those words, and the words' own tf when the id is not shared.
- Storage.PlainText.Save: requires only that every listed key is stored, which is all `save` needs. Enumerating each key exactly once is needed only for the round trips.

## Findings

| source | as written | input that shows it | evidently intended | confidence | as-written member | corrected member |
|---|---|---|---|---|---|---|
| hrex/structure/dictionaries.py:313-318 | `getfreq(id, transposed=True)` reads `dict_t[key]`, an undefined global | `{'w1': (1, 3)}`, `getfreq(1, transposed=True)` raises NameError | `self.dict_t[key]`, giving 3 | not executed | Dictionaries.DictWords.GetFreqTransposedAsWritten | Dictionaries.DictWords.GetFreqTransposed |
| hrex/methods/inriasac.py:103-113 | the comparison follows the inner loop, so each `w1` is compared with the last key only | keys a, b, c with dfs 3, 2, 1 sharing one context: `(a, b)` is never found | compare inside the inner loop | not executed | Inriasac.LastKeyOnlyExample | Inriasac.CandidateMembers |
| hrex/resources/ontopt.py:118-126 | word mode takes `idw1 = self.dcpt[v1]`, the `(id, tf)` pair, as a key of `dHs` | `dcpt = {'cao': (1, 5), 'animal': (2, 3)}`, `is_hypernym('cao', 'animal', 'word')` raises KeyError | unpack the id as `set_of_hypernyms` does | not executed | OntoPT.WordModeExample | OntoPT.IsHypernymModes |
| hrex/resources/wordnet.py:96-100 | each round rebinds `lemmas` to one synset's names, so only the last synset survives | 'bank' with synsets {bank, depository}, {bank, riverside}: 'depository' is lost | the union over all noun synsets | not executed | WordNet.AllLemmasExample | WordNet.AllLemmasUnion |

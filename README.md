# strct in Dafny

A verified model of the data-structure helpers of the Python package `strct`:

- **section lists**: sorted boundary lists read as consecutive sections, with point and range lookup;
- **the stable hash**: a cross-kernel hash of nested built-in structures;
- **the legacy hashes**: `hash_dict` and `hash_list`, built on Python's own `hash`;
- **nested dicts**: path get and put, deep merge, and the key-path generator;
- **the in-place dict mutators**: increment, and add to a set- or list-valued entry;
- **dict union, reversal, summation and flattening**;
- **order-preserving list shifts**;
- **priority lookup in a set**.

Python values are one datatype, `PyValue.Value`. It has `None`, `bool`, `int`, `float` (an exact real), `complex`, `str`, `list`, `tuple` and `dict` (a finite map).

Python's runtime primitives the source calls as black boxes are fields of `PyValue.Builtins`, passed as a parameter. They are SHA-256, the built-in `hash`, and `hash` of a frozenset.

The model follows the code in three ways:

- **Python's dict iteration order.** A map has no order. Every loop over a dict visits keys in an arbitrary order (`Iteration.Pick`), so each contract is proved for every order.
- **Dicts the source mutates in place.** `put_nested_val` and the `increment_*`/`add_*` mutators change a `DictMutators.PyDict` object, whose `entries` map their methods reassign.
- **Loops.** Functions that loop over a local dict are methods with loop invariants.
  - `sum_num_dicts`, `sum_dicts`, `reverse_dict`, `hash_dict` and the dict branch of `_recursive_stable_hash` are proved equal to a specification function.
  - `reverse_dict_partial`, `reverse_list_valued_dict` and `flatten_dict` keep, for a shared key, the value of whichever item the iteration visits last. Their contracts are relational: they say which candidates the result may hold, and that it is exact when no key is shared.

The rest, which is expressions and recursion in the source, is functions and lemmas.

The source's documentation and code disagree in one place, and the model follows the code: `flatten_dict` always flattens lists and tuples by position; its `flatten_lists` argument is never read.

`put_nested_val` can leave the dict partly changed when it fails midway: the `{}` levels it created stay. Its documentation says nothing about failure; the model states this behaviour in `NestedDicts.PartialChangeOnError`.

## Model

| member | source | states |
|---|---|---|
| SortedList.BisectLeft | strct/sortedlists/sortedlist.py:188 | `bisect_left`: every point before the result is `< x`, every point from it on is `>= x` |
| SortedList.BisectRight | strct/sortedlists/sortedlist.py:188 | `bisect_right`: every point before the result is `<= x`, every point from it on is `> x` |
| SortedList.Index | strct/sortedlists/sortedlist.py:106-107 | `list.index`: the result holds `x` and every earlier position holds a smaller value |
| SortedList.FindPointInSectionList | strct/sortedlists/sortedlist.py:40-53 | `None` exactly when the point is below the first or above the last boundary; otherwise the start of a section that contains the point |
| SortedList.FindPointLastBoundary | strct/sortedlists/sortedlist.py:43-44 | the last boundary maps to the second-to-last one (the last section is closed) |
| SortedList.FindPointOnBoundary | strct/sortedlists/sortedlist.py:45-48 | a boundary other than the last maps to itself, the first one included |
| SortedList.FindPointBetween | strct/sortedlists/sortedlist.py:49-51 | a point strictly between boundaries maps to the greatest boundary below it |
| SortedList.SectionUnique | strct/sortedlists/sortedlist.py:7-12 | with strictly ascending boundaries a point lies in at most one section |
| SortedList.FindPointIsItsSection | strct/sortedlists/sortedlist.py:40-51 | every point of section `i` maps to the boundary `s[i]` |
| SortedList.SectionIndexOfPoint | strct/sortedlists/sortedlist.py:40-51 | a point within the boundaries finds a section start, and `index` of that start is a section containing the point |
| SortedList.IndexOfBoundary | strct/sortedlists/sortedlist.py:106-107 | `index` of the boundary `s[i]` is `i` |
| SortedList.FindRangeIxInSectionList | strct/sortedlists/sortedlist.py:96-107 | `[0, 0]` for a range wholly outside; otherwise `lo <= len-2` and `1 <= hi <= len-1`; `lo` is 0 when the range starts below the first boundary |
| SortedList.RangeIxNonEmpty | strct/sortedlists/sortedlist.py:96-107 | a range `start <= end` that meets the boundaries gives `lo < hi` |
| SortedList.RangeIxClampsEnd | strct/sortedlists/sortedlist.py:102-103 | an end above the last boundary clamps `hi` to `len-1` |
| SortedList.RangeIxEnds | strct/sortedlists/sortedlist.py:96-107 | for a range meeting the boundaries: `lo` is 0 for a start below the first boundary, else the start's section; `hi` is `len-1` for an end above the last boundary, else one past the end's section |
| SortedList.RangeIxIsOverlappingSections | strct/sortedlists/sortedlist.py:96-107 | section `i` is in `[lo, hi)` exactly when it overlaps `[start, end]` |
| SortedList.FindRangeInSectionList | strct/sortedlists/sortedlist.py:150-151 | the slice `s[lo:hi]` of the index range above, and empty when `lo > hi` |
| SortedList.RangeIsOverlappingStarts | strct/sortedlists/sortedlist.py:150-151 | a section start is in the result exactly when its section overlaps the range |
| SortedList.FindRangeIxInPointList | strct/sortedlists/sortedlist.py:188 | `lo` is the bisect-left position of `start` and `hi` the bisect-right position of `end`: the points before `lo` are `< start`, those from it on `>= start`, the points before `hi` are `<= end`, those from it on `> end`; so a point's index is in `[lo, hi)` exactly when the point is in `[start, end]` |
| SortedList.DocumentedPointExamples | strct/sortedlists/sortedlist.py:29-38 | the documented point lookups on `[5, 8, 30, 31]`: 4, 5, 27 and 31 |
| SortedList.DocumentedRangeExamples | strct/sortedlists/sortedlist.py:81-94 | the documented range lookups on `[5, 8, 30, 31]`, `(7, 321)` included, as indices and as slices |
| SortedList.DocumentedRangeExample | strct/sortedlists/sortedlist.py:85-90 | on `[5, 8, 30, 31]`, a start in section `i` and an end in section `j` give `[i, j+1]` |
| SortedList.DocumentedRangeClamped | strct/sortedlists/sortedlist.py:91-94 | `(4, 321)` and `(7, 321)` on `[5, 8, 30, 31]` clamp to `[0, 3]` |
| SortedList.CrossedRangeIsEmpty | strct/sortedlists/sortedlist.py:96-107 | a start above the end, `(30.5, 6)` on `[5, 8, 30, 31]`, gives the crossed indices `[2, 1]` and the empty slice |
| SortedList.DocumentedSlices | strct/sortedlists/sortedlist.py:137-144 | `(7, 30)` gives the section starts `[5, 8, 30]`, `(3, 4)` gives `[]` |
| SortedList.DocumentedPointListExamples | strct/sortedlists/sortedlist.py:173-186 | all six documented point-list ranges on `[5, 8, 15]` |
| SortedList.DocumentedPointListExample | strct/sortedlists/sortedlist.py:173-186 | on `[5, 8, 15]`, a start with `i` points below it and an end with `j` points at or below it give `(i, j)` |
| PyValue.Trunc | strct/hash/_hash.py:15 | `int()` of a float truncates toward zero: the result is within one of the input, on the zero side |
| StableHash.Utf8Encode | strct/hash/_hash.py:10 | UTF-8 takes one to four bytes per character |
| StableHash.StrDigest | strct/hash/_hash.py:9-12 | a 32-byte digest read as a little-endian unsigned integer lies in `[0, 256^32)` |
| StableHash.StableHashPrimitive | strct/hash/_hash.py:7-22 | succeeds exactly on `str`, `bool`, `int`, `float` and `complex`; otherwise TypeError "Object ... of unhashable type" |
| StableHash.StableHash | strct/hash/_hash.py:19-43 | a failure is the dict message for a dict and the object message, naming the object, for anything else |
| StableHash.RecursiveStableHash | strct/hash/_hash.py:24-43 | a dict goes to the mapping branch, a list or tuple to the iterable branch, anything else to the primitive hash; the result is `StableHash` |
| StableHash.HashMapping | strct/hash/_hash.py:25-32 | the loop over dict items, hashing each as a pair, gives `StableHash` whatever the item order; an item that fails raises "dict includes unhashable values." |
| StableHash.HashIterable | strct/hash/_hash.py:36-40 | hashing a list's or tuple's elements one by one gives `StableHash` of the container |
| StableHash.StableHashOkIffSupported | strct/hash/_hash.py:46-83 | `stable_hash` succeeds exactly when every leaf, key and value is of a supported type |
| StableHash.FailureMessage | strct/hash/_hash.py:19-32 | a failing dict raises "dict includes unhashable values."; any other failure is "Object ... of unhashable type" |
| StableHash.PrimitiveRules | strct/hash/_hash.py:13-18 | `2.2 -> 2`, `-2.7 -> -2`, `complex(4, 5) -> 4`, `True -> 1`, an int to itself, `None` fails |
| StableHash.StrHashRange | strct/hash/_hash.py:8-12 | a string's hash is a non-negative integer below `256^32` |
| StableHash.IterableHashDependsOnElementSet | strct/hash/_hash.py:38 | two lists or tuples with the same elements succeed together and hash alike |
| StableHash.ListHashIgnoresOrder | strct/hash/_hash.py:38 | permuting a list does not change its hash |
| StableHash.ListHashIgnoresDuplicates | strct/hash/_hash.py:38 | repeating an element does not change a list's hash |
| StableHash.ListAndTupleHashAlike | strct/hash/_hash.py:36-38 | a list and a tuple of the same elements hash alike |
| StableHash.DictItemsHashAsPairs | strct/hash/_hash.py:26-33 | a dict hashes to the frozenset hash of its items, each hashed as the 2-tuple `(key, value)` |
| LegacyHash.ItemHash | strct/dict/_dict.py:27-34 | hashing one item raises nothing but ValueError, even through nested dicts |
| LegacyHash.DictHash | strct/dict/_dict.py:25-35 | `hash_dict` raises nothing but ValueError |
| LegacyHash.HashDict | strct/dict/_dict.py:25-35 | the loop over items computes `DictHash`, whatever the item order |
| LegacyHash.DictHashOkIff | strct/dict/_dict.py:25-35 | `hash_dict` succeeds exactly when every value is hashable or a dict that succeeds; it fails only with ValueError |
| LegacyHash.ListValueRaises | strct/dict/_dict.py:33-34 | a list value raises ValueError |
| LegacyHash.NestedDictHashedAsPair | strct/dict/_dict.py:29-32 | a dict value contributes the hash of `(key, hash_dict(value))` |
| LegacyHash.HashList | strct/list/_list.py:19 | `hash(frozenset(xs))` succeeds exactly when every element is hashable; otherwise TypeError |
| LegacyHash.HashListDependsOnElementSet | strct/list/_list.py:19 | lists with the same elements hash alike |
| LegacyHash.HashListIgnoresOrderAndDuplicates | strct/list/_list.py:19 | permuting or duplicating elements does not change the hash |
| DictBasics.GetFirstVal | strct/dicts/_dict.py:34-39 | KeyError exactly when no key is present; otherwise the value of the first present key |
| DictBasics.FirstValIsFirstPresent | strct/dicts/_dict.py:34-39 | when `keys[i]` is the first present key, the result is its value |
| DictBasics.AnyInDict | strct/dicts/_dict.py:65 | true exactly when some position of the key tuple holds a key of the dict |
| DictBasics.AnyInDictIff | strct/dicts/_dict.py:65 | true exactly when some key is present |
| DictBasics.AnyInDictIffFirstValFound | strct/dicts/_dict.py:65 | `any_in_dict` holds exactly when `get_first_val` succeeds |
| DictBasics.DocumentedExamples | strct/dicts/_dict.py:24-32 | the documented `get_first_val` and `any_in_dict` results |
| DictBasics.UniteDicts | strct/dicts/_dict.py:430 | every dict's keys are keys of the union, and the last dict's entries appear unchanged |
| DictBasics.UniteDictsKeys | strct/dicts/_dict.py:430 | the union's keys are exactly the keys of some dict |
| DictBasics.UniteDictsLastWins | strct/dicts/_dict.py:430 | each key maps to its value in the last dict that has it |
| DictBasics.UniteDocumentedExample | strct/dicts/_dict.py:424-428 | `{'a': 2, 'b': 1}` united with `{'a': 8, 'c': 5}` |
| DictMutators.Incremented | strct/dicts/_dict.py:301 | the key now holds old value plus `val`, or `val` when absent; nothing else changes |
| DictMutators.IncrementDictVal | strct/dicts/_dict.py:301 | the dict's new entries are `Incremented` of the old ones |
| DictMutators.IncrementsAddUp | strct/dicts/_dict.py:301 | incrementing by `a` then `b` is incrementing by `a + b` |
| DictMutators.CountAllIsMultiplicity | strct/dicts/_dict.py:301 | incrementing by 1 once per element counts each key's occurrences on top of its old value |
| DictMutators.AddedToSet | strct/dicts/_dict.py:318-321 | the key's set gains `val`, or becomes `{val}` when absent; nothing else changes |
| DictMutators.AddToDictValSet | strct/dicts/_dict.py:318-321 | the dict's new entries are `AddedToSet` of the old ones |
| DictMutators.AddedManyToSet | strct/dicts/_dict.py:338-341 | the key's set becomes the old set (or empty) united with the values; nothing else changes |
| DictMutators.AddManyToDictValSet | strct/dicts/_dict.py:338-341 | the dict's new entries are `AddedManyToSet` of the old ones |
| DictMutators.AddManyIsRepeatedAdd | strct/dicts/_dict.py:338-341 | adding many values is adding the first, then the rest |
| DictMutators.ExtendedList | strct/dicts/_dict.py:358-361 | the key's list becomes the old list (or empty) followed by the values in order; nothing else changes |
| DictMutators.AddManyToDictValList | strct/dicts/_dict.py:358-361 | the dict's new entries are `ExtendedList` of the old ones |
| DictMutators.ExtendsCompose | strct/dicts/_dict.py:358-361 | extending by `xs` then `ys` is extending by `xs + ys` |
| PySeq.SliceBound | strct/lists/_list.py:29 | a slice bound is normalised into `[0, len]`: a negative one counts from the end, one past either end is clamped |
| PySeq.Slice | strct/lists/_list.py:29 | Python slicing: the elements from the normalised start up to the normalised end, empty when they cross; a within-bounds slice is the subsequence |
| PySeq.SliceSplit | strct/lists/_list.py:29 | `s[:i] + s[i:]` is `s` for every `i`, negative or out of range |
| PySeq.At | strct/lists/_list.py:58 | Python indexing with negative indices from the end; IndexError out of range |
| PySeq.IndexOf | strct/lists/_list.py:92-93 | `list.index`: the first position holding `x`; ValueError when absent |
| Lists.AllBut | strct/lists/_list.py:29 | for an index in range, the list without that position, one shorter |
| Lists.AllButPositions | strct/lists/_list.py:29 | positions before the index are kept, later ones move down by one |
| Lists.AllButMultiset | strct/lists/_list.py:29 | the removed element and the rest make up the list |
| Lists.NegativeIndexRepeats | strct/lists/_list.py:29 | `all_but(arr, -1)` is `arr[:-1] + arr`: Python does not rebase `idx+1` |
| Lists.IndexShift | strct/lists/_list.py:57-66 | succeeds exactly when `arr[index]` does; otherwise IndexError |
| Lists.MoveLater | strct/lists/_list.py:61-63 | the later-move branch puts `arr[index]` at `new_index` and keeps the other elements in order |
| Lists.MoveEarlier | strct/lists/_list.py:64-66 | the earlier-move branch puts `arr[index]` at `new_index` and keeps the other elements in order |
| Lists.MoveToFront | strct/lists/_list.py:57-58 | the first branch puts `arr[index]` at position 0 and keeps the other elements in order |
| Lists.MoveToBack | strct/lists/_list.py:59-60 | the second branch puts `arr[index]` last and keeps the other elements in order |
| Lists.IndexShiftInRange | strct/lists/_list.py:57-66 | with both indices in range, the shift is the four branches on plain slices |
| Lists.MovedInPlace | strct/lists/_list.py:57-66 | a move from a position to itself leaves the list unchanged |
| Lists.IndexShiftMoves | strct/lists/_list.py:57-66 | same length; `arr[index]` lands at `new_index`; deleting it gives `all_but(arr, index)` |
| Lists.IndexShiftPermutes | strct/lists/_list.py:57-66 | the result is a permutation of `arr` |
| Lists.IndexShiftToSameIndex | strct/lists/_list.py:57-66 | shifting to the same index returns `arr` unchanged |
| Lists.ElementShift | strct/lists/_list.py:92-93 | succeeds exactly when the value is in the list; otherwise ValueError |
| Lists.ElementShiftMovesFirstOccurrence | strct/lists/_list.py:92-93 | the first occurrence of the value is moved to `new_index`; the result is a permutation |
| Lists.DocumentedExamples | strct/lists/_list.py:49-55 | the documented `all_but` and shift results |
| PrioritySet.GetPriorityElemInSet | strct/set.py:30-33 | `None` exactly when no listed element is in the set; otherwise the first listed element in the set |
| PrioritySet.FoundIsFirstMatch | strct/set.py:30-32 | when `priority[i]` is the first match, it is the result, and it is in both the set and the list |
| PrioritySet.DocumentedExample | strct/set.py:25-28 | `[4, 8, 1, 3]` against `{2, 3, 7, 8}` gives 8 |
| NestedDicts.Subscript | strct/dicts/_dict.py:90 | `obj[key]`: a dict lookup (KeyError when missing, TypeError for an unhashable key); positional on lists, tuples and strings; TypeError otherwise |
| NestedDicts.Assign | strct/dicts/_dict.py:166 | `obj[key] = value` succeeds on a dict with a hashable key or a list with a valid position; reading the key back then gives `value`; a dict changes only at `key` |
| NestedDicts.GetNestedVal | strct/dicts/_dict.py:89-91 | one key: a subscript; no keys: IndexError; never ValueError |
| NestedDicts.GetNestedValOneLevelPerKey | strct/dicts/_dict.py:89-91 | one more key subscripts the value the shorter path reaches |
| NestedDicts.SafeNestedVal | strct/dicts/_dict.py:123-126 | the nested value when the lookup succeeds, `default_value` on any error |
| NestedDicts.PutIn | strct/dicts/_dict.py:159-166 | errors are TypeError or IndexError; a dict changes only at the path's first key; a non-container is left alone with an error |
| NestedDicts.PutNested | strct/dicts/_dict.py:159-166 | an empty path raises IndexError and changes nothing; a dict changes only at the path's first key |
| NestedDicts.GetAfterPutIn | strct/dicts/_dict.py:159-166 | after a successful put, getting along the same path gives the value |
| NestedDicts.GetAfterPut | strct/dicts/_dict.py:159-166 | `get_nested_val(path, d) == value` after a successful `put_nested_val(d, path, value)` |
| NestedDicts.PutInKeepsOffPath | strct/dicts/_dict.py:159-166 | a key path that leaves the put's path at an existing dict level reads the same after the put as before: the other keys of every nested dict along the path keep their values |
| NestedDicts.PutKeepsOffPath | strct/dicts/_dict.py:159-166 | `put_nested_val` leaves every entry off its path unchanged, at every level of the dict |
| NestedDicts.WalkableSucceeds | strct/dicts/_dict.py:159-165 | a put through existing or missing dict keys succeeds (missing levels become `{}`) |
| NestedDicts.SetChild | strct/dicts/_dict.py:164-166 | storing a child at a key that exists or is missing makes reading it back give the child; a dict changes only at that key |
| NestedDicts.DescendStep | strct/dicts/_dict.py:161-165 | following an existing child, or a newly created `{}` after KeyError, keeps the walk in step with `PutIn` |
| NestedDicts.StopStep | strct/dicts/_dict.py:161-163 | a subscript error other than KeyError ends the put with that error, nothing below the current level changed |
| NestedDicts.AssignStep | strct/dicts/_dict.py:166 | at the last key the put is the assignment into the current level, or its error |
| NestedDicts.Descend | strct/dicts/_dict.py:159-166 | the walk down all keys but the last, then the assignment; putting the changed level back into the containers passed gives `PutIn`, error included |
| NestedDicts.StoreBack | strct/dicts/_dict.py:159-166 | putting each changed level back into its container, innermost first, gives the dict `Rebuild` describes: the in-place effect on the root of changing a nested dict |
| NestedDicts.PutNestedVal | strct/dicts/_dict.py:159-166 | the in-place walk and insert leave the dict as `PutNested` says and report its error |
| NestedDicts.GetDocumentedExamples | strct/dicts/_dict.py:113-121 | the documented `get_nested_val` and `safe_nested_val` results; the path `('d')` is the string `'d'`, a one-key path |
| NestedDicts.PutDocumentedExample1 | strct/dicts/_dict.py:145-148 | putting `('a', 'b')` into `{'a': {'h': 3}}` |
| NestedDicts.PutDocumentedExample2 | strct/dicts/_dict.py:149-151 | overwriting `('a', 'b')` |
| NestedDicts.PutDocumentedExample3 | strct/dicts/_dict.py:152-154 | `('a', 'g', 'z')` creates the missing `g` level |
| NestedDicts.PutDocumentedExample4 | strct/dicts/_dict.py:155-157 | a one-key list path `['base']` sets that key of the dict itself |
| NestedDicts.PartialChangeOnError | strct/dicts/_dict.py:163-166 | a failing put keeps the intermediate `{}` it created |
| DictTrees.DictPathIsNestedVal | strct/dicts/_dict.py:89-91 | a key path through nested dicts to a leaf is followed by `get_nested_val` |
| DictTrees.KeyTupleValues | strct/dicts/_dict.py:764-769 | every yielded key tuple is non-empty, starts with a key of the dict and ends at a non-dict value |
| DictTrees.YieldedFor | strct/dicts/_dict.py:765-769 | what one key yields: key tuples that start with that key and end at a non-dict value |
| DictTrees.KeyTupleValuesArePaths | strct/dicts/_dict.py:764-769 | the generator yields a pair exactly when its key tuple leads through nested dicts to that non-dict value |
| DictTrees.KeyTupleValuesAreNestedVals | strct/dicts/_dict.py:764-769 | every yielded pair has a non-empty key tuple, a non-dict value, and `get_nested_val` gives that value |
| DictTrees.LeafIsNotDict | strct/dicts/_dict.py:765-769 | the end of such a path is never a dict |
| DictTrees.KeyTupleValuesExample | strct/dicts/_dict.py:760-762 | the documented generator output |
| DictTrees.DeepMerge | strct/dicts/_dict.py:456-464 | `priority` when either side is not a dict; otherwise the keys are the union, keys only in `base` are kept, keys only in `priority` are copied, and a shared key holds the deep merge of its two values |
| DictTrees.DeepMergeLeafOrigin | strct/dicts/_dict.py:456-464 | every leaf of the merge is a leaf of `priority`, or a leaf of `base` that `priority` does not shadow |
| DictTrees.DeepMergeKeepsPriorityLeaves | strct/dicts/_dict.py:438-441 | every leaf of `priority` is a leaf of the merge, at the same path |
| DictTrees.DeepMergeKeepsUnshadowedBaseLeaves | strct/dicts/_dict.py:439-440 | a leaf of `base` survives unless `priority` has a leaf on its path |
| DictTrees.DeepMergeSelf | strct/dicts/_dict.py:456-464 | merging a value with itself gives it back |
| DictReverse.SortedSet | strct/dicts/_dict.py:569 | `sorted` of a set: strictly ascending, the same elements, the same count |
| DictReverse.SortedSetIsUnique | strct/dicts/_dict.py:569 | any strictly ascending list of the set's elements is `sorted`'s result |
| DictReverse.Reversed | strct/dicts/_dict.py:565-570 | the keys are the original values, and each list is as long as the set of keys that map to its value |
| DictReverse.ReversedIsInverse | strct/dicts/_dict.py:565-570 | the keys are the original values; each maps to the ascending list of exactly the keys that mapped to it |
| DictReverse.GroupedStep | strct/dicts/_dict.py:566-567 | one `add_to_dict_val_set` step adds the key to its value's group |
| DictReverse.GroupedAll | strct/dicts/_dict.py:566-567 | after the first loop each value maps to the set of its keys |
| DictReverse.SortedGroupsAreReversed | strct/dicts/_dict.py:568-570 | sorting every group of the first loop gives `Reversed` |
| DictReverse.ReverseDict | strct/dicts/_dict.py:565-570 | the two loops compute `Reversed` |
| DictReverse.ReverseDictExample | strct/dicts/_dict.py:561-563 | the documented reversal, with integer keys |
| DictReverse.ExampleGroups | strct/dicts/_dict.py:561-567 | in the documented example `x` is held by keys 1 and 3, `z` by key 2 |
| DictReverse.ReverseDictPartial | strct/dicts/_dict.py:592-595 | keys are the original values, each mapped to some key that held it; the exact inverse when the dict is injective |
| DictReverse.ReverseListValuedDict | strct/dicts/_dict.py:619-623 | keys are the list elements, each mapped to a key whose list holds it; exact when no element is in two lists |
| DictSums.SumMapsIsSumPerKey | strct/dicts/_dict.py:505-508 | the keys are those of some dict; each maps to the sum of its values across the dicts |
| DictSums.SumOfAbsent | strct/dicts/_dict.py:505-508 | a key in no dict sums to 0 |
| DictSums.AddDictInto | strct/dicts/_dict.py:507-508 | the inner loop over one dict's keys, in any order, adds each value to the key's running sum (0 when new) |
| DictSums.SumNumDicts | strct/dicts/_dict.py:505-511 | the loops compute `SumMaps`, whatever the key order |
| DictSums.SumDicts | strct/dict/_dict.py:485-495 | the legacy loops compute `SumDictsSpec`, whatever the key order; its per-key meaning is stated by the lemmas below |
| DictSums.CombineDictInto | strct/dict/_dict.py:487-492 | the inner loop over one dict's keys, in any order, gives `StepDict`: TypeError when a number meets a non-number, else numbers add and other values overwrite |
| DictSums.SumDictsErrPersists | strct/dict/_dict.py:485-495 | once a prefix raises, the whole sum raises TypeError |
| DictSums.SumDictsErrIsTypeError | strct/dict/_dict.py:490 | the only error is TypeError |
| DictSums.SumDictsOnNumbers | strct/dict/_dict.py:485-490 | on numbers alone the legacy sum succeeds and equals `sum_num_dicts` |
| DictSums.SumDictsInit | strct/dict/_dict.py:485-495 | when the whole sum succeeds, so does the sum of all but the last dict, and combining the last dict into it (with no TypeError) gives the result |
| DictSums.SumDictsNumKey | strct/dict/_dict.py:489-490 | for a key held only by numbers: in the result exactly when some dict holds it, with the sum of its values |
| DictSums.OtherStays | strct/dict/_dict.py:491-492 | once a dict holds a non-number at a key, a successful sum keeps a non-number there |
| DictSums.OtherThenNumRaises | strct/dict/_dict.py:489-490 | a number in a later dict, at a key where an earlier dict holds a non-number, raises TypeError |
| DictSums.SumDictsLastOtherKept | strct/dict/_dict.py:491-492 | when the last dict to hold a key holds a non-number, a successful sum keeps that value as is |
| DictSums.SumDictsLastNumIsSum | strct/dict/_dict.py:489-490 | when the last dict to hold a key holds a number, a successful sum holds the sum of that key's numbers |
| DictSums.NumberAfterOtherRaises | strct/dict/_dict.py:490 | on two dicts, a number after a non-number for the same key raises TypeError |
| DictSums.MixedExample | strct/dict/_dict.py:485-495 | `[{a: 'x', b: 1}, {b: 2}]` sums to `{a: 'x', b: 3}` |
| Flatten.NatToStr | strct/dicts/_dict.py:678 | `str(i)`: a non-empty string of decimal digits |
| Flatten.NatToStrSpellsN | strct/dicts/_dict.py:678 | `str(i)` reads back as `i` in decimal, with no leading zero except for `0` itself |
| Flatten.NatToStrInjective | strct/dicts/_dict.py:678 | distinct positions get distinct names |
| Flatten.FlatKey | strct/dicts/_dict.py:627-630 | the key alone at the top level, else parent, separator and key concatenated |
| Flatten.ChildEntries | strct/dicts/_dict.py:649-651 | no flattened entry has a container value |
| Flatten.FlattenKeyVal | strct/dicts/_dict.py:663-668 | writes the entries of `val` under its joined key into `flat` |
| Flatten.FlattenItems | strct/dicts/_dict.py:670-678 | a dict is flattened key by key, a list or tuple position by position; the entries of every item are written into `flat` |
| Flatten.FlattenDictItems | strct/dicts/_dict.py:671-673 | every key of a dict, in any order, has its entries written under its joined key |
| Flatten.FlattenListItems | strct/dicts/_dict.py:677-678 | every position `i` of a list or tuple has its entries written under the joined key of `str(i)` |
| Flatten.FlattenDict | strct/dicts/_dict.py:660-680 | on a container: the result holds the joined-key entries of all leaves, none of them a container; otherwise TypeError |
| Flatten.DistinctNamesWrittenExactly | strct/dicts/_dict.py:661-668 | when the joined keys are distinct, the flat dict holds exactly the entries |
| Flatten.DocumentedExample | strct/dicts/_dict.py:655-658 | the documented example flattens to `a`, `b.g`, `b.o`, `x.0`, `x.1` |
| Flatten.DocumentedExampleListNames | strct/dicts/_dict.py:655-658 | positions 0 and 1 under `x` join to `x.0` and `x.1` |
| Flatten.DocumentedExampleListItems | strct/dicts/_dict.py:655-658 | `[4, 'd']` under `x` gives the entries `(x.0, 4)` and `(x.1, 'd')` |
| Flatten.DocumentedExampleWritten | strct/dicts/_dict.py:657-658 | the documented flat dict is the only one those entries can produce |

## Left out

- Python's dict iteration order: maps have no order, so every loop over a dict is proved for all orders. This covers `key_tuple_value_nested_generator`, whose output is modelled as a set.
- Aliasing and object identity: a nested dict is a value, so `put_nested_val` is a walk that rebuilds the changed levels. The model does not capture a nested dict shared by two parents.
- Aliasing in the `add_*` mutators: `add_to_dict_val_set`, `add_many_to_dict_val_set` and `add_many_to_dict_val_list` change the set or list object already stored at the key (`.add`, `.update`, `.extend`). The model's entry is a value that the method replaces, so another reference to the same set or list is not seen to change.
- The concrete SHA-256, the built-in `hash` and the frozenset `hash`: they are parameters. The numeric doctest constants of `stable_hash` depend on the Python version.
- IEEE floats (NaN, infinities, rounding): a float is an exact real, and `int()` of it truncates toward zero.
- `bytes`: no byte-string value; `str` covers the string branch.
- Python's equal hashing of `1`, `True` and `1.0` as dict keys: the model's keys are distinct values.
- `json_based_stable_hash` and `stable_hash_builtins_strct`: JSON serialisation plus SHA-256, nothing to verify beyond the library calls.
- `norm_int_dict` and the `normalize=True` paths: float division.
- `pprint_int_dict` and `pprint_dist_dict`: output only. So is the `print(key)` in the legacy `add_many_to_dict_val_set`.
- `get_key_of_max`, `get_key_of_min` and `get_keys_of_max_n`: ties are broken by iteration order, and these are not among the modelled helpers.
- `in_nested_dicts`, `get_alternative_nested_val`, `safe_alternative_nested_val`, `any_path_in_dict`, `key_value_nested_generator`: not among the modelled helpers.
- Legacy twins with identical bodies are modelled once:
  - `get_first_val`, `any_in_dict`, `get_nested_val`, `safe_nested_val`, `increment_dict_val`, `add_to_dict_val_set`, `add_many_to_dict_val_list`, `deep_merge_dict`, `sum_num_dicts`, `reverse_dict`, `reverse_dict_partial` and `reverse_list_valued_dict` in strct/dict/_dict.py;
  - the legacy `add_many_to_dict_val_set`, whose body differs only by a `print(key)`;
  - both shifts in strct/list/_list.py;
  - the list-taking legacy `unite_dicts` (strct/dict/_dict.py:384) is `DictBasics.UniteDicts`;
  - `sum_dicts` of strct/dicts/_dict.py (lines 514-543) has the legacy body and is `DictSums.SumDicts`.
- Values supporting `+` other than ints: the dict mutators and `sum_num_dicts` add `int`s.
- DictSums.SumDicts: the numbers it adds (`isinstance(val, numbers.Number)`) are only `int`s (`Entry.Num`); floats, complex numbers, bools, `Decimal` and `Fraction` have no `Entry`. A non-number followed by a number for the same key always raises TypeError in the model; in the source that depends on the non-number's `+`, which raises for the built-in types (`str`, `list`, `None`, …) but not for every user-defined class.
- Non-set or non-list values: `add_to_dict_val_set` and `add_many_*` on an entry that is not a set or list raise AttributeError in the source; the model's `PyDict` holds only sets or only lists.
- DictReverse.ReverseDict: keys are `int`s, so that `sorted` is the ascending order of integers. The source sorts any comparable keys.
- Flatten.FlattenDict: requires string keys at every level, the top level included (`StrKeys`). In the source, a nested non-string key makes `parent + separator + key` raise TypeError; the enclosing `_flatten_key_val` catches it and stores the whole sub-dict as one value, after an order-dependent part of its entries was already written. A top-level key is used as is, whatever its type. `flatten_dict` raises in neither case; the model covers neither input.
- Flatten.FlattenDict: a joined key that two paths share holds one of their values; which one depends on the iteration order, so the contract names the candidates rather than the winner.
- Flatten.FlattenDict: the `flatten_lists` argument is not modelled, because the source never reads it. Lists and tuples are always flattened by position.
- StableHash.ListHashIgnoresOrder: states equal success and equal hashes. The error value on failure names the container, so two failing lists may report different objects.
- Duck typing through caught AttributeError or TypeError is replaced by explicit dispatch on the `Value` constructors. So `stable_hash` of a user-defined mapping or iterable is not modelled.
- Sequences other than `str`, `list` and `tuple` (sets, generators, `SortedList` objects): a section list is a sorted sequence of reals.
- DictTrees.KeyTupleValues: on a value that is not a dict it yields nothing. The source's `dict_obj.items()` raises AttributeError there at the first step of the generator.
- StableHash.StableHashPrimitive: a string is a sequence of Unicode scalar values, so a lone surrogate cannot occur, and the UnicodeEncodeError that `str.encode('utf-8')` raises on one is not modelled.

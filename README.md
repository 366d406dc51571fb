# Intent dataset, modelled in Dafny

This project models the construction of DeepPavlov's `IntentDataset`
(`deeppavlov/datasets/intent_dataset.py`). An intent dataset is a dictionary
from split names ("train", "valid", "test", ...) to lists of labelled samples
`(text, labels)`. Constructing one does the following, in this order:

1. Hand the data to the base dataset.
2. When `extract_classes` is set:
   - extract the class vocabulary: the labels of "train" and, when present,
     "valid", de-duplicated and sorted;
   - write the vocabulary one class per line to `classes_file`, or to the
     default location `<dataset_path or user dir>/<dataset_dir>/<dataset_file>`.
3. When `fields_to_merge` is given, concatenate those splits into
   `merged_field`. Without a merged field this raises `IOError`.
4. When `field_to_split` is given, carve that split into `split_fields` by
   `split_proportions`. Each call of `train_test_split` takes `int(N * p)`
   samples of the original length `N`, and the last field keeps the rest.
   Without split fields this raises `IOError`.
5. Record `prep_method_name`. When it names a preprocessor, replace the data
   by `preprocess(PREPROCESSORS[prep_method_name])`.

The model has one module per concern:

- `DataDict` (`data_dict.dfy`): the dictionary. Keys keep Python's
  insertion order.
- `Strings` (`strings.dfy`): string order, `sorted(np.unique(..))` and
  `str.split(' ')`.
- `Classes` (`classes.dfy`): class extraction, the classes-file text and its
  path.
- `Merging` (`merging.dfy`): `_merge_data`.
- `Splitting` (`splitting.dfy`): `_split_data` and `train_test_split`.
- `Preprocessing` (`preprocessing.dfy`): `preprocess`.
- `IntentDatasets` (`intent_dataset.dfy`): the class `IntentDataset`. Its
  field `data` is updated in place by methods with loops. Each method is
  proved against the functions of the modules above.

The constructor is split in two:

- The Dafny `constructor` stands for the base dataset's construction.
- `Setup` runs the rest of `__init__`. It returns `Fail(error)` where Python
  raises, and leaves `data` as it was at the moment of the exception.

`Setup` returns the classes file as a value: the path and the text written.
Nothing is written to disk.

### Behaviour worth knowing

- **Fragment sizes.** `int(N * p)` truncates, so `Take` is the floor of
  `N * p` (`TakeIsFloor`), not the nearest integer.
- **Seeding.** No `random_state` is passed to `train_test_split`, so the
  dataset's seed has no effect on the split. The model keeps `seed` as a
  field that the split step does not read, and the shuffles are an explicit
  parameter, `shuffle`.
- **`preprocess` keys.** `preprocess` writes `data_copy[i]` with the integer
  position `i` as the key, for every split in turn:
  - The splits themselves stay untransformed.
  - Integer key `i` ends up holding sample `i` of the last split, in key
    order, that has more than `i` samples.

  `PreprocessedKeys` and `PreprocessedValues` state this behaviour.

## Model

| member | source | states |
|---|---|---|
| DataDict.Dict.Put | deeppavlov/datasets/intent_dataset.py:95 | `d[k] = v`: `k` maps to `v` afterwards and every other key keeps its value. A new key is appended to the key order; an existing key keeps its place. |
| DataDict.PutTwice | deeppavlov/datasets/intent_dataset.py:95-97 | Writing the merged field again replaces the earlier write: two writes equal the last one alone. |
| Strings.SortedUnique | deeppavlov/datasets/intent_dataset.py:78-79 | `sorted(np.unique(xs))` is strictly increasing under Python's string `<`. It holds a string exactly when `xs` does. |
| Strings.SortedUniqueDetermined | deeppavlov/datasets/intent_dataset.py:78-79 | Two strictly sorted lists with the same members are equal, so the vocabulary is determined by its set of labels. |
| Strings.LessTotal | deeppavlov/datasets/intent_dataset.py:79 | Python's string order compares any two distinct strings, so `sorted` has a single answer. |
| Strings.LessTransitive | deeppavlov/datasets/intent_dataset.py:79 | Python's string order is transitive. |
| Strings.Less | deeppavlov/datasets/intent_dataset.py:79 | Python's `<` on `str`: the first differing code point decides, and a proper prefix comes first. |
| Strings.SplitOnSpace | deeppavlov/datasets/intent_dataset.py:48 | `s.split(' ')` yields at least one piece, and no piece contains a space. |
| Strings.JoinAfterSplit | deeppavlov/datasets/intent_dataset.py:48 | Splitting a field list on spaces loses nothing: `' '.join(s.split(' ')) == s`. |
| Strings.SplitAfterJoin | deeppavlov/datasets/intent_dataset.py:58 | Space-free names joined with spaces split back into the same names. |
| Classes.AllLabels | deeppavlov/datasets/intent_dataset.py:70-77 | The labels collected by `intents.extend(sample[1])` are exactly the labels some sample carries. |
| Classes.IntentLabels | deeppavlov/datasets/intent_dataset.py:70-77 | The `intents` list before `np.unique`: the labels of "train" in sample order, followed by those of "valid" when that key exists. |
| Classes.ClassesOf | deeppavlov/datasets/intent_dataset.py:69-79 | The classes are strictly sorted. A string is a class if and only if it labels a train sample or, when "valid" exists, a valid sample. |
| IntentDatasets.IntentDataset.ExtractClasses | deeppavlov/datasets/intent_dataset.py:69-79 | The two collection loops yield `ClassesOf(data)`: strictly sorted, and holding exactly the train and valid labels. |
| Classes.LinesAppend | deeppavlov/datasets/intent_dataset.py:42-43 | Writing one more class appends that class and a newline to the file text. |
| Classes.Lines | deeppavlov/datasets/intent_dataset.py:42-43 | The text the write loop puts in the file: each class followed by `'\n'`, in order. |
| Classes.SerializeClasses | deeppavlov/datasets/intent_dataset.py:41-43 | The write loop produces each class followed by a newline, in order. When no class contains a newline, reading the lines back gives the classes. |
| Classes.ReadLinesAfterLines | deeppavlov/datasets/intent_dataset.py:41-43 | Splitting the classes file into lines recovers the class list, when no class contains a newline. |
| Classes.ClassesExample | deeppavlov/datasets/intent_dataset.py:41-43 | The labels "greet", "farewell", "greet" give the classes ["farewell", "greet"] and the file text "farewell\ngreet\n". |
| Classes.DefaultClassesPath | deeppavlov/datasets/intent_dataset.py:27-37 | Without `classes_file`, the file is `<dataset_path>/<dataset_dir>/<dataset_file>`. When `dataset_path` is None, the user directory replaces it. |
| IntentDatasets.ClassesPath | deeppavlov/datasets/intent_dataset.py:27-37 | A given `classes_file` is used as is. Otherwise the default path above is used. |
| IntentDatasets.DefaultsClassesPath | deeppavlov/datasets/intent_dataset.py:15-32 | With the constructor's default options (`dataset_dir='intents'`, `dataset_file='classes.txt'`, no `dataset_path`, no `classes_file`), the classes file is `<user dir>/intents/classes.txt`. |
| Merging.FirstMissing | deeppavlov/datasets/intent_dataset.py:96-97 | When a listed split is missing, the merge fails on the first missing name. Every name before it exists. |
| Merging.Concat | deeppavlov/datasets/intent_dataset.py:95-97 | The value the `+=` loop accumulates in the merged field: the samples of the listed splits, in listed order, read from the data before the merge. |
| IntentDatasets.FirstMissingIs | deeppavlov/datasets/intent_dataset.py:96-97 | If the loop meets a missing name after finding all earlier ones, that name is the first missing one. |
| Merging.ConcatStep | deeppavlov/datasets/intent_dataset.py:96-97 | One more iteration of the merge loop appends the next split's samples after those already gathered. |
| Merging.ConcatCons | deeppavlov/datasets/intent_dataset.py:96-97 | Read from the front, the first listed split's samples come first, followed by the rest in listed order. |
| Merging.ConcatLength | deeppavlov/datasets/intent_dataset.py:96-97 | The merged split's length is the sum of the listed splits' lengths, counted with repetition. |
| Merging.Merged | deeppavlov/datasets/intent_dataset.py:93-99 | After the merge, the target holds the listed splits' samples in order. Every other key keeps its value, no key is removed, and well-formedness is kept. |
| IntentDatasets.IntentDataset.MergeData | deeppavlov/datasets/intent_dataset.py:93-99 | When all names exist, `data` becomes `Merged(old data)`. Otherwise the method fails with `KeyError` on the first missing name and `data` is unchanged. |
| Splitting.TakeIsFloor | deeppavlov/datasets/intent_dataset.py:88-89 | `int(n * p)` is the floor of `n * num / den`. |
| Splitting.Take | deeppavlov/datasets/intent_dataset.py:88-89 | `int(data_size * p)` for a proportion `num / den`, computed as the quotient of `n * num` by `den`. |
| Splitting.SizesAt | deeppavlov/datasets/intent_dataset.py:84-89 | Call `j` takes `int(N * p_j)` of the ORIGINAL length `N`, not of the shrinking pool. |
| Splitting.Sizes | deeppavlov/datasets/intent_dataset.py:84-89 | The train sizes of the successive `train_test_split` calls, one per proportion used, each taken of the original length. |
| Splitting.Admissible | deeppavlov/datasets/intent_dataset.py:86-89 | Every call from call `i` on receives a train size of at least 1 and a non-empty test part, which is the input `train_test_split` accepts. |
| Splitting.TrainTestSplit | deeppavlov/datasets/intent_dataset.py:86-89 | `train_test_split` with `test_size = t` returns `|pool| - t` train samples and `t` test samples. |
| Splitting.TrainTestSplitKeeps | deeppavlov/datasets/intent_dataset.py:86-89 | The train and test parts together hold exactly the pool's samples, each as often as the pool does. |
| Splitting.Fragments | deeppavlov/datasets/intent_dataset.py:84-90 | The split produces one fragment per call plus the remaining pool. |
| Splitting.FragmentSizes | deeppavlov/datasets/intent_dataset.py:84-90 | Fragment `j` has size `sizes[j]`. The last fragment has the pool length minus the sum of the sizes. |
| Splitting.FragmentsPartition | deeppavlov/datasets/intent_dataset.py:84-90 | The fragments partition the pool as a multiset. |
| Splitting.WriteAllKeeps | deeppavlov/datasets/intent_dataset.py:85-90 | Writing the fragments adds exactly the named fields and keeps every other key's value. |
| Splitting.WriteAllLastWins | deeppavlov/datasets/intent_dataset.py:85-90 | A field named more than once keeps its last write. |
| Splitting.WriteAll | deeppavlov/datasets/intent_dataset.py:85-90 | The writes `self.data[split_fields[j]] = fragment j`, made in field order. |
| Splitting.CarveStep | deeppavlov/datasets/intent_dataset.py:84-89 | Under the split's precondition, each call has a test size strictly between 0 and the pool length, and the rest of the loop stays feasible. |
| Splitting.Carve | deeppavlov/datasets/intent_dataset.py:84-90 | The split loop from call `i` on: it writes each call's train part to the next field, continues with the test part, and writes what remains to the last field. |
| Splitting.SourceFragments | deeppavlov/datasets/intent_dataset.py:82-90 | There is one fragment per split field. |
| Splitting.SplitResult | deeppavlov/datasets/intent_dataset.py:81-91 | The split adds exactly the split fields as keys and keeps the value of every key that is not a split field, including the source when it is not a target. |
| Splitting.CarveIsSplitResult | deeppavlov/datasets/intent_dataset.py:84-90 | The loop that writes each train part and continues with the test part computes `SplitResult`. |
| Splitting.SplitResultFragments | deeppavlov/datasets/intent_dataset.py:81-91 | With distinct field names, field `j` holds fragment `j`. |
| Splitting.SplitResultSizes | deeppavlov/datasets/intent_dataset.py:81-91 | With distinct field names, field `j < last` holds `int(N * p_j)` samples, and the last field holds `N` minus their sum. |
| Splitting.SplitResultPartition | deeppavlov/datasets/intent_dataset.py:81-91 | The written fragments hold exactly the source's samples, each as often. |
| Splitting.SplitSizesExample | deeppavlov/datasets/intent_dataset.py:84-90 | Proportions 0.2 and 0.3 of 100 samples give sizes 20 and 30, the split is feasible, and the last field keeps 50. |
| IntentDatasets.IntentDataset.SplitData | deeppavlov/datasets/intent_dataset.py:81-91 | A missing source fails with `KeyError` and leaves `data` unchanged. Otherwise `data` becomes `SplitResult(old data)`. |
| Preprocessing.PrepSample | deeppavlov/datasets/intent_dataset.py:108 | The new sample keeps the labels. Its text is the first output of the preprocessor on the one-text batch. |
| Preprocessing.PrepChunk | deeppavlov/datasets/intent_dataset.py:107-108 | The inner loop: `copy[i] = (prep([text])[0], labels)` for each position `i` of one split, in order. |
| Preprocessing.PrepSplits | deeppavlov/datasets/intent_dataset.py:105-108 | The outer loop: the inner loop run over each key's split in turn, reading the original data and writing into the copy. |
| Preprocessing.Preprocessed | deeppavlov/datasets/intent_dataset.py:101-109 | `preprocess(prep)`: both loops run over all keys of the data, in insertion order, starting from the deep copy. |
| Preprocessing.Covering | deeppavlov/datasets/intent_dataset.py:105-108 | The sample written last under position `i` exists exactly when some split is longer than `i`, and it is sample `i` of such a split. |
| Preprocessing.CoveringIsLast | deeppavlov/datasets/intent_dataset.py:105-108 | The sample under integer key `i` comes from a split longer than `i`, and every split after it in key order is no longer than `i`. So the last covering split in key order wins. |
| Preprocessing.PrepChunkDomain | deeppavlov/datasets/intent_dataset.py:107-108 | The inner loop adds exactly the integer keys below the split's length. |
| Preprocessing.PrepChunkKeys | deeppavlov/datasets/intent_dataset.py:107-108 | The inner loop appends the new integer keys in increasing order and keeps keys unique. |
| Preprocessing.PrepChunkKept | deeppavlov/datasets/intent_dataset.py:107-108 | The inner loop keeps every value it does not overwrite. |
| Preprocessing.PrepChunkWritten | deeppavlov/datasets/intent_dataset.py:107-108 | After the inner loop, integer key `i` holds the transformed sample `i` of the split. |
| Preprocessing.PrepSplitsDomain | deeppavlov/datasets/intent_dataset.py:105-108 | Both loops add exactly the integer keys below the longest split's length. |
| Preprocessing.PrepSplitsValid | deeppavlov/datasets/intent_dataset.py:105-108 | Both loops keep every key listed once. |
| Preprocessing.PrepSplitsKeys | deeppavlov/datasets/intent_dataset.py:105-108 | After both loops, the key order is the original order followed by the new integer keys. |
| Preprocessing.PrepChunkAfterSplits | deeppavlov/datasets/intent_dataset.py:105-108 | The inner loop over the next split, run on a copy that already holds the integer keys below `m`, appends the integer keys from `m` up to the new maximum length, in increasing order. |
| Preprocessing.PrepSplitsKept | deeppavlov/datasets/intent_dataset.py:105-108 | Every original key that is not an overwritten integer key keeps its value. |
| Preprocessing.PrepSplitsWritten | deeppavlov/datasets/intent_dataset.py:105-108 | Integer key `i` holds the transformed sample `i` of the last split longer than `i`. |
| Preprocessing.PreprocessedKeys | deeppavlov/datasets/intent_dataset.py:101-109 | The result is well formed. Its keys are the original keys in order, then the missing positions below the longest split's length. |
| Preprocessing.PreprocessedValues | deeppavlov/datasets/intent_dataset.py:101-109 | Split entries are unchanged, with untransformed texts. Integer key `i` holds a transformed sample whose labels are those of sample `i` of some split. |
| IntentDatasets.IntentDataset.Preprocess | deeppavlov/datasets/intent_dataset.py:101-109 | The two nested loops over a copy compute `Preprocessed(data)`, and the copy is well formed. |
| IntentDatasets.MergeStep | deeppavlov/datasets/intent_dataset.py:44-51 | Without `fields_to_merge` the data is unchanged. Without `merged_field` the step raises `IOError` with the source's message. Any other failure is a `KeyError` on a missing split. |
| IntentDatasets.SplitStep | deeppavlov/datasets/intent_dataset.py:53-62 | Without `field_to_split` the data is unchanged. Without `split_fields` the step raises `IOError` with the source's message. Success keeps the data well formed. |
| IntentDatasets.PrepStep | deeppavlov/datasets/intent_dataset.py:64-67 | With no name or an empty name, the step succeeds with the data unchanged. With a name in the registry, it succeeds with `Preprocessed(d, registry[name])`, which is well formed. It fails only on a non-empty name missing from the registry, with `UnknownPreprocessor(name)`. |
| IntentDatasets.IntentDataset.constructor | deeppavlov/datasets/intent_dataset.py:22-23 | The base construction stores the data and the seed. `classes` starts as None. |
| IntentDatasets.IntentDataset.MergePhase | deeppavlov/datasets/intent_dataset.py:44-51 | `data` becomes `MergeStep`'s result, or stays unchanged when that step raises. |
| IntentDatasets.IntentDataset.SplitPhase | deeppavlov/datasets/intent_dataset.py:53-62 | `data` becomes `SplitStep`'s result, or stays unchanged when that step raises. |
| IntentDatasets.IntentDataset.PrepPhase | deeppavlov/datasets/intent_dataset.py:64-67 | `prep_method_name` is recorded first. `data` becomes `PrepStep`'s result, or stays unchanged when that step raises. |
| IntentDatasets.IntentDataset.Setup | deeppavlov/datasets/intent_dataset.py:25-67 | The classes are extracted, and the classes file's path and text produced, before any configuration error. A merge without a target raises with `data` unchanged. A split without targets raises after the merge has taken effect. An exception stops all later steps. Otherwise `data` ends as the preprocessed, split, merged data and `prep_method_name` is recorded. |

## Left out

- File system effects are not modelled: `mkdir` of the classes directory, `open`/`write` of the classes file, and the `print` messages. `Setup` returns the file's path and text instead of writing them.
- The user directory `paths.USR_PATH` is a parameter, `usrPath`. Paths are a root plus joined components; `pathlib` normalisation is not modelled.
- The preprocessor registry `PREPROCESSORS` is a map parameter. A preprocessor is a function on batches of texts that answers a one-text batch with at least one text.
- The base `Dataset` (`deeppavlov/core/data/dataset.py`) is not part of this model. `iter_all` is read as iterating the split's list, and the seed is only stored.
- `train_test_split`'s randomness is the `shuffle` parameter, a family of permutations indexed by call number. The dataset's seed does not reach it, as in the source.
- `train_test_split`'s own validation is not modelled: the error on an empty train or test part is a precondition (`SplitFits`, `Admissible`). So are negative and float proportions.
- Splitting.Take: `float(s)` parsing and floating-point products are not modelled. A proportion is an exact ratio of naturals, and `int(N * p)` is its exact floor.
- IntentDatasets.SplitStep: fewer proportions than split fields (an `IndexError` in the source) is excluded by the precondition `SplitFeasible`, not modelled as an error.
- IntentDatasets.SplitStep: a missing `split_proportions` (an `AttributeError` on `None.split` in the source) is the error `MissingProportions`.
- IntentDatasets.IntentDataset.Setup: a missing "train" split when `extract_classes` is set (a `KeyError` inside `iter_all`) is a precondition.
- Splitting.SplitResultSizes and Splitting.SplitResultFragments require distinct field names. With a repeated name, only the last write survives (`WriteAllLastWins`).
- The object Python discards when `__init__` raises is kept. `Setup` reports the error and the state at the point of the exception.
- `copy.deepcopy` and list aliasing are not modelled. Samples are immutable values, so the copy and the original cannot share mutable state.
- Strings.SortedUnique: numpy's conversion of the labels to fixed-width `<U` strings in `np.unique` is not modelled. Labels are compared as Python strings, so labels that differ only in trailing NUL characters stay distinct classes.

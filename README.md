# A verified model of the data loader of P-F2L

This project models `data/loader.py`, the dataset-preparation step of a
few-shot text classifier. The model covers five parts:

- **Class tables and dispatch.** Each dataset has three lists of class ids
  (meta-train, meta-val, meta-test). For 20newsgroup the lists are derived
  from the part of each newsgroup name before its first dot. The dataset
  name selects the table and a fixed matrix width (500, 38 or 44); any
  other name is an error.
- **Meta split (`_meta_split`).** A stable filter of the example list into
  three pools. Each pool tests the example's label against its own class
  list, so an example can land in several pools or in none.
- **Encoder (`data_to_nparray`, and the older `_data_to_nparray`).**
  - Builds a pad-filled row per example and writes the token ids from
    column 0. An unknown token gets the id of `"unk"` (the older encoder
    uses the vocabulary's default id).
  - Copies the labels, raw tokens and full token counts.
  - Collects the indices of degenerate rows: rows whose maximum id is
    below 2, padding included.
  - The active encoder keeps every row. The older one deletes the
    degenerate rows through `_del_by_idx`.
- **Index deletion (`_del_by_idx`).** `np.delete` along axis 0 on every
  array of a list, overwriting the list's slots in place. A lone array is
  wrapped and comes back unwrapped.
- **Stratified re-split (`_split_dataset`).**
  - A stable argsort by label is written back into the caller's pool.
  - Each class of `n` rows is then cut: the first `int(r * n)` rows go to
    train and the rest to val.
  - The per-class pieces are concatenated.

For the widths the loader uses, every way the code can raise is modelled
as an error value (`Result`/`Option`), not as a precondition:
- an empty pool with no width given;
- a missing `"<pad>"` key;
- an unknown token when `"unk"` is missing;
- two or more ids for fewer columns, or an empty row given to `np.max`;
- an out-of-bounds deletion index;
- an unsupported dataset name;
- an empty pool given to the re-split.

The modules follow the structure of the file:
- `Wrappers` and `SeqUtil`: `Option`/`Result` and generic sequence helpers;
- `Vocabulary`: token lookup;
- `Pools`: the row arrays, and the `Pool` class for the dictionary that is
  changed in place;
- `Encoder`, `Conversion`, `Deletion`, `MetaSplit`, `Stratify`,
  `ClassTables`, `Loader`.

Points of behaviour the model keeps:
- A row with more ids than the width raises; it is not truncated, and
  `text_len` is the full token count. A single id is broadcast by numpy
  into a slice of any length, so one token in a zero-width row writes
  nothing, and `np.max` then raises on the empty row.
- An unknown token with no `"unk"` key raises `KeyError`; the lookup is not
  total.
- The pad and unk ids are whatever `stoi` holds for `"<pad>"` and `"unk"`.
- A missing reserved key raises when it is first used, not when the
  vocabulary is built.
- The active encoder computes `del_idx` but never deletes those rows.

## Model

| member | source | states |
|---|---|---|
| Vocabulary.LookupAll | data/loader.py:333-335 | The token list resolves exactly when every token does, one id per token in order |
| Vocabulary.DefaultNeverFails | data/loader.py:289 | A vocabulary with a default index resolves every token list |
| Vocabulary.UnkFailure | data/loader.py:333-335 | With the "unk" fallback, lookup fails exactly when "unk" is missing and some token is not a key |
| Pools.GatherRows | data/loader.py:372-374 | `v[idx]` on the four row arrays keeps them parallel, one row per index |
| Pools.SliceRows | data/loader.py:385-386 | `v[a:b]` on the four arrays keeps them parallel with `b - a` rows |
| Pools.ConcatRows | data/loader.py:391-394 | Concatenating parallel blocks gives parallel arrays |
| Pools.SliceOfGather | data/loader.py:374-386 | Slicing gathered rows is gathering the slice of the index list |
| Pools.GatherOfGather | data/loader.py:374 | Gathering twice is gathering by the composed index list |
| Pools.ConcatOfGathers | data/loader.py:391-394 | Concatenating gathered blocks is gathering by the concatenated index lists |
| Pools.Pool.constructor | data/loader.py:300-306 | The new dictionary holds the rows and the vocabulary size, and has no `is_train` key |
| Encoder.MaxLength | data/loader.py:321-322 | `max(text_len)` bounds every example's length and is attained by one |
| Encoder.RowMax | data/loader.py:339 | `np.max` of a row bounds every entry and is attained |
| Encoder.EncodeRow | data/loader.py:333-340 | Each of the three row errors occurs exactly when its cause holds: an unknown token without "unk"; two or more ids for fewer columns; or at most one id in a zero-width row, which leaves `np.max` an empty row. A row that encodes is `width` wide, holds the token ids from column 0 and the pad id after them. |
| Encoder.EncodeAllSpec | data/loader.py:331-340 | The loop succeeds exactly when every row does, with one row per example. Otherwise it reports the first row that raises and that row's reason. |
| Encoder.DegenerateRowsSpec | data/loader.py:338-340 | `del_idx` lists exactly the rows whose maximum id is below 2, in increasing order |
| Encoder.FirstRowFailure | data/loader.py:331-335 | When rows before i encode and row i raises, the encoding fails with row i's error |
| Encoder.EncodeOneRow | data/loader.py:333-340 | The work on one row computes the row specification, including its errors |
| Encoder.FillRows | data/loader.py:331-340 | The row loop computes the whole-matrix specification and collects exactly the degenerate row indices |
| Encoder.EncodeRows | data/loader.py:315-340 | Width choice, pad lookup and row loop together compute the encoding specification |
| Encoder.EncodeContents | data/loader.py:315-340 | A successful encoding has one row per example, none removed. Every row is the width wide, with the token ids from column 0 and the pad id from `len(tokens)` on. Lengths, labels and raw tokens are copied row for row. |
| Encoder.RowContents | data/loader.py:333-335 | An encoded row holds the token ids first and the pad id after them |
| Encoder.EncodeDegenerate | data/loader.py:338-340 | `del_idx` holds exactly the rows whose maximum, padding included, is below 2, in increasing order |
| Encoder.EncodeSucceeds | data/loader.py:321-335 | Encoding succeeds exactly when a width is defined, "<pad>" is a key, and every row resolves, fits and has a nonzero width |
| Encoder.EncodeFailures | data/loader.py:321-335 | Error precedence: an empty pool without a width first, then a missing "<pad>", then the first row that cannot be encoded |
| Stratify.Classes | data/loader.py:377 | The classes of `np.unique` are increasing and are exactly the labels present |
| Stratify.IndicesWith | data/loader.py:369 | The rows of one label, increasing, as many as the label occurs |
| Stratify.ArgSort | data/loader.py:369 | The argsort lists valid row indices |
| Stratify.ArgSortStable | data/loader.py:369 | The argsort orders rows by ascending label, and rows of one label in their original order |
| Stratify.ArgSortMembers | data/loader.py:369 | Every row appears in the argsort |
| Stratify.ArgSortPermutation | data/loader.py:369 | The argsort is a permutation of the rows |
| Stratify.NoClassesNoRows | data/loader.py:377-394 | There are no classes exactly when there are no rows, so the final concatenation has no parts |
| Stratify.SortedMultiset | data/loader.py:369-374 | The sorted labels are the same labels, counted alike |
| Stratify.SortedLabelCounts | data/loader.py:377 | `np.unique` of the sorted labels gives each class with the size of its block |
| Stratify.Cut | data/loader.py:380 | A class never sends more rows to train than it has |
| Stratify.CutIsFloor | data/loader.py:380 | The cut is the exact floor of `n * p / q` |
| Stratify.CutBlocksLabelled | data/loader.py:383-386 | Each class's train piece and val piece hold only that class, in row order |
| Stratify.OutputsStable | data/loader.py:369-394 | Both outputs are ordered by ascending label, rows of one label in their original order |
| Stratify.SplitPartition | data/loader.py:377-394 | Every input row is in exactly one output; none is repeated or dropped |
| Stratify.ClassCounts | data/loader.py:379-388 | A label held by `n` rows gets `Cut(n)` rows in train and `n - Cut(n)` in val |
| Stratify.SplitCounts | data/loader.py:377 | The counts of `np.unique` are the class block sizes, and they add up to the pool size |
| Stratify.CutClasses | data/loader.py:378-388 | The loop with its running `start` cuts out each class's train slice and val slice |
| Stratify.SplitCorrect | data/loader.py:369-394 | The concatenated slices cut from the sorted rows are the train rows and the val rows of the specification |
| Stratify.SplitRows | data/loader.py:369-394 | The rows are put in argsort order. The split fails exactly on an empty pool; otherwise it returns the rows of the train and val specifications. |
| Stratify.SplitDataset | data/loader.py:358-396 | The caller's pool is left with its rows in argsort order and its other keys unchanged. The outputs are the train and val rows, or the error for an empty pool. |
| ClassTables.IntRange | data/loader.py:141-155 | `list(range(lo, hi))` has `hi - lo` entries, exactly the ids in `[lo, hi)` |
| ClassTables.FindFrom | data/loader.py:50 | `find` returns -1 or an index at or after the start that holds the character |
| ClassTables.FindFirst | data/loader.py:50 | `find` stops at the first match |
| ClassTables.PrefixBeforeDot | data/loader.py:50 | When the first dot is at `n`, `key[:key.find('.')]` is `key[..n]` |
| ClassTables.NewsgroupPrefixes | data/loader.py:25-50 | The prefix of each of the 20 newsgroup names is its group (talk, sci, comp, ...) |
| ClassTables.IdsByPrefixMember | data/loader.py:48-61 | An id is selected exactly when some entry with that id passes the prefix test |
| ClassTables.PrefixSplitPartitions | data/loader.py:48-61 | For any dictionary with distinct ids, the three prefix selections are pairwise disjoint and together hold every id |
| ClassTables.IndexedPrefixSplit | data/loader.py:48-61 | When ids are positions, id x lands in a list exactly when the x-th key's prefix passes that list's test |
| ClassTables.IdsByPrefixIncreasing | data/loader.py:48-61 | When ids are positions, each selected list is increasing |
| ClassTables.IdsWithPrefix | data/loader.py:48-61 | One append loop computes the prefix selection |
| ClassTables.NewsgroupClasses | data/loader.py:21-63 | `_get_20newsgroup_classes` computes the three prefix selections over the label dictionary |
| ClassTables.NewsgroupIds | data/loader.py:25-46 | The label dictionary's ids are 0..19 in order |
| ClassTables.NewsgroupPartition | data/loader.py:48-61 | The 20newsgroup lists partition 0..19: sci and rec go to train, comp to val, the rest to test |
| ClassTables.NewsgroupGroupIds | data/loader.py:25-61 | The literal lists hold exactly the ids whose group is sci/rec, comp, or neither |
| ClassTables.NewsgroupTableComputed | data/loader.py:21-63 | The prefix rule yields train `[1, 5, 10, 11, 13, 14, 16, 18]`, val `[4, 6, 7, 12, 17]` and test `[0, 2, 3, 8, 9, 15, 19]` |
| ClassTables.NewsgroupTablePartition | data/loader.py:48-61 | The 20newsgroup table is pairwise disjoint and covers exactly 0..19 |
| ClassTables.PartitionByTests | data/loader.py:97-155 | Three lists whose entries pass three mutually exclusive tests below `n`, and which together hold every id below `n`, are pairwise disjoint and cover exactly `[0, n)` |
| ClassTables.AmazonPartition | data/loader.py:97-99 | The amazon table is pairwise disjoint and covers exactly 0..23 |
| ClassTables.Rcv1Partition | data/loader.py:109-114 | The rcv1 table is pairwise disjoint and covers exactly 0..70 |
| ClassTables.FewRelPartition | data/loader.py:124-131 | The fewrel table is pairwise disjoint and covers exactly 0..79 |
| ClassTables.HuffPostClasses | data/loader.py:141-143 | The huffpost table is pairwise disjoint and covers exactly 0..40 |
| ClassTables.ReutersClasses | data/loader.py:153-155 | The reuters table is pairwise disjoint and covers exactly 0..30 |
| MetaSplit.SelectedIndicesSpec | data/loader.py:230-236 | The kept positions are increasing and are exactly those whose label is in the class list |
| MetaSplit.SelectIsGather | data/loader.py:228-238 | A pool is the input read at the kept positions, so it keeps the input order |
| MetaSplit.SelectMember | data/loader.py:230-236 | An example is in a pool exactly when it is in the input and its label is one of the pool's classes |
| MetaSplit.DisjointPools | data/loader.py:230-236 | Pools with disjoint class lists share no input position |
| MetaSplit.NewsgroupExactlyOnePool | data/loader.py:48-61 | With the 20newsgroup table, an example with a label in 0..19 goes to exactly one pool |
| MetaSplit.PartitionedPoolSizes | data/loader.py:230-236 | When the class lists partition the labels, the three pool sizes add up to the input size |
| MetaSplit.MetaSplit | data/loader.py:228-238 | The loop computes the three independent filters |
| MetaSplit.ReadWords | data/loader.py:202-211 | The `+=` loop concatenates every example's tokens in order |
| MetaSplit.WordsSpec | data/loader.py:202-211 | The word list has one entry per token, and holds exactly the tokens of some example |
| Deletion.NormIndex | data/loader.py:256 | numpy accepts `-n <= i < n`, with negative indices counted from the end |
| Deletion.NormIndices | data/loader.py:256 | All indices read against the axis size; an out-of-bounds index is reported with that size |
| Deletion.SurvivorsSpec | data/loader.py:256 | The survivors are increasing and are exactly the positions not listed |
| Deletion.SurvivorsCount | data/loader.py:256 | An array shrinks by the number of distinct listed positions |
| Deletion.DeleteColumn | data/loader.py:256 | `np.delete` succeeds exactly when every index is in bounds, and keeps the array kind and the survivor count |
| Deletion.DelByIdx | data/loader.py:241-261 | Each slot of the list is overwritten in place. An error leaves the earlier slots replaced and the rest untouched. A one-element list comes back unwrapped, a longer one as itself. |
| Deletion.DeleteInBounds | data/loader.py:256 | Deleting in-bounds indices keeps the unlisted positions in order, and the size drops by the number of distinct listed positions |
| Conversion.KeptRows | data/loader.py:297-298 | After the deletion the four arrays stay parallel, with one row per survivor |
| Conversion.DegenerateCount | data/loader.py:292-293 | Every row is degenerate or not: the two index lists add up to the row count |
| Conversion.SurvivorsAreNonDegenerate | data/loader.py:292-298 | The rows that survive deleting `del_idx` are exactly the non-degenerate rows |
| Conversion.EncodeShape | data/loader.py:268-293 | A successful encoding has parallel arrays, one non-empty row per example, and `del_idx` its in-bounds degenerate rows |
| Conversion.GatherNonDegenerate | data/loader.py:292-298 | No kept row is degenerate |
| Conversion.NonDegenerateSpec | data/loader.py:292-293 | The non-degenerate list names rows of the matrix whose maximum is at least 2 |
| Conversion.KeptRowsSpec | data/loader.py:284-298 | The older encoder's pool holds exactly the non-degenerate rows in their original order, one fewer per entry of `del_idx` |
| Conversion.DeleteEachArray | data/loader.py:297-298 | Deleting `del_idx` from each of the four arrays leaves that array's surviving rows |
| Conversion.DeleteRowArraysOk | data/loader.py:297-298 | No slot of the list raises |
| Conversion.DeleteRows | data/loader.py:297-298 | Handing the list to `_del_by_idx` and unpacking it gives the surviving rows |
| Conversion.DataToNparray | data/loader.py:311-355 | Fails exactly when the encoding fails, with the same error. Otherwise it returns a new pool with every encoded row, the vocabulary size and no train tag. |
| Conversion.LegacyDataToNparray | data/loader.py:264-308 | The same for the older encoder with a default id, except the pool holds only the rows left after the deletion |
| Loader.ParseDataset | data/loader.py:402-417 | A name selects the dataset it names; any other name is the `ValueError` and names no dataset |
| Loader.ParseDatasetName | data/loader.py:402-413 | Every dataset is selected by its own name |
| Loader.GetClasses | data/loader.py:402-413 | The dispatch returns the dataset's class table |
| Loader.ConvertPools | data/loader.py:495-501 | The first failing conversion names its pool and error. Otherwise the result is three new, distinct pools holding the encodings, with the train tag on the first only. |
| Loader.SplitAndConvert | data/loader.py:480-501 | The same, for the meta split of the dataset's table at the dataset's width |
| Loader.LoadDataset | data/loader.py:399-506 | An unknown name is the `ValueError`. Otherwise the result is the converted meta split of the dataset's table, with only train tagged. |
| Loader.PoolRows | data/loader.py:481-497 | Row i of a loaded pool holds the label, tokens and length of the i-th chosen example, at the dataset's width. Every label is one of the pool's classes. |
| Loader.TablePartition | data/loader.py:402-413 | The table dispatched for each dataset is pairwise disjoint and covers exactly the dataset's class ids |
| Loader.DatasetPools | data/loader.py:481-482 | For any dataset, when every label is one of its class ids, the three pools share no class and together hold every example once |
| Loader.LoadSucceeds | data/loader.py:495-497 | With "<pad>" and "unk" in `stoi` and no example longer than the width, a pool cannot fail to load |

## Left out

- `_load_json`, lines 160-199: the example list is a parameter. The model does not rely on its truncation to 500 tokens; a longer row is the width error instead.
- The word-vector check, download and GloVe loading, lines 429-442 and 470-473: the `stoi` table and the vocabulary size are parameters.
- torchtext `build_vocab_from_iterator` and `set_default_index`, lines 450-460: the vocabulary built there is not used by the active encoder. The older encoder takes a `stoi` map with a default id in place of the callable vocabulary.
- `datadir` and `args` of `load_dataset`, and every `print`: no effect on the result.
- numpy dtypes and object arrays: ids, lengths and labels are unbounded integers, raw tokens are `seq<seq<string>>`, and int64 overflow is not modelled.
- `_del_by_idx` with an axis other than 0: the file only calls it with 0.
- The optional example keys `head`, `tail` and `ebd_id`: the encoder never reads them.
- `classes2id`: `load_dataset` never sets it, so the pool has no such key.
- Stratify.Cut: the ratio is the exact rational `p / q`, so its floor can differ from the float product `int(r * n)` (0.29 * 100 truncates to 28).
- Stratify.SplitDataset: requires `0 <= p <= q`; a ratio outside [0, 1] is out of scope.
- A negative `max_text_len`, for which `np.ones` raises at line 324: the width is a `nat`, and `load_dataset` only passes 500, 38 or 44.

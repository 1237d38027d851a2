# HDF5 duplicate detection, modelled in Dafny

This project models the duplicate-detection pipeline of a small Python
repository that removes duplicate records from HDF5 files of satellite
image tiles. A file holds several datasets, such as `images`, `labels`
and `bounds`, and record `i` of a file is row `i` of every dataset. The
repository has two revisions of the same code. `core/` is the newer one
and the top-level directories hold the older one. Both are modelled.

The pipeline has these stages:

- **Key resolution.** `get_common_keys` finds the dataset names that two
  files share. The older revision keeps file 2's order. The newer one
  intersects the key sets of a whole list of files.
- **Retrieval.** `retrieve_datasets_from_hdf5_file` materialises those
  datasets. It raises when one is missing or when their record counts
  differ.
- **Hashing.** `hash_datasets_of_a_single_file` gives one SHA-256 hex
  digest per record. It is fed each dataset's bytes in dict order and
  raises when two records of one file collide.
- **Comparison.** There are two comparators that list the target records
  with a partner in the source. The numpy comparator compares records
  field by field with `np.array_equal`. The hashing comparator compares
  digests.
- **Filtering.** `remove_duplicates` keeps, in every target dataset, the
  records that were not reported.
- **Pairwise scan.** `check_duplicates_in_same_directory` compares every
  unordered pair of files in a directory listing.
- **Command line.** Validation and dispatch of the command-line modes in
  `run_script`.
- **Index check.** `compare_indexwise_data` checks two indices and compares
  the records they address.

Modelling choices:

- A dataset is a `Field`: a sequence of records, each record its raw
  bytes (`seq<bv8>`).
- `np.array_equal` on two records is byte equality.
- An opened file is an `Hdf5File`: its key order plus a map from key to
  dataset.
- SHA-256 is a parameter `h: Bytes -> Digest`. `sha256(a)` followed by
  `.update(b)` is `h(a + b)`.
- Every Python exception is an `Err` of `Outcomes.Result`.

The modules follow the code:

| file | module | content |
|---|---|---|
| `outcomes.dfy` | `Outcomes` | results and error kinds |
| `containers.dfy` | `Containers` | files, datasets, record equality |
| `keysets.dfy` | `KeySets` | both `get_common_keys` |
| `retrieve.dfy` | `Retrieve` | `retrieve_datasets_from_hdf5_file` |
| `fingerprint.dfy` | `Fingerprint` | `hash_datasets_of_a_single_file` |
| `scan.dfy` | `Scan` | the `for i: for j: if match: append(i)` list, defined once |
| `comparators.dfy` | `Comparators` | the numpy and hashing loops |
| `pipelines.dfy` | `Pipelines` | the comparators end to end on two files |
| `agreement.dfy` | `Agreement` | when the two comparators return the same list |
| `filter.dfy` | `Filter` | the filter loop of `remove_duplicates` |
| `removal.dfy` | `Removal` | `remove_duplicates` end to end, as written and corrected |
| `indexwise.dfy` | `Indexwise` | `compare_indexwise_data` |
| `listing.dfy` | `Listing` | directory and glob listings, Python string order |
| `pairs.dfy` | `Pairs` | `check_duplicates_in_same_directory` |
| `dispatch.dfy` | `Dispatch` | `validate_script_arguments` and `run_script` |

The newer revision's comparators call `get_common_keys(file_1=..., file_2=...)`.
The `core/utils/hdf5_utils.py` they import only defines
`get_common_keys(list_of_files)`, so as written every core comparison stops
with a `TypeError` (see Findings). The pipelines therefore resolve keys with
the two-file, ordered version that the older revision defines. For two
files, `KeySets.OrderedWalkIsIntersection` proves that it selects the same
keys as the N-file version.

## Model

| member | source | states |
|---|---|---|
| KeySets.CommonKeysOrdered | utils/hdf5_utils.py:18-25 | The loop returns the reference filter: a key is returned exactly when file 1 has it and file 2 lists it, and there are never more keys than file 2 lists |
| KeySets.KeepInPreservesOrder | duplicate_analysis/check_duplicates_utils.py:18-25 | The common keys appear in file 2's key list at strictly increasing positions, so file 2's order is kept |
| KeySets.KeepInDistinct | duplicate_analysis/check_duplicates_utils.py:21-23 | When file 2 lists each key once, no common key repeats |
| KeySets.CommonKeysInBoth | utils/hdf5_utils.py:18-25 | Every returned key names a dataset of both files, and every key both files hold is returned |
| KeySets.CommonKeysAll | core/utils/hdf5_utils.py:48-57 | An empty file list gives the empty set; otherwise a key is common exactly when every file in the list has it |
| KeySets.CommonKeysAllSubset | core/utils/hdf5_utils.py:52-55 | The common keys are contained in every file's key set |
| KeySets.CommonKeysAllOrderFree | core/utils/hdf5_utils.py:52-55 | Any reordering of the file list gives the same common keys |
| KeySets.OrderedWalkIsIntersection | core/utils/hdf5_utils.py:48-57 | For two files, the older ordered walk and the newer intersection select the same keys |
| KeySets.CommonKeysCoreCall | core/duplicate_analysis/check_duplicates_utils.py:19 | The call as written, with keywords `file_1` and `file_2` against a one-parameter signature, raises an unexpected-keyword TypeError on every input |
| KeySets.CoreCallNeverResolves | core/duplicate_analysis/check_duplicates_utils.py:19 | There are two valid files sharing the key "x" for which the written call raises while the ordered walk returns ["x"] |
| Retrieve.RetrieveFrom | duplicate_analysis/check_duplicates_utils.py:96-101 | From any point of the loop: it completes exactly when every remaining key exists with the fixed record count; every error is a missing key or a shape mismatch; the dict built so far maps each visited key to the file's dataset |
| Retrieve.RetrieveDatasets | core/utils/hdf5_utils.py:69-79 | It succeeds exactly when every key exists and all share the first key's record count; otherwise it raises a missing key or a shape mismatch. The count is None exactly when no key is given. The dict maps exactly the given keys to the file's datasets, in key order |
| Fingerprint.Encode | core/duplicate_analysis/check_duplicates_utils.py:74-80 | The encoder stays None exactly when there is no dataset; otherwise the bytes fed to it are the record's fields concatenated in dict order |
| Fingerprint.DigestsUpTo | core/duplicate_analysis/check_duplicates_utils.py:73-82 | The outer loop fails exactly when there are records but no dataset; otherwise digest i is the hash of record i's concatenated fields |
| Fingerprint.SetSizeDistinct | duplicate_analysis/check_duplicates_utils.py:119-120 | The set of a list is never larger than the list, and equal in size exactly when the list has no repeats |
| Fingerprint.HashDatasets | core/duplicate_analysis/check_duplicates_utils.py:71-87 | It raises exactly when there are records and either no dataset or two records whose digests collide. On success it returns one digest per record, digest i is the hash of record i, and the digests are pairwise distinct |
| Scan.TableMembers | core/duplicate_analysis/check_duplicates_utils.py:166-170 | An index is in the double loop's list exactly when it is below n and some j below m matches it |
| Scan.TableSorted | core/duplicate_analysis/check_duplicates_utils.py:112-125 | The listed indices never decrease and stay below n |
| Scan.TableCount | core/duplicate_analysis/check_duplicates_utils.py:112-125 | Index i occurs in the list once per j that matches it, counted independently as a set size |
| Scan.TableStrict | duplicate_analysis/check_duplicates_utils.py:150-154 | When each i matches at most one j, the list strictly increases, so no index repeats |
| Scan.TableExt | core/duplicate_analysis/check_duplicates_utils.py:112-125 | Two match relations that agree on the scanned range produce the same list |
| Comparators.RecordsMatch | core/duplicate_analysis/check_duplicates_utils.py:115-122 | The loop that breaks at the first unequal key says "duplicate" exactly when the records are equal on every common key |
| Comparators.CompareNumpy | core/duplicate_analysis/check_duplicates_utils.py:112-125 | i is reported exactly when some record of file 2 equals record i on every key; the list is non-decreasing and below n1 |
| Comparators.NumpyListCount | core/duplicate_analysis/check_duplicates_utils.py:112-125 | In the numpy comparator's list, index i occurs once per record of file 2 equal to record i on every key |
| Comparators.CompareHashing | core/duplicate_analysis/check_duplicates_utils.py:166-170 | i is reported exactly when some digest of file 2 equals digest i; the list is non-decreasing and below the digest count, and strictly increasing when file 2's digests are distinct |
| Pipelines.HashMatchStrict | duplicate_analysis/check_duplicates_utils.py:146-154 | With file 2's digests distinct, each index is reported at most once |
| Pipelines.CompareFilesHashing | core/duplicate_analysis/check_duplicates_utils.py:136-178 | On success the common keys are non-empty and the list strictly increases below file 1's record count; i is listed exactly when some record of file 2 has the same digest over the common keys |
| Pipelines.CompareFilesNumpy | core/duplicate_analysis/check_duplicates_utils.py:90-133 | It succeeds exactly when there is a common key and both files' common datasets share a record count. The list is non-decreasing and below file 1's count; i is listed exactly when some record of file 2 equals record i on every common key |
| Agreement.ConcatEqIff | core/duplicate_analysis/check_duplicates_utils.py:75-80 | With equal widths per key, the bytes fed to SHA-256 for two records are equal exactly when the records are equal field by field |
| Agreement.ConcatLosesBoundaries | core/duplicate_analysis/check_duplicates_utils.py:75-80 | Without equal widths, two records that differ field by field can feed SHA-256 the same bytes |
| Agreement.DigestEqIffRecordsEqual | core/duplicate_analysis/check_duplicates_utils.py:116-122 | With an injective hash and equal widths, equal digests mean exactly what `np.array_equal` on every key means |
| Agreement.HashingAgreesWithNumpy | core/duplicate_analysis/check_duplicates_utils.py:90-178 | With an injective hash and equal widths, a hashing comparison that completes implies the numpy comparison completes with the identical list |
| Agreement.SameMatches | core/duplicate_analysis/check_duplicates_utils.py:166-170 | Digest lists of injectively hashed, equal-width records scan to the numpy comparator's list |
| Filter.KeptIndicesFacts | core/duplicate_analysis/check_duplicates_utils.py:195-197 | The kept indices are below n and not listed; they strictly increase, and every unlisted index below n is kept |
| Filter.KeptIndicesCount | core/duplicate_analysis/check_duplicates_utils.py:195-197 | Kept indices plus listed indices below n number exactly n |
| Filter.KeptIsGather | core/duplicate_analysis/check_duplicates_utils.py:194-199 | Filtering one dataset equals gathering it at the kept indices, which depend only on the record count and the list |
| Filter.FilterField | core/duplicate_analysis/check_duplicates_utils.py:194-199 | The loop's output has one record per kept index, and position t holds the record at the t-th kept index |
| Filter.RemoveDuplicates | core/duplicate_analysis/check_duplicates_utils.py:190-200 | The output has the target's keys, and each output dataset is the target dataset at the kept indices |
| Filter.RemoveDuplicatesAligned | core/duplicate_analysis/check_duplicates_utils.py:190-200 | When every target dataset has n records, every output dataset has the same length, and position t of each comes from the same target index, so records stay aligned across keys |
| Filter.NoDuplicatesKeepsAll | duplicate_analysis/check_duplicates_utils.py:175-178 | An empty duplicate list keeps every record in order |
| Removal.SurvivorsFacts | core/duplicate_analysis/check_duplicates_utils.py:195-197 | The survivors are exactly the twinless indices below n, strictly ascending |
| Removal.KeptAreSurvivors | core/duplicate_analysis/check_duplicates_utils.py:195-197 | When the list names exactly the indices with a twin, the filter keeps exactly the survivors |
| Removal.FilteredIsGathered | core/duplicate_analysis/check_duplicates_utils.py:190-200 | Filtering the retrieved datasets gives each target dataset at the twinless indices, over exactly the common keys |
| Removal.RemoveDuplicatesBetween | core/duplicate_analysis/check_duplicates_utils.py:181-202 | It succeeds exactly when the numpy comparison does. The deduplicated file holds the common keys, and each dataset keeps, in order, exactly the target records that no source record equals on every common key |
| Removal.RemoveDuplicatesHashing | duplicate_analysis/check_duplicates_utils.py:164-183 | It succeeds exactly when the hashing comparison does, and each dataset keeps, in order, exactly the target records whose digest no source record shares |
| Removal.RemovalRevisionsAgree | duplicate_analysis/check_duplicates_utils.py:164-183 | With an injective hash and equal widths, both revisions write the same deduplicated datasets |
| Removal.RemoveDuplicatesCoreAsWritten | core/duplicate_analysis/check_duplicates_utils.py:181-185 | As written it never completes: the comparison it starts raises the TypeError of its get_common_keys call (line 96), so that is what it raises, on every input |
| Removal.RemoveDuplicatesCoreKeysFixed | core/duplicate_analysis/check_duplicates_utils.py:181-189 | With only the key call corrected it still never completes: after a successful comparison it raises the NameError for `h5`, and otherwise the comparison's error |
| Removal.CoreRemovalNeverWrites | core/duplicate_analysis/check_duplicates_utils.py:181-189 | There are two valid one-record files for which the corrected removal completes, the written one raises the keyword TypeError, and the key-corrected one raises the NameError for `h5` |
| Removal.RemoveDuplicatesTopAsWritten | duplicate_analysis/check_duplicates_utils.py:164-168 | As written it raises a NameError for an undefined name on every input, before comparing anything |
| Removal.TopRemovalNeverWrites | duplicate_analysis/check_duplicates_utils.py:165-168 | There are two valid one-record files for which the corrected removal completes and the written one raises |
| Indexwise.CompareIndexwise | core/duplicate_analysis/check_duplicates_utils.py:15-41 | It completes exactly when both indices are in range for every common key. It raises "index 1" exactly when the first key that rejects an index rejects index 1, and otherwise "index 2". Per key, the verdict is equality of the two records |
| Listing.InsertSorted | core/utils/hdf5_utils.py:15 | Inserting into a sorted list keeps it sorted |
| Listing.Sort | core/utils/hdf5_utils.py:37 | `list.sort()` returns a list that is sorted in Python string order and has the same elements with the same multiplicities |
| Listing.Qualifying | utils/hdf5_utils.py:10-13 | A path is kept exactly when it is a candidate that qualifies as an HDF5 file |
| Listing.QualifyingCount | utils/hdf5_utils.py:10-13 | Each qualifying path keeps its multiplicity, and the others vanish |
| Listing.DirectoryFilesUnsorted | duplicate_analysis/check_duplicates_utils.py:7-15 | For a directory, the qualifying entries in listing order; for anything else, nothing |
| Listing.DirectoryFiles | core/utils/hdf5_utils.py:7-16 | The same selection, sorted and with the same multiplicities |
| Listing.FilenamesFromGlob | core/utils/hdf5_utils.py:30-45 | The qualifying glob matches, sorted |
| Listing.SortedUnique | core/utils/hdf5_utils.py:37 | Two sorted lists with the same elements are equal, so sorting has one answer |
| Listing.DirectoryFilesOrderFree | utils/hdf5_utils.py:6-15 | The sorted listing does not depend on the order in which the directory yields its entries |
| Pairs.ComparedPairs | duplicate_analysis/dedup.py:22-23 | The double loop visits exactly the pairs i < j < n, in lexicographic order, n(n-1)/2 of them |
| Pairs.NoSelfNoRepeat | duplicate_analysis/dedup.py:22-23 | No file is compared with itself, and no unordered pair is compared twice |
| Pairs.RunPairs | duplicate_analysis/dedup.py:22-27 | Running comparisons in order completes exactly when every pair's comparison does; a failure is some pair's failure |
| Pairs.AllPairsCovered | duplicate_analysis/dedup.py:22-27 | Over the loop's pairs, the run completes exactly when every pair i < j completes, and a failure comes from such a pair |
| Pairs.PairOutcome | duplicate_analysis/dedup.py:24-27 | One call of the comparator with its result dropped: for in-range indices it completes exactly when the hashing comparison of the two files does, and any raise is that comparison's error |
| Pairs.CheckDuplicatesInSameDirectory | duplicate_analysis/dedup.py:22-27 | Over opened files, it completes exactly when every pair of distinct files compares without raising, and a raise comes from one such pair |
| Pairs.OpenedRun | duplicate_analysis/dedup.py:20-27 | The pairwise scan over the opened listing completes exactly when the hashing comparison of every pair of listed paths (i before j) does, and a raise is one such pair's error |
| Pairs.CheckDuplicatesInDirectory | duplicate_analysis/dedup.py:19-27 | From the directory: the unsorted listing is opened and scanned; it completes exactly when every pair of listed paths, in listing order, compares without raising, and a raise is one such pair's error |
| Dispatch.Select | core/duplicate_analysis/dedup.py:58-77 | The branch chain: single-list dedup exactly when --check_single_regex is set, analysis exactly when --analyze is set without it, double-list dedup exactly when only --check_double_regex is set, and no workflow when none is set |
| Dispatch.Validate | core/duplicate_analysis/dedup.py:47-51 | The arguments pass exactly when exactly one of the two regex modes is set |
| Dispatch.RunScript | core/duplicate_analysis/dedup.py:54-77 | It fails exactly when validation fails; otherwise some workflow runs. Single-list dedup runs exactly when it is asked for, analysis exactly when --analyze comes with --check_double_regex, and double-list dedup otherwise |
| Dispatch.AnalyzeAloneRejected | core/duplicate_analysis/dedup.py:47-51 | --analyze on its own is rejected before any workflow runs |
| Dispatch.SingleTakesPrecedence | core/duplicate_analysis/dedup.py:58-70 | With --check_single_regex valid, single-list dedup runs even when --analyze is also given |

## Left out

- Opening, reading and writing HDF5 files (`open_hdf5_file`, `h5.File`, `create_dataset`) are left out. A file is given as its key order and its datasets. The output file of `remove_duplicates` is the returned map.
- `os.listdir`, `os.path.isfile`, `h5.is_hdf5` and `glob.glob` are parameters: the entry list and a `qualifies` predicate. Path joining is left out.
- SHA-256 itself is a parameter `h`, and hex encoding is part of it. Its collision resistance appears only as the `Injective` assumption of the agreement lemmas.
- `np.array_equal` is modelled as equality of a record's raw bytes. dtype conversion, float semantics such as NaN and signed zero, and shape metadata are left out.
- All `print` output is left out. In `compare_indexwise_data` the printed same/different verdicts become the returned list.
- `debug_hashing` is a printing self-test of SHA-256 on one image, and is left out.
- `get_all_hdf5_files_from_regex` only opens the listed files, and is left out.
- The image, viewing, SageMaker and `mix_positives` modules are not part of this model.
- `parse_script_arguments` (argparse, configargparse) is left out; the three mode flags are the input.
- The workflows that `core/duplicate_analysis/dedup.py` imports (`remove_duplicates_from_single_list_of_files`, `analyze_duplicates_between_two_files`, `remove_duplicates_between_two_list_of_files`) are not defined in `core/duplicate_analysis/check_duplicates_utils.py`. The dispatch is modelled only up to which of them is selected.
- Python strips `assert` under `-O`. The model keeps the asserts of `validate_script_arguments`. The `isinstance` assert of `remove_duplicates` always holds for retrieved datasets and is left out.
- Agreement.HashingAgreesWithNumpy: assumes equal byte widths per key (`UniformWidths`) and an injective hash. Without the width assumption the statement is false (`Agreement.ConcatLosesBoundaries`).
- Pipelines.CompareFilesHashing: states what a successful run returns, but not exactly when it fails. It fails on a retrieval error, when there are no common keys, or on a within-file digest collision; only the hashing stage pins this down.
- Pipelines.CompareFilesNumpy, Pipelines.CompareFilesHashing, Indexwise.CompareIndexwise: resolve keys with the two-file ordered walk, not the call as written in the newer revision (see Findings).
- Pairs.CheckDuplicatesInSameDirectory: the comparator's returned datasets and lists are dropped, as the source drops them. Only whether each call raises is kept.

## Findings

| source | as written | input that shows it | evidently intended | confidence | as-written member | corrected member |
|---|---|---|---|---|---|---|
| core/duplicate_analysis/check_duplicates_utils.py:19 | The comparators call `get_common_keys(file_1=..., file_2=...)`, but the imported `core/utils/hdf5_utils.py:48` takes one parameter, `list_of_files`, so every call raises `TypeError` | any two files, e.g. the two files sharing key "x" of `KeySets.CoreCallNeverResolves` | the keys both files hold, as the older revision's two-file version computes them | high; not executed | KeySets.CommonKeysCoreCall, shown by KeySets.CoreCallNeverResolves | KeySets.CommonKeysOrdered, with KeySets.CommonKeysInBoth |
| core/duplicate_analysis/check_duplicates_utils.py:189 | `remove_duplicates` calls `h5.File`, but the module never imports `h5py`. As written the comparison at line 182 already raises the line-96 `TypeError` of the first finding. Once that call is corrected, it raises `NameError` after every comparison that succeeds | two one-record files with one common key, with the line-96 call corrected | write the filtered target datasets | high; not executed | Removal.RemoveDuplicatesCoreKeysFixed (and Removal.RemoveDuplicatesCoreAsWritten for the code exactly as written), shown by Removal.CoreRemovalNeverWrites | Removal.RemoveDuplicatesBetween |
| duplicate_analysis/check_duplicates_utils.py:165-168 | `remove_duplicates` passes `filepath_1` and `filepath_2`, which are not defined (its parameters are `target_path` and `source_path`), so it raises `NameError` before comparing | any call, e.g. the two files of `Removal.TopRemovalNeverWrites` | compare `target_path` with `source_path` and filter the target | high; not executed | Removal.RemoveDuplicatesTopAsWritten, shown by Removal.TopRemovalNeverWrites | Removal.RemoveDuplicatesHashing |

# Onion-location fingerprinting pipeline, modelled in Dafny

This project models the analysis pipeline of a measurement study of Tor's
onion-location feature. The pipeline has two parts.

**Extraction.** Captured Tor circuits become fixed-length direction traces:

- `extract_ol_format` turns each fetch of a capture file into samples. A
  sample joins the first half of a general circuit's trace with the first
  half of a rendezvous circuit's trace.
- `extract_negative_autoloc` builds negative samples by pairing clearnet
  general circuits with onion rendezvous circuits.
- `extract_dataset` emits one 512-cell trace per circuit of each selected
  kind, for circuit fingerprinting.

**Classification.** The binary classifier loads two labelled archives and
merges them into one dataset, labelling the first archive 0 and the second
1. It computes a baseline accuracy, then runs ten folds of cross-validation.
Each fold has three steps:

- **Split.** Closed world cuts each class 8:1:1 after a shuffle. Open world
  sends whole tags to train or to test by a biased coin.
- **Train.** Training runs with patience-based early stopping on the
  training loss.
- **Test.** The fold counts true and false positives, with class 0 as the
  positive class, and derives accuracy, fpr, tpr, fnr and tnr.

Modules, one per stage:

| file | module | what it holds |
|---|---|---|
| `wrappers.dfy` | `Wrappers` | `Option` and `Result` |
| `seqs.dfy` | `Seqs` | filtering, distinctness and permutation facts about sequences |
| `traces.dfy` | `Traces` | `cells2df`, the nonzero count, `get_max_nonzero_trace` and the half/half join |
| `circuits.dfy` | `Circuits` | circuit records, `is_dir_circuit`, cell filtering, grouping by kind |
| `extract_ol.dfy` | `ExtractOl` | `extract_ol_format` and `extract_negative_autoloc` |
| `extract_cf.dfy` | `ExtractCf` | `process_kinds` and `extract_dataset` |
| `loading.dfy` | `Loading` | `update_dataset`, the merge in `main`, the baseline accuracy |
| `splitting.dfy` | `Splitting` | the closed-world and open-world splits and the fold loop |
| `training.dfy` | `Training` | the epoch loop and its early-stopping rule |
| `evaluation.dfy` | `Evaluation` | the test loader, the counting loop and the rates |

Randomness appears as inputs, in three forms:

- a shuffle is any permutation of its argument;
- the open-world coin is a sequence of draws, one per tag, in the tags'
  iteration order;
- the network's behaviour is the sequence of epoch losses and the softmax
  scores of the evaluated test samples.

Most operations come with a reference definition, an inverse or an invariant,
and a lemma or contract that ties the two together. Examples:

- the stopping rule is defined by "epochs since the last strict
  improvement" and the loop is proved equal to it;
- the counting loop is proved equal to a per-cell definition of the
  confusion matrix;
- the splits are proved to partition the samples;
- the extraction dictionaries are proved to hold exactly the identifiers the
  files generate, each labelled with its file's tag and holding the trace of
  the last sample stored under it;
- an extraction fails exactly when a circuit it converts has no cells.

## Model

| member | source | states |
|---|---|---|
| Traces.Pad | analysis/extract-ol.py:36-40 | the trace has exactly `length` entries: the first `length` directions, then zeros |
| Traces.PadFixedPoint | analysis/extract-ol.py:36-40 | padding to a sequence's own length returns it unchanged, and padding twice equals padding once |
| Traces.PadNonzeroCount | analysis/extract-ol.py:36-40 | padding adds no nonzero entries: the count equals that of the truncated directions |
| Traces.NonzeroCountIsCardinality | analysis/extract-ol.py:60-61 | the recursive nonzero count equals the number of indices whose entry is nonzero, as `np.nonzero` lists them |
| Traces.NonzeroCountConcat | analysis/extract-ol.py:60-61 | the nonzero count of a concatenation is the sum of the parts' counts |
| Traces.FirstMaxUnique | analysis/extract-ol.py:50-57 | there is at most one first trace with the maximal nonzero count |
| Traces.MaxIndex | analysis/extract-ol.py:50-57 | the strict-greater scan selects the first trace with the maximal nonzero count |
| Traces.GetMaxNonzeroTrace | analysis/extract-ol.py:50-57 | None exactly for an empty list; otherwise the first trace whose nonzero count is maximal |
| Traces.Join | analysis/extract-ol.py:112-114 | with two traces of at least HALF entries, the result is LENGTH long: the first HALF of the general trace, then the first HALF of the rendezvous trace |
| Circuits.CircuitsConvertible | analysis/extract-ol.py:85-87 | true exactly when every selected circuit of the list has at least one cell |
| Circuits.FetchesConvertible | analysis/extract-ol.py:71-87 | the per-fetch loop finishes exactly when every selected circuit whose fetch is listed has cells |
| Circuits.FilesConvertible | analysis/extract-ol.py:66-87 | with `np.unique` fetch lists every circuit is visited, so the loops finish exactly when no selected circuit of any file lacks cells |
| Circuits.UnconvertibleSplit | analysis/extract-ol.py:66-87 | a file list holds a selected circuit without cells exactly when its first file or the rest does |
| Circuits.IsDirCircuit | analysis/extract-ol.py:43-47 | true exactly when some cell carries relay command 13 |
| Circuits.CircuitTrace | analysis/extract-ol.py:85-87 | the trace of a circuit holds the directions of its cells whose fourth field is not 16, in order, padded or cut to the length |
| Circuits.TracesOfKindAppend | analysis/extract-ol.py:88-90 | appending a circuit appends its trace to its own kind's list only |
| Circuits.TracesLength | analysis/extract-ol.py:85-90 | every trace of a kind's list has the requested length |
| Circuits.TracesOfKindOrigin | analysis/extract-ol.py:85-90 | every trace of a kind's list is the trace of some circuit of that kind |
| Circuits.TracesOfKindHas | analysis/extract-ol.py:85-90 | every circuit's trace is in its kind's list |
| Circuits.TracesOfKindEmpty | analysis/extract-ol.py:88-90 | a kind's list is empty exactly when no circuit has that kind |
| Circuits.TracesOfKindFilter | analysis/extract-cf.py:48-57 | dropping circuits of other kinds leaves a kind's list unchanged |
| Circuits.GroupByKind | analysis/extract-ol.py:75-90 | a kind is a key exactly when it has traces, and its list holds the traces of that kind's circuits in order |
| Circuits.GroupByKindKeys | analysis/extract-ol.py:88-89 | a kind is a key exactly when some circuit has that kind |
| ExtractOl.KeptRules | analysis/extract-ol.py:78-84 | filtered domains are always skipped; Cloudflare domains are skipped only for the positive class; general directory circuits are skipped; other circuits are kept |
| ExtractOl.KeptCircuitsMembers | analysis/extract-ol.py:77-84 | a circuit is kept exactly when it is one of the fetch's circuits and passes the filter |
| ExtractOl.KeptCircuitsConcat | analysis/extract-ol.py:77-84 | the circuit filter distributes over concatenation |
| ExtractOl.FetchTraces | analysis/extract-ol.py:76-90 | every kind present has a non-empty list of LENGTH-long traces |
| ExtractOl.FetchTracesKinds | analysis/extract-ol.py:76-90 | a kind has a list exactly when some circuit the filter keeps has that kind; the list holds the traces of that kind's kept circuits in file order |
| ExtractOl.FetchTracesHas | analysis/extract-ol.py:77-90 | every circuit the filter keeps has its trace in its kind's list |
| ExtractOl.FetchTracesOrigin | analysis/extract-ol.py:77-90 | every trace in a kind's list is the trace of a kept circuit of that kind |
| ExtractOl.SkippedCircuitIgnored | analysis/extract-ol.py:78-84 | removing a circuit the filter skips leaves the fetch's traces unchanged |
| ExtractOl.Largest | analysis/extract-ol.py:98-101 | the chosen trace is the first one with the maximal nonzero count, and no trace has more nonzero entries |
| ExtractOl.CrossedAt | analysis/extract-ol.py:118-126 | combination number `a * |rs| + b` joins general trace `a` with rendezvous trace `b` |
| ExtractOl.NegativeSamplesAt | analysis/extract-ol.py:118-126 | the sample at position `a * |rs| + b` has id `{uuid}-{a * |rs| + b}`, the file's tag and the joined trace |
| ExtractOl.PositiveFetch | analysis/extract-ol.py:92-114 | a positive fetch yields one sample exactly when both general and rendezvous traces exist and both largest ones have at least the minimum of nonzero cells; its halves are those of the two largest traces |
| ExtractOl.NegativeFetch | analysis/extract-ol.py:92-94 | a negative fetch yields one sample per general and rendezvous pair when both kinds exist, and none otherwise |
| ExtractOl.FetchSamples | analysis/extract-ol.py:92-127 | every sample carries the file's tag and a LENGTH-long trace; positive fetches give at most one sample with the fetch id, negative ones give numbered combinations |
| ExtractOl.Store | analysis/extract-ol.py:110-123 | both dictionaries have the same keys, exactly the ids of the samples stored |
| ExtractOl.StoreOrigin | analysis/extract-ol.py:110-123 | every stored label and trace come from one sample with that id |
| ExtractOl.StoreLastWins | analysis/extract-ol.py:110-123 | a sample with no later sample of the same id is what the dictionaries hold for that id |
| ExtractOl.FileSamplesHas | analysis/extract-ol.py:71-127 | every sample of a listed fetch is among the file's samples |
| ExtractOl.AllSamplesHas | analysis/extract-ol.py:66-127 | every sample of every file is among all the samples |
| ExtractOl.StoreExtracted | analysis/extract-ol.py:110-123 | storing the samples gives dictionaries with exactly their ids as keys, each label the tag the id names, and the last sample of an id supplying its trace |
| ExtractOl.ExtractOlFormat | analysis/extract-ol.py:64-129 | fails exactly when a circuit the filter keeps has no cells; otherwise the keys are exactly the ids of the samples the files yield, each labelled with the tag of its file, with the directory's name, fetch ids for the positive class and combination ids for the negative class, a LENGTH-long trace, and the last sample of an id supplying its trace |
| ExtractOl.FetchSampleExtracted | analysis/extract-ol.py:71-127 | every sample any fetch of any file yields is stored on success, labelled with that file's tag |
| ExtractOl.FetchCollected | analysis/extract-ol.py:141-156 | a fetch contributes, in circuit order, the trace of exactly those circuits the selection picks whose trace has at least the minimum of nonzero cells, once per circuit |
| ExtractOl.FileCollected | analysis/extract-ol.py:139-156 | a file contributes, fetch by fetch, the traces of exactly the qualifying circuits of its listed fetches |
| ExtractOl.Collected | analysis/extract-ol.py:134-179 | the list is exactly the traces of the qualifying circuits of all files, in loop order and once per circuit; every collected trace is LENGTH long and has at least the minimum of nonzero cells |
| ExtractOl.CollectedHas | analysis/extract-ol.py:134-179 | every circuit of any file that the selection picks and whose trace reaches the minimum has its trace collected |
| ExtractOl.CollectedOrigin | analysis/extract-ol.py:134-179 | every collected trace is the trace of a circuit of some file that the selection picks and whose trace reaches the minimum |
| ExtractOl.Shuffled | analysis/extract-ol.py:181-183 | a shuffle of the collected list holds one trace per qualifying circuit, each LENGTH long and reaching the minimum |
| ExtractOl.Merged | analysis/extract-ol.py:185-196 | `negative-i` for each index below the shorter list's length, labelled 0, joining the i-th general with the i-th rendezvous trace; nothing else |
| ExtractOl.NegativeIds | analysis/extract-ol.py:187-188 | exactly the ids `negative-0` to `negative-(n-1)` |
| ExtractOl.ExtractNegativeAutoloc | analysis/extract-ol.py:132-198 | fails exactly when a clearnet general circuit without a directory cell, or an onion rendezvous circuit, has no cells; otherwise min(#general, #rendezvous) samples, where #general and #rendezvous count the clearnet general circuits without a directory cell and the onion rendezvous circuits whose traces reach the minimum, all labelled 0; sample `i` joins the i-th shuffled general trace with the i-th shuffled rendezvous trace; all traces LENGTH long |
| ExtractOl.PermutedTraces | analysis/extract-ol.py:181-183 | shuffling keeps the length and minimum-nonzero guarantees of every collected trace |
| ExtractCf.CfTrace | analysis/extract-cf.py:12-16 | 512 entries: the kept cells' directions, then zeros |
| ExtractCf.OtherKindsKept | analysis/extract-cf.py:47-57 | a non-general kind is grouped exactly when some circuit has it, and gets all of its circuits in order |
| ExtractCf.DirCircuitExcluded | analysis/extract-cf.py:49-51 | a general circuit with a directory cell contributes nothing to the grouping |
| ExtractCf.PutKind | analysis/extract-cf.py:29-32 | entry `uuid-kind-i` holds the kind's i-th value for every index, and all other entries are unchanged |
| ExtractCf.PutKinds | analysis/extract-cf.py:27-32 | adds exactly the entries of listed kinds present in the groups, and leaves the rest unchanged |
| ExtractCf.ProcessKinds | analysis/extract-cf.py:26-32 | new keys are exactly `uuid-kind-i` for listed kinds with traces, labelled with the tag and holding the i-th trace; other entries are unchanged |
| ExtractCf.AbsentKindsAddNothing | analysis/extract-cf.py:27-28 | kinds without traces leave both dictionaries unchanged |
| ExtractCf.WrittenTrace | analysis/extract-cf.py:44-57 | an identifier a fetch generates holds the 512-entry trace of a kept circuit of its kind in that fetch |
| ExtractCf.ProcessFetch | analysis/extract-cf.py:42-59 | keeps the dictionaries consistent (same keys, each label the tag of the sample's own fetch, each kind listed, each trace 512 long); adds exactly the identifiers the fetch generates, each holding its kind's trace, and leaves every other entry unchanged |
| ExtractCf.ProcessFile | analysis/extract-cf.py:41-59 | adds exactly the identifiers the file's fetches generate, each holding the trace of the fetch it names, and leaves every other entry unchanged |
| ExtractCf.WrittenByFilesSplit | analysis/extract-cf.py:37-59 | a list of files generates an identifier exactly when its first file or the rest does |
| ExtractCf.LastWriterSplit | analysis/extract-cf.py:37-59 | the last file to generate an identifier is the first file, with no later writer, or the last writer among the rest |
| ExtractCf.ProcessFilesStep | analysis/extract-cf.py:37-59 | the first file's entries survive unless a later file generates the same identifier |
| ExtractCf.ProcessFiles | analysis/extract-cf.py:37-59 | adds exactly the identifiers some file generates; the last file to generate one supplies its trace; every other entry is unchanged |
| ExtractCf.ExtractDataset | analysis/extract-cf.py:35-61 | fails exactly when a kept circuit has no cells; otherwise the keys are exactly the identifiers the files generate, every sample of a listed kind, labelled with its fetch's tag and holding the 512-long trace of the last file that generates it |
| ExtractCf.ExtractedTrace | analysis/extract-cf.py:35-61 | on success each entry is the trace of a kept circuit of its kind, from its fetch of the last file generating it |
| Loading.Fit | analysis/binary-classify.py:40-43 | fails exactly when more than 5000 values would be copied; otherwise 5000 entries, the first `min(length, len)` copied and the rest zero |
| Loading.FitAll | analysis/binary-classify.py:37-43 | succeeds exactly when every trace fits, failing with the shape error otherwise, with the same keys and each trace fitted |
| Loading.NewKeysNone | analysis/binary-classify.py:33-36 | into an empty dictionary every uuid of the archive is new, in its order |
| Loading.NewKeysSameKeys | analysis/binary-classify.py:33-36 | which uuids are new depends only on the keys already present |
| Loading.ExtendOrder | analysis/binary-classify.py:33-36 | appending the new uuids to a key order gives a key order of the union |
| Loading.UpdateDataset | analysis/binary-classify.py:29-45 | fails with the shape error exactly when a trace does not fit; otherwise the key order is the old one followed by the archive's new uuids in its order, the archive's uuids are labelled with `name`, its tags and fitted traces override older ones, and all else is kept |
| Loading.Merge | analysis/binary-classify.py:60-66 | fails exactly when a trace of either archive does not fit (shape error) or the trace and tag uuids differ in number (assertion); on success every uuid of the second archive is labelled 1 and the rest of the first 0, the key order is the first archive's followed by the second's new uuids, tags and fitted traces come from the second archive on a shared uuid and from the first otherwise, every trace is 5000 long, and the counts are the first archive's size and the second's new uuids |
| Loading.MergedLabels | analysis/binary-classify.py:60-64 | after both updates, labels and tags share their keys, the second archive's uuids carry 1 and the rest 0 |
| Loading.MergedCarried | analysis/binary-classify.py:60-64 | after both updates, the key order, tags and traces are those carried from the two archives |
| Loading.WhereConcat | analysis/binary-classify.py:101 | selecting uuids by value distributes over concatenation |
| Loading.ClassSizes | analysis/binary-classify.py:112-113 | with 0/1 labels, the two classes' sizes add up to the number of uuids |
| Loading.BaselineAsWritten | analysis/binary-classify.py:62-70 | the larger of the two counts taken in `main` divided by their sum, failing on zero samples |
| Loading.Baseline | analysis/binary-classify.py:70 | fails exactly on an empty dataset; otherwise the larger class's share of the samples, between 1/2 and 1 |
| Loading.BaselineWithoutOverlap | analysis/binary-classify.py:62-70 | when the archives share no uuid, the count-based baseline equals the label-based one |
| Loading.BaselineOverlapCounterexample | analysis/binary-classify.py:62-70 | with uuid 1 in both archives, the code's baseline is 1/2 while every sample carries label 1 |
| Loading.AllOneClass | analysis/binary-classify.py:70 | when all samples carry label 1 the baseline is 1 |
| Splitting.SelectMode | analysis/binary-classify.py:75-78 | refuses exactly p > 1; open world exactly for 0 < p <= 1 |
| Splitting.Cut | analysis/binary-classify.py:114-117 | the three parts concatenate back to the shuffled list; train holds `int(n * 0.8)` and train plus valid `int(n * 0.9)` |
| Splitting.CutProportions | analysis/binary-classify.py:115-117 | the parts are within one sample of 80%, 10% and 10% |
| Splitting.ClosedWorldSplit | analysis/binary-classify.py:109-117 | each sample lands in exactly one part; each class's train, valid and test parts, in order, are the first 80%, the next 10% and the rest of that class's shuffled list |
| Splitting.ClosedWorldTwoSamples | analysis/binary-classify.py:112-117 | two class-0 samples shuffled to [1, 2] split into train [1], no validation and test [2] |
| Splitting.ClosedWorldPartitions | analysis/binary-classify.py:112-117 | the closed-world parts hold every labelled uuid exactly once |
| Splitting.ClosedWorldStratified | analysis/binary-classify.py:112-117 | each class's share of train, valid and test is `int(n*0.8)`, `int(n*0.9) - int(n*0.8)` and the rest |
| Splitting.StratifiedSizes | analysis/binary-classify.py:112-117 | the part sizes are the sums of the two classes' cuts |
| Splitting.ClosedWorldScenario | analysis/binary-classify.py:112-117 | 100 samples of class 0 and 50 of class 1 split into 120, 15 and 15 |
| Splitting.OpenWorldSplit | analysis/binary-classify.py:97-107 | validation is empty; a uuid is in train exactly when its tag drew below p, and in test exactly when it did not; together they are the tagged uuids |
| Splitting.DrawnToOneSide | analysis/binary-classify.py:104-107 | with distinct tags, no tag goes to both train and test |
| Splitting.OpenWorldPartitions | analysis/binary-classify.py:97-107 | the open-world parts hold every labelled uuid exactly once |
| Splitting.OpenWorldTagsWhole | analysis/binary-classify.py:97-107 | no tag has uuids on both sides |
| Splitting.OpenWorldAllTrain | analysis/binary-classify.py:104-105 | with p = 1 every sample is trained on and the test set is empty |
| Splitting.FoldSplit | analysis/binary-classify.py:95-117 | a fold's split partitions the samples; in open world there is no validation set and a uuid is in train exactly when its tag drew below p and in test exactly when it did not; in closed world each class's parts are the cuts of its own shuffled list |
| Splitting.PlanFolds | analysis/binary-classify.py:75-121 | refuses exactly p > 1; otherwise ten splits, fold k being the split of fold k's own shuffles or draws, each partitioning the samples, whole by tag in open world and stratified in closed world |
| Training.FullBatches | analysis/binary-classify.py:139-144 | `drop_last` yields the largest number of whole batches of 128 that fit |
| Training.LastImprovement | analysis/binary-classify.py:166-168 | the latest epoch up to `e` whose loss is strictly below every earlier loss; none after it improves |
| Training.RunLength | analysis/binary-classify.py:148-173 | the epochs run: all of them, or one past the first epoch at which ten epochs in a row failed to improve |
| Training.Train | analysis/binary-classify.py:148-173 | the loop with `best_loss` and the patience counter runs exactly `RunLength` epochs |
| Training.GapBounded | analysis/binary-classify.py:169-173 | while patience lasts, the last improvement is at most ten epochs back |
| Training.StopsAfterPatience | analysis/binary-classify.py:166-173 | training ends at most eleven epochs after the last improvement |
| Training.RunBounds | analysis/binary-classify.py:148-173 | between 11 and 200 epochs run |
| Training.StopsEarlyIff | analysis/binary-classify.py:169-173 | training stops before the last epoch exactly when some earlier epoch exhausts patience |
| Training.NoBatchesStopsEarly | analysis/binary-classify.py:139-173 | with fewer than 128 training samples every epoch's loss is 0.0 and training stops after 11 epochs |
| Training.DecreasingRunsAll | analysis/binary-classify.py:166-168 | a strictly decreasing loss runs all epochs |
| Evaluation.Argmax | analysis/binary-classify.py:198 | the index of a maximal score, the first on a tie |
| Evaluation.Evaluated | analysis/binary-classify.py:176-177 | the test loader yields the longest prefix of whole batches: a multiple of 128, fewer than 128 left over |
| Evaluation.TestLabels | analysis/binary-classify.py:183-188 | one label per evaluated sample, the one stored for its uuid |
| Evaluation.Tally | analysis/binary-classify.py:193-209 | the if-chain's counters equal the confusion matrix counted cell by cell, class 0 positive |
| Evaluation.CountsAddUp | analysis/binary-classify.py:197-209 | the four counters plus the unexpected labels add up to the number of predictions |
| Evaluation.NothingUnexpected | analysis/binary-classify.py:208-209 | with 0/1 labels no prediction is left uncounted |
| Evaluation.ShareComplement | analysis/binary-classify.py:211-214 | fpr + tnr = 1 and tpr + fnr = 1 |
| Evaluation.FoldRates | analysis/binary-classify.py:211-215 | fails exactly when fp + tn or tp + fn is zero, first on fp + tn; otherwise accuracy and fpr are the shares of correct predictions and of false positives among class-1 samples, all rates lie in [0, 1], and complements add to 1 |
| Evaluation.PerfectFold | analysis/binary-classify.py:211-215 | no errors give accuracy 1, fpr 0, tpr 1, fnr 0, tnr 1 |
| Evaluation.EvaluateFold | analysis/binary-classify.py:176-218 | fails exactly on a zero denominator of the counted matrix; otherwise returns accuracy and fpr of that matrix |
| Evaluation.SmallTestSetFails | analysis/binary-classify.py:176-211 | a test set smaller than one batch yields no predictions, so the fpr division fails |

## Left out

- The DF network, the Adamax optimiser, the cross-entropy loss and softmax are
  not modelled. Training losses, one per epoch, and the softmax scores of the
  evaluated test samples are inputs.
- Randomness is an input: `np.random.shuffle` is any permutation, and
  `np.random.rand()` is a given draw per tag. The training loader's shuffle
  does not affect which samples are evaluated and is not modelled.
- The iteration order of `set(tags.values())` is Python's hash order and is an
  input (`tagOrder`). `set(labels.values())` is taken in the order 0 then 1,
  which is CPython's order for small integers.
- The validation part of a split is computed but never read by `run_df`, so it
  influences nothing beyond its own size.
- File access, `np.load` and `pickle.load`, the existence checks at the start of
  `main`, and every `print` are not modelled. The aggregation of fold results
  into mean and standard deviation (binary-classify.py:123-130) is left out
  because it only prints.
- Floating point: traces are integers (cell directions) in extraction and
  exact reals in the classifier. `float32` storage, NaN losses and rounding in
  the rates are not modelled. `int(n * 0.8)` and `int(n * 0.9)` are taken as
  `n * 8 / 10` and `n * 9 / 10`, which agree with the double computation for
  any realistic n.
- Identifiers are datatypes instead of formatted strings, so two distinct
  `(name, tag, fetch, index)` or `(name, tag, fetch, kind, index)` tuples are
  always distinct keys. The source's strings can coincide: fetch numbers and
  kinds are arbitrary integers, and tag "a" with fetch -1 renders
  `f"{name}-{tag}-{f}"` (extract-ol.py:72, extract-cf.py:43) as "n-a--1",
  the same as tag "a-" with fetch 1. Where the source would overwrite one
  sample with the other, the model keeps both. The classifier's uuids are
  integers.
- A negative `--length` (which would make `min` negative and slice from the
  end) is excluded by typing `length` as `nat`.
- The driver code of both extraction scripts (extract-ol.py:200-232,
  extract-cf.py:64-129), dataset-stats.py, dataset-to-files.py and the
  mirrored-onions scripts are not part of this model.
- Circuits.CircuitTrace: is total, giving an all-zero trace for a circuit
  without cells, where the `np.vectorize` mask raises ValueError
  (extract-ol.py:86, :149, :172; extract-cf.py:53). The three extraction
  functions return Err(EmptyCircuit) exactly when they would convert such a
  circuit, so no such trace reaches their results.
- Loading.Merge: the count assertion compares sizes only. Archives whose
  trace uuids differ from their tag uuids but match them in number pass it;
  the source then raises KeyError in `Dataset.__getitem__`
  (binary-classify.py:367-369) for a uuid without a trace. The model never
  looks traces up by uuid after loading, so this later failure is not
  modelled.
- Training.Train: requires exactly EPOCHS losses, one per epoch the loop may
  run; the losses of epochs after an early stop are unused.
- Evaluation.EvaluateFold: returns only the error kind on a zero denominator,
  where the source raises ZeroDivisionError and ends the run.

## Findings

| source | as written | input that shows it | evidently intended | confidence | as-written member | corrected member |
|---|---|---|---|---|---|---|
| analysis/binary-classify.py:62-70 | the baseline takes the first archive's size as class 0's count, although uuids present in both archives are relabelled 1 by the second load | uuid 1 in the first archive; uuids 1 and 2 in the second: all samples carry label 1, yet the baseline is max(1, 1)/2 = 1/2 | the larger class's share of the merged labels, here 1 | low (overlapping archives may never occur in practice); not executed | Loading.BaselineAsWritten, Loading.BaselineOverlapCounterexample | Loading.Baseline |

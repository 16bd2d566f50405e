# Evaluation engine of the singing-voice detection reproducibility study

This project models, in Dafny, the evaluation engine of `reproducibility.py`.
The engine scores binary audio classifiers, which label each track either
instrumental (`"i"`) or song (`"s"`). Its five pieces are:

- **Ground-truth loading** (`read_item_tag`). Each `id,tag\n` line of the
  ground-truth table becomes a dictionary entry. The key is the first comma
  field. The value is the second field without its last character. A later
  line with the same id overwrites an earlier one. A line without a comma
  aborts loading.
- **Threshold policy and prediction reading** (the loop shared by
  `experiment_2` and `experiment_3`). The algorithm name is the file name
  without its four-character extension. A name containing `Ghosal` is cut at
  0, any other at 0.5. Only lines whose id is in the ground truth are kept, in
  file order. A kept score strictly above the threshold becomes `"s"`; any
  other score becomes `"i"`.
- **Balanced-group partition** (`results_experiment_2`). `nb_instru` is the
  number of tags equal to `"i"`. Items whose tag contains `"i"` form a shared
  pool. The remaining (song) items are cut, in order, into chunks of exactly
  `nb_instru` items. The song item that arrives when a chunk is full closes
  that chunk and is dropped. A trailing short chunk is never emitted. Each
  chunk follows the full pool to form one group.
- **Accuracy per group.** Accuracy is the number of matching positions
  divided by the group length. The summary needs a mean and a sample standard
  deviation, so fewer than two groups abort the run.
- **Random baseline.** The ground truth is rebuilt as all its `"s"` tags
  followed by all its `"i"` tags. The predictions alternate `"s"`, `"i"`, with
  one extra `"s"` when the length is odd.

The filename rule of `clean_filenames` is modelled too: spaces, commas and
parentheses become underscores.

Modules, one per component: `GroundTruth` (ground_truth.dfy), `Threshold`
(threshold.dfy), `Predictions` (predictions.dfy), `Partition`
(partition.dfy), `Metrics` (metrics.dfy), `Baseline` (baseline.dfy) and
`Filenames` (filenames.dfy). They rest on three helper modules. `Strings`
holds the Python `str` operations the code uses. `Lists` holds
`[x] * n` and `list.count`. `Wrappers` holds `Option` and `Result`.

The source loops are methods with `while` loops. Each is proved against a
specification function: `ReadItemTag` against `ItemTags`, `ReadPredictions`
against `Records`, `Kept` and `Binarise`, `PartitionScan` against `InstruPreds`,
`SongPreds` and `Chunks`, and `GroupAccuracies` against `Accuracy`. The
properties of those functions are proved as lemmas.

Modelling choices:
- Tags stay strings. This keeps both label tests of the partition: equality
  for `nb_instru` (line 102) and containment for the scan (line 104).
  `Partition.BalancedWhenTagsAreLabels` shows the two agree when every tag is
  `"i"` or `"s"`. `Partition.PoolAndSongs` shows the pool can only be larger
  otherwise.
- A prediction line becomes a `ScoreRecord` (`Predictions.RecordOf`): its
  id, and its score as a real. Like the code (line 159), the model cuts the
  line's last character before splitting at commas. That character is the
  newline on a terminated line. On an unterminated last line it is the last
  character of the score, and on a line without a comma it is the last
  character of the id. The score is `None` when the line has no second field
  or the field does not read as a number. Such a line aborts reading only
  when its id is in the ground truth, because the source evaluates
  `float(row[1])` only then.
- An empty group has no accuracy (`None`): the library returns no number for
  empty input. A group is empty only when no tag contains `"i"`.
- The code inlines the threshold choice as a single `if`. The model follows
  the code (`Threshold.ThresholdFor`).

Behaviours of the code that the model keeps as written:
- With `nb_instru == 0`, every song item closes an empty chunk. The result is
  one empty group per song item, not zero groups
  (`Partition.ZeroInstrumentalChunks`).
- `read_item_tag` stores each tag as read. It does not classify tags; the only
  classification is the scan's containment test.
- The baseline predictions alternate over the whole ground-truth length, not
  over `2 * min(songs, instrumentals)` positions (`Baseline.BaselinePreds`).
- The song item that closes a chunk is dropped, not carried into the next
  chunk (`Partition.ChunksSnoc`, `Metrics.WorkedExampleGroups`).

## Model

| member | source | states |
|---|---|---|
| GroundTruth.ReadItemTag | reproducibility.py:87-92 | The line loop builds exactly the dictionary `ItemTags` describes: an entry per line in order, or the error at the first line without a comma |
| GroundTruth.ItemTags | reproducibility.py:88-92 | A failure names a line that exists; `GroundTruth.ItemTagsFails`, `ItemTagsKeys` and `ItemTagsLastWins` state which line, which keys and which values |
| GroundTruth.RowKey | reproducibility.py:90-91 | The key `line[0]` contains no comma; `GroundTruth.WellFormedRow` states it is the id of a well-formed line |
| GroundTruth.RowTag | reproducibility.py:90-91 | The value `line[1][:-1]` contains no comma; `GroundTruth.WellFormedRow` states it is the tag of a well-formed line |
| GroundTruth.WellFormedRow | reproducibility.py:89-91 | A line `id,tag\n` (no comma in id or tag) has key `id` and value `tag` |
| GroundTruth.UnterminatedRow | reproducibility.py:90-91 | An unterminated last line `id,tag` has key `id` but its tag loses its last character (`t6,i` gives the tag `""`) |
| GroundTruth.HasTagIff | reproducibility.py:90-91 | A line has a second field exactly when it contains a comma |
| GroundTruth.ItemTagsFails | reproducibility.py:89-91 | Loading fails exactly when some line lacks a comma, and the error names the first such line |
| GroundTruth.ItemTagsKeys | reproducibility.py:89-91 | The dictionary's keys are exactly the first fields of the lines |
| GroundTruth.ItemTagsLastWins | reproducibility.py:89-91 | For each key, the value comes from the last line with that key (a later duplicate overwrites) |
| GroundTruth.ErrorSticks | reproducibility.py:88-92 | After a malformed line, reading further lines does not change the outcome: the error stands |
| Threshold.AlgoNameOfFile | reproducibility.py:148 | For `dir/name.ext` or `name.ext` with a four-character extension and no `/` in name or extension, the algorithm name is `name` |
| Threshold.LastComponent | reproducibility.py:148 | `split("/")[-1]` has no `/` in it; `Threshold.AlgoNameOfFile` states which component it is |
| Threshold.ThresholdFor | reproducibility.py:150-154 | The threshold is one of the two constants, 0 or 0.5; `Threshold.ThresholdPolicy` states which name gets which |
| Threshold.Binarise | reproducibility.py:163 | The label is `"s"` or `"i"`; `Threshold.BinariseSpec` states when each |
| Threshold.AlgoName | reproducibility.py:148 | The algorithm name has no `/`: it comes from the last path component |
| Threshold.ThresholdPolicy | reproducibility.py:150-154 | Any name containing `Ghosal` gets threshold 0; a name without it gets 0.5 |
| Threshold.ThresholdExamples | reproducibility.py:150-154 | `Ghosal_v1` is cut at 0.0 and `AnyOtherAlgo` at 0.5 |
| Threshold.BinariseSpec | reproducibility.py:163 | The label is `"s"` or `"i"`, and `"s"` exactly when the score is strictly above the threshold; a score equal to the threshold is `"i"` |
| Predictions.LineFields | reproducibility.py:159 | `line[:-1].split(",")` has at least one field, so `row[0]` always exists |
| Predictions.Records | reproducibility.py:158-160 | One record per line of the file, record i being that of line i |
| Predictions.RecordOf | reproducibility.py:159-160 | A line's id is the first comma field of the line without its last character; a line with fewer than two fields has no score. Its behaviour on well-formed, unterminated and comma-less lines is stated by the three lemmas below |
| Predictions.RecordOfWellFormed | reproducibility.py:159-163 | A line `id,score\n` (no comma in id or score) has id `id` and the score its text reads as |
| Predictions.RecordOfUnterminated | reproducibility.py:159-163 | A last line `id,score` without a newline has id `id` but loses the last character of its score text before it is read |
| Predictions.RecordOfNoComma | reproducibility.py:159-163 | A line without a comma has no score, and its id is the line without its last character |
| Predictions.Kept | reproducibility.py:157-161 | The kept lines are exactly the lines whose id is in the ground truth, no more than the file has; order is kept (`Predictions.KeptAppend`) |
| Predictions.KeptAppend | reproducibility.py:158-163 | Filtering distributes over concatenation: the kept lines of `a + b` are those of `a` followed by those of `b`, so file order is preserved |
| Predictions.KeptSingle | reproducibility.py:161 | A single line is kept exactly when its id is in the ground truth |
| Predictions.ScanRecords | reproducibility.py:158-163 | Over the split lines: fails exactly when a kept line has no readable score, naming the first one. Otherwise both lists have the length of the kept lines; position j holds the tag of the j-th kept id and the binarised score of that line |
| Predictions.ReadPredictions | reproducibility.py:155-163 | For the raw lines read through `RecordOf`: fails exactly when some kept line's record has no score, naming the first such line. Otherwise both lists follow `Kept(Records(lines))` position by position: the ground-truth tag of the id and the binarised score |
| Partition.PartitionScan | reproducibility.py:95-117 | The pool holds every instrumental item's prediction in input order, with an `"i"` tag each. The song chunks are `Chunks(song predictions, nb_instru)`, each with `nb_instru` `"s"` tags |
| Partition.IsInstrumental | reproducibility.py:104 | The scan's test `"i" in tag` holds exactly when the letter `i` occurs in the tag |
| Partition.Residue | reproducibility.py:99-117 | The open chunk never holds more than `nb_instru` items; `Partition.ChunkDecomposition` states it is the suffix of the song items after the last closing item |
| Partition.NbInstru | reproducibility.py:102 | `nb_instru` is at most the number of items; `Partition.BalancedWhenTagsAreLabels` ties it to the pool size |
| Partition.InstruPreds | reproducibility.py:103-106 | The pool has at most one prediction per item; `Partition.PoolAndSongs` and `Metrics.PerfectPools` state its size and contents |
| Partition.SongPreds | reproducibility.py:103-117 | The song items are at most one per item; `Partition.PoolAndSongs` states that pool and song items share out the input |
| Partition.Chunks | reproducibility.py:107-117 | Every emitted chunk has exactly `nb_instru` items, and there are no more chunks than song items; `Partition.ChunkAt`, `ChunksSnoc` and `ChunkDecomposition` state which items |
| Partition.ChunksSnoc | reproducibility.py:107-117 | One more song item either closes a full open chunk, emitting it and being dropped, or joins the open chunk |
| Partition.ChunkAt | reproducibility.py:108-117 | Chunk g has exactly `nb_instru` items: the song items from position `g * (nb_instru + 1)` on, in input order. The item right after chunk g exists and closes it |
| Partition.ChunkDecomposition | reproducibility.py:108-117 | The song items are the emitted chunks with their closing items, followed by the open chunk, which is never emitted |
| Partition.ChunkCount | reproducibility.py:101-117 | With n song items there are `n div (nb_instru + 1)` chunks, and `n mod (nb_instru + 1)` items are left unemitted at the end |
| Partition.ZeroInstrumentalChunks | reproducibility.py:108-113 | With `nb_instru == 0`, each song item closes an empty chunk: one empty chunk per song item |
| Partition.TwoChunksIff | reproducibility.py:121-128 | There are at least two groups (needed for the sample standard deviation) exactly when there are at least `2 * (nb_instru + 1)` song items |
| Partition.PoolAndSongs | reproducibility.py:102-106 | Every input item is in the pool or among the song items, and the pool has at least `nb_instru` items |
| Partition.BalancedWhenTagsAreLabels | reproducibility.py:102-104 | When every tag is `"i"` or `"s"`, the pool has exactly `nb_instru` items and the song items are the `"s"` tags |
| Metrics.Accuracy | reproducibility.py:124 | A group has an accuracy exactly when it is non-empty; `Metrics.AccuracySpec` states its range and when it is 1 |
| Metrics.AccuracySpec | reproducibility.py:124 | The accuracy of a non-empty group lies in [0, 1]. It is 1 exactly when every prediction equals its label |
| Metrics.MatchesAllIff | reproducibility.py:124 | The match count equals the length exactly when every position matches |
| Metrics.GroupAccuracies | reproducibility.py:119-124 | One accuracy per group, in group order, for group = pool followed by chunk |
| Metrics.Matches | reproducibility.py:124 | The number of matching positions is at most the group length; `Metrics.MatchesAllIff` states when it equals it |
| Metrics.GroupTruths | reproducibility.py:119-122 | A group's labels are the pool's size plus `nb_instru` long, and position j is `"i"` exactly when it lies within the pool |
| Metrics.GroupCount | reproducibility.py:119-121 | There are no more groups than input items; `Partition.ChunkCount` gives the exact number |
| Metrics.GroupPreds | reproducibility.py:121-123 | A group's predictions are as long as its labels: pool size plus `nb_instru` |
| Metrics.ResultsExperiment2 | reproducibility.py:94-128 | The group count is `song items div (nb_instru + 1)`. Fewer than two groups abort the run. Otherwise the row has one accuracy per group, group g being the pool followed by chunk g |
| Metrics.PerfectPredictionsScoreOne | reproducibility.py:101-124 | With `"i"`/`"s"` tags and every prediction equal to its tag, each group's predictions equal its labels, so each non-empty group has accuracy 1 |
| Metrics.PerfectPools | reproducibility.py:103-116 | Under perfect predictions the pool predicts only `"i"` and the song items only `"s"` |
| Metrics.BalancedGroupSize | reproducibility.py:101-123 | With `"i"`/`"s"` tags every group's labels are `nb_instru` `"i"` then `nb_instru` `"s"`, and its predictions have `2 * nb_instru` items |
| Metrics.WorkedExampleBinarised | reproducibility.py:150-163 | The example's predictions are the scores 0.9, 0.1, 0.6, 0.4, 0.8, 0.2 binarised at the threshold of a name without `Ghosal` (0.5) |
| Metrics.WorkedExampleScan | reproducibility.py:101-117 | Tags i,i,s,s,s,s with predictions s,i,s,i,s,i: `nb_instru` is 2, pool (s,i), song items (s,i,s,i) |
| Metrics.WorkedExampleGroups | reproducibility.py:108-123 | In that example the fifth item closes the first chunk and is dropped, and the sixth is left unemitted: exactly one group, pool (s,i) and chunk (s,i) |
| Metrics.WorkedExampleAccuracy | reproducibility.py:124 | That single group has accuracy 1/2 |
| Metrics.LabelTests | reproducibility.py:104 | `"i"` passes the instrumental test and `"s"` does not |
| Baseline.RandomBaseline | reproducibility.py:168-171 | The baseline's two lists have equal length; `Baseline.BaselineTruths` and `BaselinePreds` state their contents |
| Baseline.Alternating | reproducibility.py:169 | `["s","i"] * n` has `2n` items; `Baseline.AlternatingAt` states which is where |
| Baseline.BaselineTruths | reproducibility.py:168 | The rebuilt ground truth keeps the counts of `"s"` and `"i"`, with all `"s"` first and all `"i"` after |
| Baseline.BaselinePreds | reproducibility.py:169-171 | The baseline predictions are exactly as long as the ground truth; position j is `"s"` exactly when j is even |
| Baseline.AlternatingAt | reproducibility.py:169 | `["s","i"] * n` has `"s"` at even and `"i"` at odd positions |
| Filenames.CleanFilename | reproducibility.py:44-48 | The new name is as long as the old; `Filenames.CleanFilenameAt` and `CleanFilenameIdempotent` state which characters change |
| Filenames.CleanFilenameAt | reproducibility.py:44-48 | The new name is as long as the old; each space, comma or parenthesis becomes `_` and every other character stays |
| Filenames.CleanFilenameIdempotent | reproducibility.py:44-48 | The new name contains no space, comma or parenthesis, and cleaning it again changes nothing |
| Strings.ContainsIff | reproducibility.py:150 | `pat in s` holds exactly when `pat` occurs at some position of `s` |
| Strings.ContainsChar | reproducibility.py:104 | `"i" in tag` holds exactly when the letter `i` occurs in the tag |
| Strings.JoinSplit | reproducibility.py:90 | `split(",")` loses nothing: joining the fields with the separator gives the line back |
| Strings.Contains | reproducibility.py:150 | `pat in s` (also line 104) can only hold when `pat` is no longer than `s`; `Strings.ContainsIff` states when it holds |
| Strings.DropLast | reproducibility.py:148 | `s[:-n]` (also lines 91 and 159) is a prefix of `s` with `n` fewer characters, and empty when `s` has at most `n` characters (`""[:-1] == ""`, `"abcd"[:-4] == ""`) |
| Strings.ReplaceChar | reproducibility.py:45-48 | `s.replace(a, b)` keeps the length and replaces exactly the occurrences of `a` by `b`, position by position |
| Lists.Repeat | reproducibility.py:168 | `[x] * n` has `n` items, all equal to `x` |
| Lists.Count | reproducibility.py:102 | `xs.count(x)` (also line 168) is at most `len(xs)`; `Lists.CountAppend` and `CountRepeat` state how it adds up |
| Strings.Split | reproducibility.py:90 | `split` yields at least one field, and no field contains the separator |

## Left out

- File and directory I/O: opening files, `os.listdir`, `os.rename`, `utils.abs_path_file` and `utils.create_dir`. Files enter as sequences of lines.
- The loop of `experiment_2` and `experiment_3` over the prediction directory. Its per-file steps are modelled: `AlgoName`, `ThresholdFor`, `ReadPredictions` and `ResultsExperiment2`.
- Reading a score's text as a number (`float(row[1])`). It is a parameter `readScore` of `RecordOf`, giving a real or `None` when the text does not read as a number.
- The weighted F1, precision and recall of the library (lines 125 and 199-203). Only accuracy is modelled, as an exact ratio.
- The mean, the sample standard deviation and their printing (lines 127-128). Only their failure on fewer than two groups is modelled, as `TooFewGroups`.
- Appending the accuracy and F1 rows to `table2_accuracy.csv` and `table2_f1.csv` (lines 129-139), and all console output. These are I/O.
- Experiment 3's report (lines 199-214): library metrics printed to the console. Its reading loop is the same as experiment 2's and is modelled by `ReadPredictions`.
- Where the baseline's tags come from: the source reuses the tags of the last prediction file read. `RandomBaseline` takes them as a parameter.
- `yaafe_feat_extraction`, `clean` and `main`: shell commands, directory removal, and orchestration through modules that are not part of this model.
- Metrics.ResultsExperiment2: an empty group's accuracy is `None`, where the library would produce a not-a-number value.

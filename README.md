# PSENet training script — bookkeeping core in Dafny

This project models the bookkeeping of `train_ee.py`, the training script of
the PSENet sleep-staging network. It leaves out the neural network and covers
the four parts that decide what ends up on disk and where training restarts:

- **`AverageMeter`** (`meter.dfy`, module `Meter`) is a class with the
  fields `val`, `avg`, `sum` and `count`. A ghost history of the `update`
  calls ties `sum` and `count` to a weighted sum and a total weight. Lemmas
  show that, with positive weights, the running average lies between the
  smallest and the largest value.
- **`init_path`** (`run_directory.dfy`, module `RunDirectory`) builds the
  three nested run directories `{name}-{loss}`, `…/{dataset}` and
  `…/{dataset}/{fold}`. The mkdir-if-absent loop is a method proved against
  `Created`, a specification function. Lemmas show that:
  - the walk makes exactly the missing directories, each once;
  - a second call makes nothing;
  - different folds get different directories.
- **Best-checkpoint retention in `train`** (`checkpoints.dfy`, module
  `Checkpoints`). The epoch loop is a method proved equal to `Run`, a fold of
  one-epoch `Step`s over the epoch results. Lemmas relate `Run` to reference
  definitions:
  - `best_acc` is `max(0, validation accuracies)`;
  - `file_name` belongs to the last epoch that saved;
  - the disk loses every file the loop wrote except that one;
  - files the loop did not write survive.
- **The resume decision of `get_model`** (`resume.dfy`, module `Resume`)
  takes the last path of the `glob` listing and parses the epoch from its
  basename. The helpers it needs are in `strings.dfy`, module `Strings`:
  `str`/`int` on integers, POSIX `basename`, and `split('-')[0]`. Lemmas show
  that:
  - a checkpoint name parses back to its epoch;
  - a run of at least one epoch that starts without `*.pt` files in its
    directory leaves exactly one there (the first epoch always saves,
    because `test` reports a percentage of 0 or more);
  - resuming from any listing of that directory starts at the epoch after
    the best one.

The filesystem is the set of paths that exist. Each epoch's outcome is an
`EpochResult`: its validation accuracy (a real) and its test accuracy,
already formatted with `{:.4f}` (a string).

A reader of the script might expect a few properties that the code does
not have. The model follows the code:

- **Resumed runs.** One might expect at most one checkpoint per fold
  directory at any time. But `train` starts every call with
  `file_name = ''` (`train_ee.py:137`). So a run resumed by `get_model`
  never removes the checkpoint that an earlier run left behind. Once the
  resumed run saves, the directory holds two `*.pt` files. The lemma
  `Resume.ResumedRunKeepsEarlierCheckpoint` states this. The one-file
  property (`Resume.OneCheckpointLeft`) is proved for a run that starts
  without `*.pt` files.
- **Listing order.** One might expect the lexicographically last match, or
  the highest epoch, to be loaded. But `glob` (`train_ee.py:116`) returns paths in directory
  order and the code does not sort them. The model therefore accepts any
  listing of the matching paths.
- **Division by zero.** One might expect `update` never to fail. But
  `self.sum / self.count` raises `ZeroDivisionError` when the new count
  is 0. `Update` reports this as `raised`. In that case `val`,
  `sum` and `count` are already assigned and `avg` keeps its old value.
- **Round-trip condition.** The checkpoint-name round trip needs no `'/'` in
  the formatted accuracy. A `'-'` in it does no harm, because the epoch
  digits come before the first `'-'`.

## Model

| member | source | states |
|---|---|---|
| Meter.AverageMeter.constructor | train_ee.py:15-22 | a new meter has `val`, `avg`, `sum` and `count` all 0 and an empty history |
| Meter.AverageMeter.Reset | train_ee.py:18-22 | all four fields become 0 and the history is emptied; the meter is valid again |
| Meter.AverageMeter.Update | train_ee.py:24-28 | `val` becomes the value; `sum` grows by `val * n` and `count` by `n`; the sample is appended to the history, so `sum` and `count` stay the weighted sum and total weight of all samples since the last reset; `avg` becomes their quotient; when the new count is 0 the division raises and `avg` is left unchanged |
| Meter.PositiveWeightsCount | train_ee.py:24-28 | with positive weights the count is at least the number of updates, so `update` never divides by zero after the first call |
| Meter.UnitWeights | train_ee.py:24-28 | with the default weight `n=1` the count is the number of updates and the sum is the plain sum of the values |
| Meter.WeightedSumBounds | train_ee.py:26-27 | with positive weights and values in `[lo, hi]`, the sum lies between `lo * count` and `hi * count` |
| Meter.MeanBetweenExtremes | train_ee.py:26-28 | with positive weights, the running average of values in `[lo, hi]` is itself in `[lo, hi]` |
| Strings.NatToString | train_ee.py:81 | decimal text of a natural number: at least one digit, all digits, no leading zero |
| Strings.IntToString | train_ee.py:81 | decimal text of an integer: non-empty, and it starts with `-` exactly when the integer is negative |
| Strings.ParseInt | train_ee.py:119 | `int(s)` succeeds exactly on an optional `+` or `-` followed by at least one digit, and raises `ValueError` (`None`) on every other text; a success without `-` in the text is non-negative |
| Strings.ParseIntToString | train_ee.py:119 | `int(str(i)) == i` for every integer |
| Strings.IntToStringInjective | train_ee.py:81 | distinct integers have distinct decimal texts |
| Strings.Basename | train_ee.py:119 | `os.path.basename(p)` is no longer than `p`; `Strings.BasenameIsLastSegment` characterises it fully |
| Strings.BasenameIsLastSegment | train_ee.py:119 | `basename(p)` is the longest suffix of `p` without `/`: it has no `/` and ends `p`, and the character before it is `/` |
| Strings.BasenameOfJoin | train_ee.py:119 | the basename of `dir + "/" + name` is `name` when `name` has no `/` |
| Strings.FirstField | train_ee.py:119 | `s.split(sep)[0]` is a prefix of `s` without `sep`, followed in `s` by `sep` when shorter than `s` |
| Strings.FirstFieldOfJoin | train_ee.py:119 | `(a + sep + b).split(sep)[0] == a` when `a` has no `sep` |
| RunDirectory.SavePaths | train_ee.py:78-82 | three paths, each the previous one plus `/` and a segment, starting from `{name}-{loss}` and ending with the fold's decimal text |
| RunDirectory.CreatedIsMissing | train_ee.py:83-85 | the mkdir walk makes exactly the paths that did not exist, each once |
| RunDirectory.MakeMissing | train_ee.py:83-85 | the loop makes the directories `Created` specifies, in order, and afterwards every listed path exists along with everything that existed before |
| RunDirectory.InitPath | train_ee.py:77-89 | the save path is `{name}-{loss}/{dataset}/{fold}`, the last of the three; the directories made and the paths existing afterwards are those of `MakeMissing` |
| RunDirectory.CreatedNothingWhenPresent | train_ee.py:83-85 | when every path exists, the walk makes nothing |
| RunDirectory.InitPathIdempotent | train_ee.py:77-89 | a second `init_path` with the same arguments makes no directory |
| RunDirectory.FoldDirectoriesDistinct | train_ee.py:81 | different folds get different run directories |
| Checkpoints.CheckpointName | train_ee.py:184 | `'{save_path}/{epoch}-{acc}.pt'` is never empty, so a saved `file_name` is always truthy |
| Checkpoints.Step | train_ee.py:179-185 | one epoch: `best_acc` becomes the maximum; an accuracy below the best changes nothing; otherwise the new name is on disk and the previous `file_name` is removed |
| Checkpoints.Run | train_ee.py:152-185 | over the epochs, `best_acc` never falls below its initial value |
| Checkpoints.Accuracy | train_ee.py:109 | `100 * correct / total` is a percentage: at least 0, at most 100 when `correct <= total`, and 0 exactly when nothing is correct |
| Checkpoints.FirstEpochSaves | train_ee.py:179 | with the first epoch's validation accuracy computed by `test`, that epoch saves, so a run of at least one epoch retains a checkpoint |
| Checkpoints.Train | train_ee.py:152-185 | the loop `for epoch in range(start_epoch, args.epoch)` visits the epochs in order and ends in the state `Run` gives from `best_acc = 0`, `file_name = ''` |
| Checkpoints.Best | train_ee.py:136 | the reference for `best_acc`: at least 0, at least every validation accuracy, and equal to one of them unless 0 |
| Checkpoints.LastSaved | train_ee.py:179 | the last epoch whose accuracy reaches the best before it, or -1; no later epoch saves |
| Checkpoints.SavedIsWritten | train_ee.py:184-185 | every epoch that saves writes its checkpoint name |
| Checkpoints.WrittenIsSaved | train_ee.py:179-185 | every name the loop writes belongs to an epoch that saves |
| Checkpoints.RunBest | train_ee.py:179-180 | after the loop, `best_acc` is the best validation accuracy, and 0 when none reaches 0 |
| Checkpoints.RetainedOfSnoc | train_ee.py:179-184 | one more epoch changes the retained name exactly when it saves |
| Checkpoints.RunFileName | train_ee.py:182-184 | after the loop, `file_name` is the checkpoint of the last epoch that saved, or `''` |
| Checkpoints.RunDisk | train_ee.py:182-185 | after the loop, the disk is the initial one minus every file the loop wrote, plus the retained checkpoint |
| Checkpoints.AtMostOneOwnCheckpoint | train_ee.py:182-185 | of the files the loop wrote, only `file_name` remains on disk |
| Checkpoints.EarlierFilesSurvive | train_ee.py:182-183 | a file the loop did not write and that existed before is still there |
| Checkpoints.BestNeverDecreases | train_ee.py:179-180 | `best_acc` after fewer epochs is at most `best_acc` after more |
| Checkpoints.LastSavedIsLastBest | train_ee.py:179 | when some validation accuracy is at least 0, a checkpoint is retained: that of the last epoch with the best accuracy, and every later epoch is strictly worse |
| Resume.EpochOfCheckpoint | train_ee.py:119 | the epoch parsed from a basename's first `-` field is never negative |
| Resume.StartEpoch | train_ee.py:113-123 | training starts fresh exactly when resuming is off or nothing is found; otherwise the last listed file is used, and either its name fails to parse (a `ValueError`) or training restarts at the epoch parsed from its basename plus one, which is at least 1 |
| Resume.MalformedNameIffNotNumeric | train_ee.py:119 | resuming raises `ValueError` exactly when the text before the first `-` of the last file's basename is not an optionally signed number |
| Resume.CheckpointBasename | train_ee.py:119 | the basename of a checkpoint name is `{epoch}-{acc}.pt` |
| Resume.CheckpointEpochRoundTrip | train_ee.py:119 | the epoch parsed from a checkpoint name is the epoch it was written for |
| Resume.ResumeAfterCheckpoint | train_ee.py:116-120 | a listing that ends with the checkpoint of epoch `e` resumes at `e + 1` with that file |
| Resume.Glob | train_ee.py:116 | `glob` over the disk finds only paths that exist, namely those `Resume.InGlob` accepts |
| Resume.InGlobMatches | train_ee.py:116 | `Resume.InGlob` holds exactly when the path is the directory, a `/`, and one more segment that is non-empty, not hidden and ends in `.pt` |
| Resume.CheckpointInGlob | train_ee.py:116 | every checkpoint `train` writes matches `glob('{save_path}/' + '*.pt')` |
| Resume.GlobAfterRetention | train_ee.py:116 | after the loop's removals and one save in a directory with no `*.pt` files, the glob finds only the saved file |
| Resume.OneCheckpointLeft | train_ee.py:116 | a run from a directory without `*.pt` files, in which some validation accuracy is at least 0, leaves exactly one `*.pt` file: that of the last best epoch |
| Resume.TrainThenResume | train_ee.py:113-123 | after such a run, resuming from any listing of the directory loads that checkpoint and restarts at the epoch after it |
| Resume.ResumedRunKeepsEarlierCheckpoint | train_ee.py:137 | a resumed run that saves leaves both the earlier run's checkpoint and its own in the directory |

## Left out

- The network, the optimiser, the loss functions, `DataLoader`, device selection and all tensor arithmetic are left out. Each epoch's validation accuracy and formatted test accuracy are inputs, because they come from code outside this model.
- `test` is left out except for its accuracy formula `100. * correct / len_target_dataset` (`Checkpoints.Accuracy`). The counting of correct predictions needs the network. Its use of `AverageMeter` is the class modelled here. An empty split, where that division raises, is not modelled.
- The training accuracy and loss of each epoch are left out, because they are only logged.
- `MData`, `get_dataset`, the command-line parsing and the loop over folds are left out.
- Logging is left out: `get_logger`, the creation of `log.txt`, and every `logger.info` call.
- Floating point is modelled as exact reals. Python starts `AverageMeter` with integer zeros and the script only passes floats, so the model uses reals throughout.
- `{:.4f}` formatting is not modelled. The formatted test accuracy is an arbitrary string.
- Strings.ParseInt: models only an optional sign followed by ASCII digits. Python's `int` also accepts surrounding whitespace, `_` separators and non-ASCII digits; the model rejects them.
- The filesystem is a set of paths, with no distinction between files and directories. `os.path.exists` is membership, `os.mkdir` and `torch.save` add a path, `os.remove` removes one, and `glob` is a filter over the set (`Resume.Glob`) whose order is arbitrary. A `mkdir` that fails because a parent is missing or the path is a file is not modelled. The contents of a checkpoint are not modelled either.
- Resume.Glob: glob metacharacters inside the directory name are treated as literal text.
- Concurrent processes that change the run directory are not modelled.

/**
 * Best-checkpoint retention in the epoch loop of `train`. Each epoch yields a
 * validation accuracy and the test accuracy already formatted with `{:.4f}`;
 * whenever the validation accuracy reaches the best so far, the previously
 * written checkpoint is removed and `{save_path}/{epoch}-{test_acc}.pt` is
 * written. The filesystem is the set of paths that exist.
 */
module Checkpoints {
  import opened Strings

  /** What one epoch's evaluations contribute to the retention decision. */
  datatype EpochResult = EpochResult(validAcc: real, testAccText: string)

  /**
   * `100. * correct / len_target_dataset` of `test`: the percentage of the
   * `total` examples of a split that were classified correctly.
   */
  function Accuracy(correct: nat, total: nat): (a: real)
    requires 0 < total
    ensures 0.0 <= a
    ensures correct <= total ==> a <= 100.0
    ensures correct == 0 <==> a == 0.0
  {
    100.0 * correct as real / total as real
  }

  /**
   * When each epoch's validation accuracy is computed by `test`, the first
   * epoch of a run always writes a checkpoint, so a run of at least one
   * epoch retains one.
   */
  lemma {:induction false} FirstEpochSaves(rs: seq<EpochResult>, correct: nat, total: nat)
    requires rs != [] && 0 < total && rs[0].validAcc == Accuracy(correct, total)
    ensures Saved(rs, 0) && 0 <= LastSaved(rs)
  {
    assert rs[..0] == [];
    assert Saved(rs, 0);
    var k := LastSaved(rs);
    if k < 0 {
      assert false;
    }
  }

  /** `'{}/{}-{:.4f}.pt'.format(save_path, epoch, test_acc)`. */
  function CheckpointName(savePath: string, epoch: nat, accText: string): (name: string)
    ensures name != ""
  {
    savePath + "/" + CheckpointBase(epoch, accText)
  }

  /** The part of a checkpoint name after the save path and its '/'. */
  function CheckpointBase(epoch: nat, accText: string): string {
    NatToString(epoch) + "-" + accText + ".pt"
  }

  /** The loop's state: `best_acc`, `file_name` and the paths on disk. */
  datatype Retention = Retention(bestAcc: real, fileName: string, disk: set<string>)

  /** The state before the first epoch: `best_acc = 0`, `file_name = ''`. */
  function Initial(disk: set<string>): Retention {
    Retention(0.0, "", disk)
  }

  /** The checkpoint decision of one epoch. */
  function Step(s: Retention, savePath: string, epoch: nat, r: EpochResult): (t: Retention)
    ensures t.bestAcc == if s.bestAcc < r.validAcc then r.validAcc else s.bestAcc
    ensures r.validAcc < s.bestAcc ==> t == s
    ensures s.bestAcc <= r.validAcc ==>
      && t.fileName == CheckpointName(savePath, epoch, r.testAccText)
      && t.fileName in t.disk
      && t.disk - {t.fileName} == (if s.fileName == "" then s.disk else s.disk - {s.fileName}) - {t.fileName}
  {
    if s.bestAcc <= r.validAcc then
      var kept := if s.fileName != "" && s.fileName in s.disk then s.disk - {s.fileName} else s.disk;
      var name := CheckpointName(savePath, epoch, r.testAccText);
      Retention(r.validAcc, name, kept + {name})
    else s
  }

  /** The state after the epochs `start, start + 1, ...` whose results are `rs`, in that order. */
  function Run(s0: Retention, savePath: string, start: nat, rs: seq<EpochResult>): (s: Retention)
    ensures s0.bestAcc <= s.bestAcc
  {
    if rs == [] then s0
    else Step(Run(s0, savePath, start, rs[..|rs| - 1]), savePath, start + |rs| - 1, rs[|rs| - 1])
  }

  /**
   * The epoch loop of `train`, from `start_epoch` up to `args.epoch - 1`;
   * `results[k]` is what epoch `startEpoch + k` reports. Returns the final
   * `best_acc`, `file_name` and disk, and the epochs it visited.
   */
  method Train(savePath: string, startEpoch: nat, epochCount: int, results: seq<EpochResult>, disk: set<string>)
    returns (bestAcc: real, fileName: string, diskAfter: set<string>, ghost epochs: seq<int>)
    requires |results| == if startEpoch < epochCount then epochCount - startEpoch else 0
    ensures Retention(bestAcc, fileName, diskAfter) == Run(Initial(disk), savePath, startEpoch, results)
    ensures |epochs| == |results| && forall k :: 0 <= k < |epochs| ==> epochs[k] == startEpoch + k
  {
    bestAcc, fileName, diskAfter, epochs := 0.0, "", disk, [];
    var epoch := startEpoch;
    while epoch < epochCount
      invariant startEpoch <= epoch && epoch - startEpoch <= |results|
      invariant epoch < epochCount ==> epoch - startEpoch < |results|
      invariant epoch >= epochCount ==> epoch - startEpoch == |results|
      invariant |epochs| == epoch - startEpoch && forall k :: 0 <= k < |epochs| ==> epochs[k] == startEpoch + k
      invariant Retention(bestAcc, fileName, diskAfter) == Run(Initial(disk), savePath, startEpoch, results[..epoch - startEpoch])
    {
      var r := results[epoch - startEpoch];
      assert results[..epoch - startEpoch + 1][..epoch - startEpoch] == results[..epoch - startEpoch];
      if bestAcc <= r.validAcc {
        bestAcc := r.validAcc;
        if fileName != "" && fileName in diskAfter {
          diskAfter := diskAfter - {fileName};
        }
        fileName := CheckpointName(savePath, epoch, r.testAccText);
        diskAfter := diskAfter + {fileName};
      }
      epochs := epochs + [epoch];
      epoch := epoch + 1;
    }
    assert results[..epoch - startEpoch] == results;
  }

  /** `max(0, validation accuracies)`: the reference for `best_acc`. */
  function Best(rs: seq<EpochResult>): (b: real)
    ensures 0.0 <= b
    ensures forall i :: 0 <= i < |rs| ==> rs[i].validAcc <= b
    ensures b == 0.0 || exists i :: 0 <= i < |rs| && rs[i].validAcc == b
  {
    if rs == [] then 0.0
    else
      var b := Best(rs[..|rs| - 1]);
      assert forall i :: 0 <= i < |rs| - 1 ==> rs[..|rs| - 1][i] == rs[i];
      if b < rs[|rs| - 1].validAcc then rs[|rs| - 1].validAcc else b
  }

  /** Epoch `i` writes a checkpoint: its validation accuracy reaches the best of the epochs before it. */
  predicate Saved(rs: seq<EpochResult>, i: nat)
    requires i < |rs|
  {
    Best(rs[..i]) <= rs[i].validAcc
  }

  /** The index of the last epoch that writes a checkpoint, or -1 when none does. */
  function LastSaved(rs: seq<EpochResult>): (k: int)
    ensures -1 <= k < |rs|
    ensures k >= 0 ==> Saved(rs, k)
    ensures forall j :: k < j < |rs| ==> !Saved(rs, j)
  {
    if rs == [] then -1
    else if Saved(rs, |rs| - 1) then |rs| - 1
    else
      var k := LastSaved(rs[..|rs| - 1]);
      SavedOfPrefix(rs, |rs| - 1);
      k
  }

  lemma {:induction false} SavedOfPrefix(rs: seq<EpochResult>, n: nat)
    requires n <= |rs|
    ensures forall j :: 0 <= j < n ==> Saved(rs[..n], j) == Saved(rs, j)
  {
    forall j | 0 <= j < n
      ensures Saved(rs[..n], j) == Saved(rs, j)
    {
      SavedAtPrefix(rs, n, j);
    }
  }

  lemma {:induction false} SavedAtPrefix(rs: seq<EpochResult>, n: nat, j: nat)
    requires j < n <= |rs|
    ensures rs[..n][j] == rs[j]
    ensures Saved(rs[..n], j) == Saved(rs, j)
  {
    assert rs[..n][..j] == rs[..j];
  }

  /** The checkpoint names the epochs of `rs` write over the whole loop. */
  function Written(savePath: string, start: nat, rs: seq<EpochResult>): set<string> {
    if rs == [] then {}
    else
      var n := |rs| - 1;
      Written(savePath, start, rs[..n]) +
      (if Saved(rs, n) then {CheckpointName(savePath, start + n, rs[n].testAccText)} else {})
  }

  /** Every epoch that saves contributes its checkpoint name to `Written`. */
  lemma {:induction false} SavedIsWritten(savePath: string, start: nat, rs: seq<EpochResult>, i: nat)
    requires i < |rs| && Saved(rs, i)
    ensures CheckpointName(savePath, start + i, rs[i].testAccText) in Written(savePath, start, rs)
  {
    var n := |rs| - 1;
    if i < n {
      SavedAtPrefix(rs, n, i);
      SavedIsWritten(savePath, start, rs[..n], i);
    }
  }

  /** Every name in `Written` is the checkpoint name of an epoch that saves. */
  lemma {:induction false} WrittenIsSaved(savePath: string, start: nat, rs: seq<EpochResult>, f: string)
    requires f in Written(savePath, start, rs)
    ensures exists i :: 0 <= i < |rs| && Saved(rs, i) && f == CheckpointName(savePath, start + i, rs[i].testAccText)
  {
    var n := |rs| - 1;
    if f in Written(savePath, start, rs[..n]) {
      WrittenIsSaved(savePath, start, rs[..n], f);
      var i :| 0 <= i < n && Saved(rs[..n], i) && f == CheckpointName(savePath, start + i, rs[..n][i].testAccText);
      SavedAtPrefix(rs, n, i);
    } else {
      assert Saved(rs, n) && f == CheckpointName(savePath, start + n, rs[n].testAccText);
    }
  }

  /** The file name that survives the loop, or `''` when no epoch wrote one. */
  function Retained(savePath: string, start: nat, rs: seq<EpochResult>): string {
    var k := LastSaved(rs);
    if k < 0 then "" else CheckpointName(savePath, start + k, rs[k].testAccText)
  }

  /** `best_acc` after the loop is the best validation accuracy, and at least 0. */
  lemma {:induction false} RunBest(disk: set<string>, savePath: string, start: nat, rs: seq<EpochResult>)
    ensures Run(Initial(disk), savePath, start, rs).bestAcc == Best(rs)
  {
    if rs != [] {
      RunBest(disk, savePath, start, rs[..|rs| - 1]);
    }
  }

  /** How the retained name changes when one more epoch is appended. */
  lemma {:induction false} RetainedOfSnoc(savePath: string, start: nat, rs: seq<EpochResult>)
    requires rs != []
    ensures var n := |rs| - 1;
      Retained(savePath, start, rs) ==
        if Saved(rs, n) then CheckpointName(savePath, start + n, rs[n].testAccText)
        else Retained(savePath, start, rs[..n])
  {
    var n := |rs| - 1;
    if !Saved(rs, n) {
      var k := LastSaved(rs[..n]);
      if k >= 0 {
        assert rs[..n][k] == rs[k];
      }
    }
  }

  /** `file_name` after the loop is the checkpoint of the last epoch that wrote one. */
  lemma {:induction false} RunFileName(disk: set<string>, savePath: string, start: nat, rs: seq<EpochResult>)
    ensures Run(Initial(disk), savePath, start, rs).fileName == Retained(savePath, start, rs)
  {
    if rs != [] {
      var n := |rs| - 1;
      RunFileName(disk, savePath, start, rs[..n]);
      RunBest(disk, savePath, start, rs[..n]);
      RetainedOfSnoc(savePath, start, rs);
    }
  }

  /**
   * The disk after the loop is the initial one without any file the loop
   * wrote, plus the one checkpoint it retains.
   */
  lemma {:induction false} RunDisk(disk: set<string>, savePath: string, start: nat, rs: seq<EpochResult>)
    ensures var s := Run(Initial(disk), savePath, start, rs);
      s.disk == (disk - Written(savePath, start, rs)) + (if s.fileName == "" then {} else {s.fileName})
  {
    if rs != [] {
      var n := |rs| - 1;
      var prev := Run(Initial(disk), savePath, start, rs[..n]);
      RunDisk(disk, savePath, start, rs[..n]);
      RunBest(disk, savePath, start, rs[..n]);
      RunFileName(disk, savePath, start, rs[..n]);
      assert prev.fileName != "" ==> prev.fileName in Written(savePath, start, rs[..n]) by {
        if prev.fileName != "" {
          SavedIsWritten(savePath, start, rs[..n], LastSaved(rs[..n]));
        }
      }
    }
  }

  /** The loop never leaves more than one of the checkpoint files it wrote. */
  lemma {:induction false} AtMostOneOwnCheckpoint(disk: set<string>, savePath: string, start: nat, rs: seq<EpochResult>, f: string)
    requires f in Run(Initial(disk), savePath, start, rs).disk
    requires f in Written(savePath, start, rs)
    ensures f == Run(Initial(disk), savePath, start, rs).fileName
  {
    RunDisk(disk, savePath, start, rs);
  }

  /**
   * A file that was on disk before the loop and that the loop did not write
   * is still there afterwards: the loop only removes what it wrote itself.
   */
  lemma {:induction false} EarlierFilesSurvive(disk: set<string>, savePath: string, start: nat, rs: seq<EpochResult>, f: string)
    requires f in disk && f !in Written(savePath, start, rs)
    ensures f in Run(Initial(disk), savePath, start, rs).disk
  {
    RunDisk(disk, savePath, start, rs);
  }

  lemma {:induction false} BestOfPrefix(rs: seq<EpochResult>, n: nat)
    requires n <= |rs|
    ensures Best(rs[..n]) <= Best(rs)
  {
    assert forall i :: 0 <= i < n ==> rs[..n][i] == rs[i];
  }

  lemma {:induction false} BelowBestOfPrefix(rs: seq<EpochResult>, n: nat, i: nat)
    requires i < n <= |rs|
    ensures rs[i].validAcc <= Best(rs[..n])
  {
    assert rs[..n][i] == rs[i];
  }

  /** `best_acc` never decreases from one epoch to a later one. */
  lemma {:induction false} BestNeverDecreases(disk: set<string>, savePath: string, start: nat, rs: seq<EpochResult>, m: nat, n: nat)
    requires m <= n <= |rs|
    ensures Run(Initial(disk), savePath, start, rs[..m]).bestAcc <= Run(Initial(disk), savePath, start, rs[..n]).bestAcc
  {
    RunBest(disk, savePath, start, rs[..m]);
    RunBest(disk, savePath, start, rs[..n]);
    assert rs[..n][..m] == rs[..m];
    BestOfPrefix(rs[..n], m);
  }

  /**
   * When some validation accuracy is at least 0, a checkpoint is written, and
   * the retained one belongs to the last epoch whose validation accuracy is
   * the best: a tie with the best replaces the earlier file.
   */
  lemma {:induction false} LastSavedIsLastBest(rs: seq<EpochResult>)
    requires exists i :: 0 <= i < |rs| && 0.0 <= rs[i].validAcc
    ensures 0 <= LastSaved(rs)
    ensures rs[LastSaved(rs)].validAcc == Best(rs)
    ensures forall j :: LastSaved(rs) < j < |rs| ==> rs[j].validAcc < Best(rs)
  {
    var b := Best(rs);
    var i0 :| 0 <= i0 < |rs| && 0.0 <= rs[i0].validAcc;
    assert rs[i0].validAcc <= b;
    var top :| 0 <= top < |rs| && rs[top].validAcc == b;
    BestOfPrefix(rs, top);
    assert Saved(rs, top);
    var k := LastSaved(rs);
    assert top <= k;
    if top < k {
      BelowBestOfPrefix(rs, k, top);
    }
    assert Saved(rs, k) && rs[k].validAcc <= b;
    forall j | k < j < |rs|
      ensures rs[j].validAcc < b
    {
      BestOfPrefix(rs, j);
      assert !Saved(rs, j);
    }
  }
}

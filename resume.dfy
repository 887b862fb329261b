/**
 * The start-epoch logic of `get_model`: with resuming on and at least one
 * `*.pt` file found in the run directory, the last file of the listing is
 * loaded and training restarts one epoch after the number its name begins
 * with. The listing order of `glob` is not specified, so the listing is any
 * sequence of the matching paths.
 */
module Resume {
  import opened Strings
  import opened Checkpoints

  /** What `get_model` decides. */
  datatype Start =
    | Fresh                                  // `start_epoch = 0`, parameters as initialised
    | Resumed(file: string, startEpoch: int) // parameters loaded from `file`
    | MalformedName(file: string)            // `int(...)` raises `ValueError`

  /** `int(os.path.basename(file).split('-')[0])`, or `None` for a `ValueError`. */
  function EpochOfCheckpoint(file: string): (e: Option<int>)
    ensures e.Some? ==> e.value >= 0
  {
    ParseInt(FirstField(Basename(file), '-'))
  }

  /** The start-epoch decision of `get_model` over the listing `files`. */
  function StartEpoch(resume: bool, files: seq<string>): (r: Start)
    ensures r.Fresh? <==> !resume || files == []
    ensures !r.Fresh? ==> r.file == files[|files| - 1]
    ensures r.MalformedName? <==> resume && files != [] && EpochOfCheckpoint(files[|files| - 1]).None?
    ensures r.Resumed? ==> r.startEpoch >= 1 && EpochOfCheckpoint(r.file) == Some(r.startEpoch - 1)
  {
    if resume && files != [] then
      var file := files[|files| - 1];
      (match EpochOfCheckpoint(file)
       case Some(e) => Resumed(file, e + 1)
       case None => MalformedName(file))
    else Fresh
  }

  /**
   * Resuming fails with `ValueError` exactly when the text before the first
   * '-' in the last file's basename is not an optionally signed number.
   */
  lemma {:induction false} MalformedNameIffNotNumeric(files: seq<string>)
    requires files != []
    ensures StartEpoch(true, files).MalformedName? <==>
      !IsIntText(FirstField(Basename(files[|files| - 1]), '-'))
  {
  }

  /** With no '/' in the accuracy text, the basename of a checkpoint name is its last part. */
  lemma {:induction false} CheckpointBasename(savePath: string, epoch: nat, accText: string)
    requires '/' !in accText
    ensures Basename(CheckpointName(savePath, epoch, accText)) == CheckpointBase(epoch, accText)
  {
    var digits := NatToString(epoch);
    NonDigitAbsent(digits, '/');
    assert '/' !in CheckpointBase(epoch, accText);
    BasenameOfJoin(savePath, CheckpointBase(epoch, accText));
  }

  /**
   * The name `train` writes for epoch `epoch` parses back to `epoch`, as long
   * as the accuracy text has no '/' (a '-' in it is harmless: the epoch
   * digits come before the first '-').
   */
  lemma {:induction false} CheckpointEpochRoundTrip(savePath: string, epoch: nat, accText: string)
    requires '/' !in accText
    ensures EpochOfCheckpoint(CheckpointName(savePath, epoch, accText)) == Some(epoch)
  {
    var digits := NatToString(epoch);
    CheckpointBasename(savePath, epoch, accText);
    NonDigitAbsent(digits, '-');
    assert CheckpointBase(epoch, accText) == digits + ['-'] + (accText + ".pt");
    FirstFieldOfJoin(digits, '-', accText + ".pt");
    ParseIntToString(epoch);
  }

  lemma {:induction false} NonDigitAbsent(s: string, c: char)
    requires AllDigits(s) && !IsDigit(c)
    ensures c !in s
  {
  }

  /** Resuming from a listing that ends with the checkpoint of epoch `epoch` starts at `epoch + 1`. */
  lemma {:induction false} ResumeAfterCheckpoint(files: seq<string>, savePath: string, epoch: nat, accText: string)
    requires files != [] && files[|files| - 1] == CheckpointName(savePath, epoch, accText)
    requires '/' !in accText
    ensures StartEpoch(true, files) == Resumed(files[|files| - 1], epoch + 1)
  {
    CheckpointEpochRoundTrip(savePath, epoch, accText);
  }

  predicate EndsWith(s: string, suffix: string) {
    |suffix| <= |s| && s[|s| - |suffix|..] == suffix
  }

  /**
   * `p` matches `glob('{dir}/' + '*.pt')`: it lies directly inside `dir`, and its
   * name ends in `.pt` and does not start with '.'.
   */
  predicate InGlob(dir: string, p: string) {
    var name := Basename(p);
    p == dir + "/" + name && name != [] && name[0] != '.' && EndsWith(name, ".pt")
  }

  /** The paths `glob('{dir}/' + '*.pt')` finds: only paths that exist. */
  function Glob(dir: string, disk: set<string>): (found: set<string>)
    ensures found <= disk
  {
    set p | p in disk && InGlob(dir, p)
  }

  /**
   * `InGlob` is the glob match: `p` is `dir`, a '/', and one more path
   * segment that is not hidden and ends in `.pt`.
   */
  lemma {:induction false} InGlobMatches(dir: string, p: string)
    ensures InGlob(dir, p) <==>
      exists name :: p == dir + "/" + name && '/' !in name && name != [] && name[0] != '.' && EndsWith(name, ".pt")
  {
    if InGlob(dir, p) {
      BasenameIsLastSegment(p);
      var name := Basename(p);
      assert p == dir + "/" + name && '/' !in name;
    }
    if exists name :: p == dir + "/" + name && '/' !in name && name != [] && name[0] != '.' && EndsWith(name, ".pt") {
      var name :| p == dir + "/" + name && '/' !in name && name != [] && name[0] != '.' && EndsWith(name, ".pt");
      BasenameOfJoin(dir, name);
    }
  }

  lemma {:induction false} CheckpointInGlob(savePath: string, epoch: nat, accText: string)
    requires '/' !in accText
    ensures InGlob(savePath, CheckpointName(savePath, epoch, accText))
  {
    var digits := NatToString(epoch);
    var base := CheckpointBase(epoch, accText);
    CheckpointBasename(savePath, epoch, accText);
    assert base[0] == digits[0];
    assert base == (digits + "-" + accText) + ".pt";
    assert base[|base| - 3..] == ".pt";
  }

  lemma {:induction false} GlobAfterRetention(dir: string, disk: set<string>, written: set<string>, name: string)
    requires Glob(dir, disk) == {} && InGlob(dir, name)
    ensures Glob(dir, (disk - written) + {name}) == {name}
  {
    var after := (disk - written) + {name};
    forall p | p in Glob(dir, after)
      ensures p == name || p in Glob(dir, disk)
    {
    }
    assert name in Glob(dir, after);
  }

  /**
   * A run that starts from a run directory without `*.pt` files and sees at
   * least one validation accuracy of 0 or more leaves exactly one `*.pt`
   * file there: that of the last epoch reaching the best validation accuracy.
   */
  lemma {:induction false} OneCheckpointLeft(disk: set<string>, savePath: string, start: nat, rs: seq<EpochResult>)
    requires forall k :: 0 <= k < |rs| ==> '/' !in rs[k].testAccText
    requires Glob(savePath, disk) == {}
    requires exists i :: 0 <= i < |rs| && 0.0 <= rs[i].validAcc
    ensures 0 <= LastSaved(rs) && rs[LastSaved(rs)].validAcc == Best(rs)
    ensures Glob(savePath, Run(Initial(disk), savePath, start, rs).disk) ==
      {CheckpointName(savePath, start + LastSaved(rs), rs[LastSaved(rs)].testAccText)}
  {
    LastSavedIsLastBest(rs);
    var k := LastSaved(rs);
    RunFileName(disk, savePath, start, rs);
    RunDisk(disk, savePath, start, rs);
    CheckpointInGlob(savePath, start + k, rs[k].testAccText);
    GlobAfterRetention(savePath, disk, Written(savePath, start, rs),
      CheckpointName(savePath, start + k, rs[k].testAccText));
  }

  /**
   * After such a run, resuming from any listing of the run directory loads
   * that checkpoint and restarts at the epoch after it.
   */
  lemma {:induction false} TrainThenResume(disk: set<string>, savePath: string, start: nat, rs: seq<EpochResult>, files: seq<string>)
    requires forall k :: 0 <= k < |rs| ==> '/' !in rs[k].testAccText
    requires Glob(savePath, disk) == {}
    requires exists i :: 0 <= i < |rs| && 0.0 <= rs[i].validAcc
    requires forall f :: f in files <==> f in Glob(savePath, Run(Initial(disk), savePath, start, rs).disk)
    ensures 0 <= LastSaved(rs)
    ensures StartEpoch(true, files) ==
      Resumed(CheckpointName(savePath, start + LastSaved(rs), rs[LastSaved(rs)].testAccText), start + LastSaved(rs) + 1)
  {
    OneCheckpointLeft(disk, savePath, start, rs);
    var k := LastSaved(rs);
    var name := CheckpointName(savePath, start + k, rs[k].testAccText);
    ListingOfSingleton(files, Glob(savePath, Run(Initial(disk), savePath, start, rs).disk), name);
    ResumeAfterCheckpoint(files, savePath, start + k, rs[k].testAccText);
  }

  /** Any listing of a one-element set ends with that element. */
  lemma {:induction false} ListingOfSingleton(files: seq<string>, found: set<string>, name: string)
    requires found == {name}
    requires forall f :: f in files <==> f in found
    ensures files != [] && files[|files| - 1] == name
  {
    assert name in files;
    assert files[|files| - 1] in files;
  }

  /**
   * A resumed run starts with `file_name = ''`, so it never removes a
   * checkpoint an earlier run left in the directory: once it writes its own,
   * the directory holds two `*.pt` files (for instance `r/5-0.9000.pt` from
   * the earlier run and `r/6-0.8000.pt` after resuming at epoch 6).
   */
  lemma {:induction false} ResumedRunKeepsEarlierCheckpoint(
    disk: set<string>, savePath: string, start: nat, rs: seq<EpochResult>, earlier: string)
    requires forall k :: 0 <= k < |rs| ==> '/' !in rs[k].testAccText
    requires earlier in Glob(savePath, disk) && earlier !in Written(savePath, start, rs)
    requires 0 <= LastSaved(rs)
    ensures var s := Run(Initial(disk), savePath, start, rs);
      earlier in Glob(savePath, s.disk) && s.fileName in Glob(savePath, s.disk) && earlier != s.fileName
  {
    var k := LastSaved(rs);
    RunFileName(disk, savePath, start, rs);
    RunDisk(disk, savePath, start, rs);
    SavedIsWritten(savePath, start, rs, k);
    CheckpointInGlob(savePath, start + k, rs[k].testAccText);
  }
}

/**
 * `init_path`: the run directory `{name}-{loss}/{dataset}/{fold}` and its two
 * ancestors, each made with `mkdir` only when it does not exist yet. The
 * filesystem is the set of paths that exist.
 */
module RunDirectory {
  import opened Strings

  /** The three directories, outermost first; each is the one before plus one segment. */
  function SavePaths(name: string, loss: string, dataset: string, fold: int): (ps: seq<string>)
    ensures |ps| == 3
    ensures ps[0] == name + "-" + loss
    ensures ps[1] == ps[0] + "/" + dataset
    ensures ps[2] == ps[1] + "/" + IntToString(fold)
  {
    var run := name + "-" + loss;
    [run, run + "/" + dataset, run + "/" + dataset + "/" + IntToString(fold)]
  }

  /**
   * The paths a walk over `paths` creates, in order, when it makes each one
   * that does not exist at the moment it is reached.
   */
  function Created(paths: seq<string>, existing: set<string>): seq<string> {
    if paths == [] then []
    else if paths[0] in existing then Created(paths[1..], existing)
    else [paths[0]] + Created(paths[1..], existing + {paths[0]})
  }

  /** The walk makes exactly the missing paths, each once. */
  lemma {:induction false} CreatedIsMissing(paths: seq<string>, existing: set<string>)
    ensures var c := Created(paths, existing);
      && (forall p :: p in c <==> p in paths && p !in existing)
      && (forall i, j :: 0 <= i < j < |c| ==> c[i] != c[j])
  {
    if paths != [] {
      var p0, rest := paths[0], paths[1..];
      assert paths == [p0] + rest;
      if p0 in existing {
        CreatedIsMissing(rest, existing);
      } else {
        CreatedIsMissing(rest, existing + {p0});
        var c := Created(rest, existing + {p0});
        assert Created(paths, existing) == [p0] + c;
        assert p0 !in c;
      }
    }
  }

  /**
   * The loop of `init_path`: walks `paths` in order and makes each one that
   * does not exist yet; returns the paths made and the paths that exist
   * afterwards.
   */
  method MakeMissing(paths: seq<string>, existing: set<string>)
    returns (made: seq<string>, existingAfter: set<string>)
    ensures made == Created(paths, existing)
    ensures existingAfter == existing + Elements(paths)
  {
    made, existingAfter := [], existing;
    for i := 0 to |paths|
      invariant existingAfter == existing + Elements(paths[..i])
      invariant made + Created(paths[i..], existingAfter) == Created(paths, existing)
    {
      var p, rest := paths[i], paths[i + 1..];
      assert paths[i..] == [p] + rest;
      assert paths[..i + 1] == paths[..i] + [p];
      ElementsAppend(paths[..i], p);
      CreatedStep(p, rest, existingAfter);
      if p !in existingAfter {
        existingAfter := existingAfter + {p};
        made := made + [p];
      }
    }
    assert paths[..|paths|] == paths;
  }

  lemma {:induction false} CreatedStep(p: string, rest: seq<string>, existing: set<string>)
    ensures p in existing ==> Created([p] + rest, existing) == Created(rest, existing)
    ensures p !in existing ==> Created([p] + rest, existing) == [p] + Created(rest, existing + {p})
  {
    assert ([p] + rest)[1..] == rest;
  }

  /**
   * `init_path` without its logger: makes the missing run directories and
   * returns the save path (the deepest of the three), the directories made,
   * and the paths that exist afterwards.
   */
  method InitPath(name: string, loss: string, dataset: string, fold: int, existing: set<string>)
    returns (savePath: string, made: seq<string>, existingAfter: set<string>)
    ensures savePath == name + "-" + loss + "/" + dataset + "/" + IntToString(fold)
    ensures made == Created(SavePaths(name, loss, dataset, fold), existing)
    ensures existingAfter == existing + Elements(SavePaths(name, loss, dataset, fold))
  {
    var paths := SavePaths(name, loss, dataset, fold);
    made, existingAfter := MakeMissing(paths, existing);
    savePath := paths[|paths| - 1];
  }

  /** The set of paths a sequence holds. */
  function Elements(ps: seq<string>): (s: set<string>)
    ensures forall p :: p in s <==> p in ps
  {
    set p | p in ps
  }

  lemma {:induction false} ElementsAppend(ps: seq<string>, p: string)
    ensures Elements(ps + [p]) == Elements(ps) + {p}
  {
  }

  /** Once every path exists, the walk creates nothing: a second `init_path` makes no directory. */
  lemma {:induction false} CreatedNothingWhenPresent(paths: seq<string>, existing: set<string>)
    requires forall p :: p in paths ==> p in existing
    ensures Created(paths, existing) == []
  {
    if paths != [] {
      CreatedNothingWhenPresent(paths[1..], existing);
    }
  }

  lemma {:induction false} InitPathIdempotent(name: string, loss: string, dataset: string, fold: int, existing: set<string>)
    ensures var ps := SavePaths(name, loss, dataset, fold);
            Created(ps, existing + Elements(ps)) == []
  {
    var ps := SavePaths(name, loss, dataset, fold);
    CreatedNothingWhenPresent(ps, existing + Elements(ps));
  }

  /** Different folds get different run directories. */
  lemma {:induction false} FoldDirectoriesDistinct(name: string, loss: string, dataset: string, fold1: int, fold2: int)
    requires fold1 != fold2
    ensures SavePaths(name, loss, dataset, fold1)[2] != SavePaths(name, loss, dataset, fold2)[2]
  {
    var prefix := name + "-" + loss + "/" + dataset + "/";
    var p1, p2 := SavePaths(name, loss, dataset, fold1)[2], SavePaths(name, loss, dataset, fold2)[2];
    assert p1 == prefix + IntToString(fold1);
    assert p2 == prefix + IntToString(fold2);
    if p1 == p2 {
      assert p1[|prefix|..] == IntToString(fold1);
      assert p2[|prefix|..] == IntToString(fold2);
      IntToStringInjective(fold1, fold2);
    }
  }
}

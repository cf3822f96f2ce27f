/**
 Putting a rebuilt index in place of the old one: two renames, a rollback, the removal of what is no longer
 needed, and the guard that cleans the temporary directory up. Directories are siblings, known by name.
 Each file system call may fail; a crash may happen after any change to the file system.
 */
module DirectorySwap {
  import opened Outcomes

  /** What a directory holds: a whole index, or what a removal that was interrupted has left of one. */
  datatype Content = Complete(index: string) | Partial

  datatype RemoveOutcome = Removed | FailedUntouched | FailedPartway

  datatype RemoveError = NotFound | RemoveFailed

  class FileSystem {
    var dirs: map<string, Content>
    /** Every state the file system went through, the last one included. */
    ghost var history: seq<map<string, Content>>

    /** Atomic; refuses a missing origin and an occupied destination. */
    method Rename(origin: string, dest: string, fault: bool) returns (ok: bool)
      modifies this
      ensures ok <==> !fault && origin in old(dirs) && dest !in old(dirs)
      ensures dirs == if ok then (old(dirs) - {origin})[dest := old(dirs)[origin]] else old(dirs)
      ensures history == old(history) + [dirs]
    {
      ok := !fault && origin in dirs && dest !in dirs;
      if ok {
        dirs := (dirs - {origin})[dest := dirs[origin]];
      }
      history := history + [dirs];
    }

    /** Not atomic: it passes through, and may stop at, a state where part of the directory is gone. */
    method RemoveDirAll(path: string, outcome: RemoveOutcome) returns (failure: Option<RemoveError>)
      modifies this
      ensures failure == if path !in old(dirs) then Some(NotFound)
                         else if outcome.Removed? then None else Some(RemoveFailed)
      ensures dirs == if failure.None? then old(dirs) - {path}
                      else if failure == Some(RemoveFailed) && outcome.FailedPartway? then old(dirs)[path := Partial]
                      else old(dirs)
      ensures history == old(history) + (if path in old(dirs) && !outcome.FailedUntouched? then [old(dirs)[path := Partial]] else []) + [dirs]
    {
      if path !in dirs {
        history := history + [dirs];
        return Some(NotFound);
      }
      if outcome.FailedUntouched? {
        history := history + [dirs];
        return Some(RemoveFailed);
      }
      var whole := dirs;
      dirs := whole[path := Partial];
      history := history + [dirs];
      if outcome.FailedPartway? {
        history := history + [dirs];
        return Some(RemoveFailed);
      }
      dirs := whole - {path};
      history := history + [dirs];
      return None;
    }
  }

  // ---- Names ----

  function MovedName(name: string, keepBackup: bool, suffix: string): string {
    name + (if keepBackup then "_backup_" else "_rollback_") + suffix
  }

  function TempName(name: string, suffix: string): string {
    name + ".rebuild." + suffix
  }

  /** The three directories of a swap never coincide, whatever the suffixes are. */
  lemma NamesAreDistinct(name: string, keepBackup: bool, suffix: string, tempSuffix: string)
    ensures MovedName(name, keepBackup, suffix) != name
    ensures TempName(name, tempSuffix) != name
    ensures TempName(name, tempSuffix) != MovedName(name, keepBackup, suffix)
  {
    assert |MovedName(name, keepBackup, suffix)| > |name| && |TempName(name, tempSuffix)| > |name|;
    assert MovedName(name, keepBackup, suffix)[|name|] == '_';
    assert TempName(name, tempSuffix)[|name|] == '.';
  }

  // ---- Crash safety ----

  /** The old index whole at its place or where it was moved, or the new index whole in its place. */
  ghost predicate IndexSurvives(
    dirs: map<string, Content>, source: string, moved: string, oldIndex: Content, newIndex: Content)
  {
    || (source in dirs && dirs[source] == oldIndex)
    || (moved in dirs && dirs[moved] == oldIndex)
    || (source in dirs && dirs[source] == newIndex)
  }

  ghost predicate SurvivesThroughout(
    states: seq<map<string, Content>>, start: nat, source: string, moved: string, oldIndex: Content, newIndex: Content)
  {
    forall i | start <= i < |states| :: IndexSurvives(states[i], source, moved, oldIndex, newIndex)
  }

  // ---- The swap ----

  datatype SwapError = StageFailed | ActivationFailed(rollbackFailed: bool)

  datatype SwapFaults = SwapFaults(stage: bool, activate: bool, rollback: bool, remove: RemoveOutcome)

  /** Where the backup is, if one was kept, and whether the removal of the rollback directory failed. */
  datatype Swapped = Swapped(backup: Option<string>, removeWarning: bool)

  method SwapRebuiltIndexDir(
    fs: FileSystem, source: string, rebuilt: string, keepBackup: bool, suffix: string, faults: SwapFaults)
    returns (r: Result<Swapped, SwapError>)
    requires rebuilt != source && rebuilt != MovedName(source, keepBackup, suffix)
    modifies fs
    ensures |fs.history| >= |old(fs.history)|
    ensures var moved := MovedName(source, keepBackup, suffix);
            var before := old(fs.dirs);
            match r
            case Ok(done) =>
              && source in before && rebuilt in before && moved !in before
              && fs.dirs - {moved} == (before - {rebuilt})[source := before[rebuilt]]
              && done.backup == (if keepBackup then Some(source + "_backup_" + suffix) else None)
              && (keepBackup ==> moved in fs.dirs && fs.dirs[moved] == before[source] && !done.removeWarning)
              && (!keepBackup ==> (done.removeWarning <==> moved in fs.dirs))
            case Err(StageFailed) => fs.dirs == before
            case Err(ActivationFailed(rollbackFailed)) =>
              && source in before && moved !in before
              && fs.dirs == if rollbackFailed then (before - {source})[moved := before[source]] else before
    // Each result for its cause.
    ensures r == Err(StageFailed) <==>
              faults.stage || source !in old(fs.dirs) || MovedName(source, keepBackup, suffix) in old(fs.dirs)
    ensures r.Err? && r.error.ActivationFailed? ==> faults.activate || rebuilt !in old(fs.dirs)
    ensures r.Err? && r.error.ActivationFailed? ==> r.error.rollbackFailed == faults.rollback
    ensures r.Ok? ==> !faults.stage && !faults.activate && rebuilt in old(fs.dirs)
    ensures r.Ok? && !keepBackup ==> (r.value.removeWarning <==> !faults.remove.Removed?)
    ensures source in old(fs.dirs) && rebuilt in old(fs.dirs) ==>
              SurvivesThroughout(fs.history, |old(fs.history)|, source, MovedName(source, keepBackup, suffix),
                                 old(fs.dirs[source]), old(fs.dirs[rebuilt]))
  {
    NamesAreDistinct(source, keepBackup, suffix, "");
    var moved := MovedName(source, keepBackup, suffix);

    var staged := fs.Rename(source, moved, faults.stage);
    if !staged {
      return Err(StageFailed);
    }

    var activated := fs.Rename(rebuilt, source, faults.activate);
    if !activated {
      var rolledBack := fs.Rename(moved, source, faults.rollback);
      if rolledBack {
        assert fs.dirs == old(fs.dirs);
      }
      return Err(ActivationFailed(!rolledBack));
    }

    if keepBackup {
      return Ok(Swapped(Some(moved), false));
    }
    var failure := fs.RemoveDirAll(moved, faults.remove);
    return Ok(Swapped(None, failure.Some?));
  }

  // ---- The guard ----

  class TempRebuildDirGuard {
    const path: string
    var active: bool

    constructor (path: string)
      ensures this.path == path && active
    {
      this.path := path;
      active := true;
    }

    method Disarm()
      modifies this
      ensures !active
    {
      active := false;
    }

    /** Stays armed only if the directory is there and cannot be removed. */
    method RemoveNow(fs: FileSystem, outcome: RemoveOutcome) returns (ok: bool)
      modifies this, fs
      ensures ok <==> !active
      ensures !old(active) ==> ok && unchanged(fs)
      ensures old(active) ==> (ok <==> path !in fs.dirs)
      ensures old(active) ==> (ok <==> path !in old(fs.dirs) || outcome.Removed?)
      ensures OnlyRemoves(old(fs.dirs), fs.dirs, path)
      ensures GrowsByRemoval(old(fs.history), fs.history, old(fs.dirs), path)
    {
      if !active {
        return true;
      }
      var failure := fs.RemoveDirAll(path, outcome);
      if failure.None? || failure == Some(NotFound) {
        active := false;
        return true;
      }
      return false;
    }

    /** Runs when the guard goes out of scope; a failure is ignored. */
    method Drop(fs: FileSystem, outcome: RemoveOutcome)
      modifies fs
      ensures !active ==> unchanged(fs)
      ensures active && outcome.Removed? ==> path !in fs.dirs
      ensures OnlyRemoves(old(fs.dirs), fs.dirs, path)
      ensures GrowsByRemoval(old(fs.history), fs.history, old(fs.dirs), path)
    {
      if active {
        var _ := fs.RemoveDirAll(path, outcome);
      }
    }
  }

  /** Every directory but `path` is as it was. */
  ghost predicate OnlyRemoves(before: map<string, Content>, after: map<string, Content>, path: string) {
    after - {path} == before - {path} && (path in after ==> path in before)
  }

  ghost predicate GrowsByRemoval(
    before: seq<map<string, Content>>, after: seq<map<string, Content>>, dirs: map<string, Content>, path: string)
  {
    before <= after && forall i | |before| <= i < |after| :: OnlyRemoves(dirs, after[i], path)
  }

  /** Removing a third directory endangers no index. */
  lemma RemovalIsHarmless(
    before: seq<map<string, Content>>, after: seq<map<string, Content>>, dirs: map<string, Content>, path: string,
    source: string, moved: string, oldIndex: Content, newIndex: Content, start: nat)
    requires GrowsByRemoval(before, after, dirs, path) && path != source && path != moved && start <= |before|
    requires SurvivesThroughout(before, start, source, moved, oldIndex, newIndex)
    requires IndexSurvives(dirs, source, moved, oldIndex, newIndex)
    ensures SurvivesThroughout(after, start, source, moved, oldIndex, newIndex)
  {
    forall i | start <= i < |after|
      ensures IndexSurvives(after[i], source, moved, oldIndex, newIndex)
    {
      if i < |before| {
        assert after[i] == before[i];
      } else {
        OthersKept(dirs, after[i], path, source);
        OthersKept(dirs, after[i], path, moved);
      }
    }
  }

  lemma OthersKept(before: map<string, Content>, after: map<string, Content>, path: string, other: string)
    requires OnlyRemoves(before, after, path) && other != path
    ensures other in after <==> other in before
    ensures other in after ==> after[other] == before[other]
  {
    assert other in after <==> other in after - {path};
    assert other in before <==> other in before - {path};
  }

  // ---- The end of a rebuild ----

  datatype FinishError =
    | ResetBeforeSwapFailed
    | SwapFailed(cause: SwapError, resetFailed: bool, cleanupFailed: bool)
    | ResetAfterSwapFailed

  datatype FinishFaults = FinishFaults(
    resetBefore: bool, swap: SwapFaults, resetAfterFailure: bool, removeNow: RemoveOutcome, resetAfter: bool, drop: RemoveOutcome)

  /** Nothing keeps the rebuilt index from its place. */
  predicate CanSwap(dirs: map<string, Content>, moved: string, faults: FinishFaults) {
    !faults.resetBefore && !faults.swap.stage && !faults.swap.activate && moved !in dirs
  }

  /**
   From the saved rebuilt index to the return of the rebuild, with the guard's clean-up. Whatever fails, and
   wherever a crash happens, a complete index exists.
   */
  method FinishRebuild(
    fs: FileSystem, source: string, tempSuffix: string, keepBackup: bool, suffix: string, faults: FinishFaults)
    returns (r: Result<Swapped, FinishError>)
    requires source in fs.dirs && TempName(source, tempSuffix) in fs.dirs
    modifies fs
    ensures SurvivesThroughout(fs.history, |old(fs.history)|, source, MovedName(source, keepBackup, suffix),
                               old(fs.dirs[source]), old(fs.dirs[TempName(source, tempSuffix)]))
    ensures var moved, temp := MovedName(source, keepBackup, suffix), TempName(source, tempSuffix);
            var before := old(fs.dirs);
            match r
            // Success: the rebuilt index is in place.
            case Ok(done) =>
              && source in fs.dirs && fs.dirs[source] == before[temp] && temp !in fs.dirs
              && (keepBackup ==>
                    && moved in fs.dirs && fs.dirs[moved] == before[source]
                    && done == Swapped(Some(moved), false) && moved == source + "_backup_" + suffix)
              && (!keepBackup ==> done.backup.None? && (done.removeWarning <==> moved in fs.dirs))
            // The only failure that does not bring the old index back in place although the swap did not
            // happen is a failed rollback; the old index is then where it was moved.
            case Err(SwapFailed(ActivationFailed(true), _, _)) =>
              source !in fs.dirs && moved in fs.dirs && fs.dirs[moved] == before[source]
            // A failed reset after the swap is reported as an error although the new index is in place.
            case Err(ResetAfterSwapFailed) => source in fs.dirs && fs.dirs[source] == before[temp] && faults.resetAfter
            // Every other failure leaves everything but the temporary directory as it was.
            case Err(_) => OnlyRemoves(before, fs.dirs, temp) && source in fs.dirs && fs.dirs[source] == before[source]
    // Each result for its cause.
    ensures r == Err(ResetBeforeSwapFailed) <==> faults.resetBefore
    ensures r == Err(ResetAfterSwapFailed) <==>
              CanSwap(old(fs.dirs), MovedName(source, keepBackup, suffix), faults) && faults.resetAfter
    ensures r.Ok? <==> CanSwap(old(fs.dirs), MovedName(source, keepBackup, suffix), faults) && !faults.resetAfter
    ensures r.Ok? && !keepBackup ==> (r.value.removeWarning <==> !faults.swap.remove.Removed?)
    ensures r.Err? && r.error.SwapFailed? ==>
              && r.error.resetFailed == faults.resetAfterFailure
              && (r.error.cleanupFailed <==> !faults.removeNow.Removed?)
              && r.error.cause == if faults.swap.stage || MovedName(source, keepBackup, suffix) in old(fs.dirs)
                                  then StageFailed else ActivationFailed(faults.swap.rollback)
    // No temporary directory outlives a rebuild that did not use it, unless its removal fails.
    ensures r.Err? && r != Err(ResetAfterSwapFailed) && faults.drop.Removed? ==> TempName(source, tempSuffix) !in fs.dirs
    ensures r.Err? && r.error.SwapFailed? && !r.error.cleanupFailed ==> TempName(source, tempSuffix) !in fs.dirs
    ensures r == Err(ResetAfterSwapFailed) ==> TempName(source, tempSuffix) !in fs.dirs
  {
    NamesAreDistinct(source, keepBackup, suffix, tempSuffix);
    var temp := TempName(source, tempSuffix);
    ghost var moved := MovedName(source, keepBackup, suffix);
    ghost var start := |fs.history|;
    ghost var oldIndex, newIndex := fs.dirs[source], fs.dirs[temp];
    var guard := new TempRebuildDirGuard(temp);

    if faults.resetBefore {
      ghost var history, dirs := fs.history, fs.dirs;
      guard.Drop(fs, faults.drop);
      RemovalIsHarmless(history, fs.history, dirs, temp, source, moved, oldIndex, newIndex, start);
      OthersKept(dirs, fs.dirs, temp, source);
      return Err(ResetBeforeSwapFailed);
    }

    var swapped := SwapRebuiltIndexDir(fs, source, temp, keepBackup, suffix, faults.swap);
    if swapped.Err? {
      ghost var history, dirs := fs.history, fs.dirs;
      var cleaned := guard.RemoveNow(fs, faults.removeNow);
      RemovalIsHarmless(history, fs.history, dirs, temp, source, moved, oldIndex, newIndex, start);
      OthersKept(dirs, fs.dirs, temp, source);
      OthersKept(dirs, fs.dirs, temp, moved);
      ghost var history', dirs' := fs.history, fs.dirs;
      guard.Drop(fs, faults.drop);
      RemovalIsHarmless(history', fs.history, dirs', temp, source, moved, oldIndex, newIndex, start);
      OthersKept(dirs', fs.dirs, temp, source);
      OthersKept(dirs', fs.dirs, temp, moved);
      return Err(SwapFailed(swapped.error, faults.resetAfterFailure, !cleaned));
    }
    assert source in fs.dirs - {moved} && temp !in fs.dirs - {moved};
    guard.Disarm();

    if faults.resetAfter {
      guard.Drop(fs, faults.drop);
      return Err(ResetAfterSwapFailed);
    }
    guard.Drop(fs, faults.drop);
    return Ok(swapped.value);
  }
}

// The online-restore cutover as a whole: ClickHouse, the swaps of the data
// directory and the control TLS directory, with everything undone on failure.
module RestoreCutover {
  import opened Options
  import opened RestoreDisk
  import opened RestoreDatabases
  import PathSwap
  import TlsCutover

  type Swap = PathSwap.RestorePathSwap

  // The disk that the cutover starts from, and the objects that work on it:
  // no swap or TLS backup is there yet and no path is used twice.
  ghost predicate Setup(start: Files, swaps: seq<Swap>, l: TlsCutover.Layout) {
    && l.Valid() && TlsCutover.Fresh(l, start)
    && (forall i :: 0 <= i < |swaps| ==>
          && swaps[i].DistinctPaths() && PathSwap.Fresh(swaps[i].ViewIn(start))
          && forall p :: p in swaps[i].Paths() ==> p.folder !in {l.root, l.Stage(), l.Backup()})
    && (forall i, j :: 0 <= i < j < |swaps| ==> swaps[i] != swaps[j] && swaps[i].Paths() !! swaps[j].Paths())
  }

  ghost predicate SameOutsideSwaps(swaps: seq<Swap>, before: Files, after: Files) {
    forall p :: (forall i :: 0 <= i < |swaps| ==> p !in swaps[i].Paths()) ==> At(after, p) == At(before, p)
  }

  ghost predicate Untouched(swaps: seq<Swap>, start: Files, files: Files) {
    forall i :: 0 <= i < |swaps| ==> swaps[i].ViewIn(files) == swaps[i].ViewIn(start)
  }

  lemma SameView(swap: Swap, before: Files, after: Files)
    requires forall p :: p in swap.Paths() ==> At(after, p) == At(before, p)
    ensures swap.ViewIn(after) == swap.ViewIn(before)
  {
    assert swap.live in swap.Paths() && swap.staged in swap.Paths();
    assert swap.backup in swap.Paths() && swap.Marker() in swap.Paths();
  }

  ghost predicate SwapsSafe(swaps: seq<Swap>, start: Files, files: Files) {
    forall s :: s in swaps ==> PathSwap.Safe(s.ViewIn(files), s.ViewIn(start).live, s.ViewIn(start).staged)
  }

  lemma UndoOne(swap: Swap, start: Files, snap: PathSwap.Snap)
    requires PathSwap.Fresh(swap.ViewIn(start)) && PathSwap.Reached(swap.ViewIn(start), snap)
    ensures PathSwap.FreelyUndoable(snap)
    ensures Last(PathSwap.RollbackTrace(snap)) == swap.ViewIn(start)
    ensures PathSwap.Safe(snap.view, swap.ViewIn(start).live, swap.ViewIn(start).staged)
    ensures forall v :: v in PathSwap.RollbackTrace(snap) ==>
      PathSwap.Safe(v, swap.ViewIn(start).live, swap.ViewIn(start).staged)
  {
    PathSwap.ApplyLeavesUndoable(swap.ViewIn(start), snap);
    PathSwap.RollbackUndoesApply(swap.ViewIn(start), snap);
    PathSwap.ApplyKeepsSafe(swap.ViewIn(start), snap, swap.ViewIn(start).live, swap.ViewIn(start).staged);
  }

  // What happens to one swap leaves everything else alone.
  lemma OneSwapApart(swaps: seq<Swap>, k: nat, before: Files, after: Files)
    requires k < |swaps|
    requires forall i, j :: 0 <= i < j < |swaps| ==> swaps[i].Paths() !! swaps[j].Paths()
    requires forall p :: p !in swaps[k].Paths() ==> At(after, p) == At(before, p)
    ensures forall i :: 0 <= i < |swaps| && i != k ==> swaps[i].ViewIn(after) == swaps[i].ViewIn(before)
    ensures SameOutsideSwaps(swaps, before, after)
  {
    forall i | 0 <= i < |swaps| && i != k
      ensures swaps[i].ViewIn(after) == swaps[i].ViewIn(before)
    {
      assert swaps[k].Paths() !! swaps[i].Paths();
      SameView(swaps[i], before, after);
    }
  }

  // Where an uninterrupted apply takes a swap.
  function Target(swap: Swap, start: Files): PathSwap.Snap {
    Last(PathSwap.ApplyTrace(swap.ViewIn(start)))
  }

  ghost predicate Arrived(swaps: seq<Swap>, start: Files, files: Files) {
    forall i :: 0 <= i < |swaps| ==> swaps[i].ViewIn(files) == Target(swaps[i], start).view
  }

  ghost predicate AllApplied(swaps: seq<Swap>, start: Files, files: Files)
    reads swaps
  {
    && Arrived(swaps, start, files)
    && forall i :: 0 <= i < |swaps| ==> swaps[i].CurrentFlags() == Target(swaps[i], start).flags
  }

  // The first k swaps arrived, the others were not touched.
  ghost predicate Advanced(swaps: seq<Swap>, k: nat, start: Files, files: Files)
    requires k <= |swaps|
    reads swaps
  {
    && Arrived(swaps[..k], start, files)
    && Untouched(swaps[k..], start, files)
    && SameOutsideSwaps(swaps, start, files)
    && (forall i :: 0 <= i < k ==> swaps[i].CurrentFlags() == Target(swaps[i], start).flags)
    && (forall i :: k <= i < |swaps| ==> swaps[i].CurrentFlags() == PathSwap.NO_FLAGS)
  }

  lemma UntouchedSafe(swaps: seq<Swap>, start: Files, files: Files)
    requires forall s :: s in swaps ==> PathSwap.Fresh(s.ViewIn(start))
    requires Untouched(swaps, start, files)
    ensures SwapsSafe(swaps, start, files)
  {
  }

  // One more swap arrived.
  lemma Advance(swaps: seq<Swap>, k: nat, l: TlsCutover.Layout, start: Files, before: Files, after: Files)
    requires Setup(start, swaps, l) && k < |swaps|
    requires Arrived(swaps[..k], start, before) && Untouched(swaps[k..], start, before)
    requires forall p :: p !in swaps[k].Paths() ==> At(after, p) == At(before, p)
    requires swaps[k].ViewIn(after) == Target(swaps[k], start).view
    ensures Arrived(swaps[..k + 1], start, after) && Untouched(swaps[k + 1..], start, after)
  {
    OneSwapApart(swaps, k, before, after);
    forall i | 0 <= i < k + 1
      ensures swaps[..k + 1][i].ViewIn(after) == Target(swaps[i], start).view
    {
      if i < k {
        assert swaps[..k][i] == swaps[i];
      }
    }
    var rest := swaps[k + 1..];
    forall i | 0 <= i < |rest|
      ensures rest[i].ViewIn(after) == rest[i].ViewIn(start)
    {
      assert rest[i] == swaps[k..][i + 1] == swaps[k + 1 + i];
    }
  }

  // The next swap failed and was rolled back as far as possible.
  lemma Stop(swaps: seq<Swap>, k: nat, l: TlsCutover.Layout, start: Files, before: Files, after: Files, undone: bool)
    requires Setup(start, swaps, l) && k < |swaps|
    requires Arrived(swaps[..k], start, before) && Untouched(swaps[k..], start, before)
    requires forall p :: p !in swaps[k].Paths() ==> At(after, p) == At(before, p)
    requires SwapsSafe([swaps[k]], start, after)
    requires undone ==> swaps[k].ViewIn(after) == swaps[k].ViewIn(start)
    ensures Arrived(swaps[..k], start, after) && SwapsSafe(swaps[k..], start, after)
    ensures undone ==> Untouched(swaps[k..], start, after)
  {
    OneSwapApart(swaps, k, before, after);
    forall i | 0 <= i < k
      ensures swaps[..k][i].ViewIn(after) == Target(swaps[i], start).view
    {
      assert swaps[..k][i] == swaps[i];
    }
    var rest := swaps[k + 1..];
    assert swaps[k..] == [swaps[k]] + rest;
    forall i | 0 <= i < |rest|
      ensures rest[i].ViewIn(after) == rest[i].ViewIn(start)
    {
      assert rest[i] == swaps[k..][i + 1] == swaps[k + 1 + i];
    }
    UntouchedSafe(rest, start, after);
  }

  // One round of the loop over the swaps.
  method ApplyOne(disk: Disk, swap: Swap) returns (r: Outcome, undone: bool)
    requires swap.DistinctPaths() && swap.CurrentFlags() == PathSwap.NO_FLAGS
    requires PathSwap.Fresh(swap.ViewIn(disk.files))
    modifies disk, swap
    ensures r != ManualRollback
    ensures r == Ok ==>
      swap.SnapIn(disk.files) == Last(PathSwap.ApplyTrace(swap.ViewIn(old(disk.files))))
    ensures r != Ok ==>
      PathSwap.Safe(swap.ViewIn(disk.files), swap.ViewIn(old(disk.files)).live, swap.ViewIn(old(disk.files)).staged)
    ensures r != Ok && undone ==> swap.ViewIn(disk.files) == swap.ViewIn(old(disk.files))
    ensures forall p :: p !in swap.Paths() ==> At(disk.files, p) == At(old(disk.files), p)
    ensures disk.faults >= old(disk.faults) + Failures(r == Ok) + Failures(undone)
  {
    r := swap.Apply(disk);
    undone := true;
    if r != Ok {
      UndoOne(swap, old(disk.files), swap.SnapIn(disk.files));
      undone := swap.Rollback(disk);
    }
  }

  // One round of the loop, seen from the whole list.
  method ApplyNext(disk: Disk, swaps: seq<Swap>, k: nat, ghost l: TlsCutover.Layout, ghost start: Files)
    returns (r: Outcome, undone: bool)
    requires Setup(start, swaps, l) && k < |swaps|
    requires Advanced(swaps, k, start, disk.files)
    modifies disk, swaps
    ensures r != ManualRollback
    ensures r == Ok ==> Advanced(swaps, k + 1, start, disk.files)
    ensures r != Ok ==> AllApplied(swaps[..k], start, disk.files) && SwapsSafe(swaps[k..], start, disk.files)
    ensures r != Ok && undone ==> Untouched(swaps[k..], start, disk.files)
    ensures SameOutsideSwaps(swaps, start, disk.files)
    ensures disk.faults >= old(disk.faults) + Failures(r == Ok) + Failures(undone)
  {
    ghost var before := disk.files;
    var swap := swaps[k];
    assert swaps[k..][0] == swap && swap in swaps;
    r, undone := ApplyOne(disk, swap);
    OneSwapApart(swaps, k, before, disk.files);
    if r == Ok {
      Advance(swaps, k, l, start, before, disk.files);
    } else {
      Stop(swaps, k, l, start, before, disk.files, undone);
    }
  }

  // The loop over the swaps. A swap that fails is rolled back on its own; the
  // first `completed` ones are left to the caller.
  method ApplySwaps(disk: Disk, swaps: seq<Swap>, ghost l: TlsCutover.Layout)
    returns (r: Outcome, completed: nat, undone: bool)
    requires Setup(disk.files, swaps, l)
    requires forall s :: s in swaps ==> s.CurrentFlags() == PathSwap.NO_FLAGS
    modifies disk, swaps
    ensures r != ManualRollback
    ensures completed <= |swaps| && (r == Ok <==> completed == |swaps|)
    ensures AllApplied(swaps[..completed], old(disk.files), disk.files)
    ensures SwapsSafe(swaps[completed..], old(disk.files), disk.files)
    ensures undone ==> Untouched(swaps[completed..], old(disk.files), disk.files)
    ensures SameOutsideSwaps(swaps, old(disk.files), disk.files)
    ensures disk.faults >= old(disk.faults) + Failures(r == Ok) + Failures(undone)
  {
    ghost var start := disk.files;
    completed := 0;
    while completed < |swaps|
      invariant completed <= |swaps|
      invariant Advanced(swaps, completed, start, disk.files)
      invariant disk.faults >= old(disk.faults)
    {
      r, undone := ApplyNext(disk, swaps, completed, l, start);
      if r != Ok {
        return;
      }
      completed := completed + 1;
    }
    return Ok, completed, true;
  }

  // The loop over the completed swaps, last one first. It goes on after a
  // failure.
  method RollbackSwaps(disk: Disk, swaps: seq<Swap>, ghost start: Files) returns (ok: bool)
    requires forall i :: 0 <= i < |swaps| ==> swaps[i].DistinctPaths() && PathSwap.Fresh(swaps[i].ViewIn(start))
    requires forall i, j :: 0 <= i < j < |swaps| ==> swaps[i].Paths() !! swaps[j].Paths()
    requires AllApplied(swaps, start, disk.files)
    modifies disk
    ensures ok ==> Untouched(swaps, start, disk.files)
    ensures SwapsSafe(swaps, start, disk.files)
    ensures SameOutsideSwaps(swaps, old(disk.files), disk.files)
    ensures disk.faults >= old(disk.faults) + Failures(ok)
  {
    ok := true;
    ghost var found := disk.files;
    var k := |swaps|;
    while k > 0
      invariant 0 <= k <= |swaps|
      invariant forall i :: 0 <= i < k ==> swaps[i].ViewIn(disk.files) == swaps[i].ViewIn(found)
      invariant SwapsSafe(swaps[k..], start, disk.files)
      invariant ok ==> forall i :: k <= i < |swaps| ==> swaps[i].ViewIn(disk.files) == swaps[i].ViewIn(start)
      invariant SameOutsideSwaps(swaps, found, disk.files)
      invariant disk.faults >= old(disk.faults) + Failures(ok)
    {
      k := k - 1;
      ghost var before := disk.files;
      ghost var snap := swaps[k].SnapIn(found);
      UndoOne(swaps[k], start, snap);
      var done := swaps[k].Rollback(disk);
      OneSwapApart(swaps, k, before, disk.files);
      if !done {
        ok := false;
      }
    }
  }

  // How the cutover ends: committed and recorded as such, committed with a
  // record that could not be written, failed with everything rolled back, or
  // failed with a rollback that is not complete (the maintenance lock stays).
  datatype Ending = Completed | Unrecorded | RolledBack | RollbackFailed

  // Everything is back, but possibly for the emptied TLS backup directory.
  ghost predicate Restored(start: Files, files: Files, l: TlsCutover.Layout) {
    forall p :: p != l.BackupPath() ==> At(files, p) == At(start, p)
  }

  // Every swap and the TLS directory hold what was staged.
  ghost predicate Committed(start: Files, files: Files, swaps: seq<Swap>, l: TlsCutover.Layout) {
    && (forall i :: 0 <= i < |swaps| ==>
          swaps[i].ViewIn(files) == Last(PathSwap.ApplyTrace(swaps[i].ViewIn(start))).view)
    && (forall n :: l.Moves(n) ==> At(files, Path(l.root, n)) == At(start, Path(l.Stage(), n)))
    && (forall n :: l.Moves(n) ==> At(files, Path(l.Backup(), n)) == At(start, Path(l.root, n)))
  }

  // What was live is on the disk, live or put aside.
  ghost predicate OriginalsSurvive(start: Files, files: Files, swaps: seq<Swap>, l: TlsCutover.Layout) {
    && SwapsSafe(swaps, start, files)
    && TlsCutover.FormerEntriesSurvive(l, start, files)
  }

  // Paths in the TLS directories belong to no swap.
  lemma TlsPathsApart(start: Files, swaps: seq<Swap>, l: TlsCutover.Layout, before: Files, after: Files, p: Path)
    requires Setup(start, swaps, l) && SameOutsideSwaps(swaps, before, after)
    requires p.folder in {l.root, l.Stage(), l.Backup()}
    ensures At(after, p) == At(before, p)
  {
    assert forall i :: 0 <= i < |swaps| ==> p !in swaps[i].Paths();
  }

  lemma TlsStillFresh(start: Files, swaps: seq<Swap>, l: TlsCutover.Layout, after: Files)
    requires Setup(start, swaps, l) && SameOutsideSwaps(swaps, start, after)
    ensures TlsCutover.Fresh(l, after)
    ensures TlsCutover.NoCollision(l, start) ==> TlsCutover.NoCollision(l, after)
    ensures TlsCutover.Clear(l, start) ==> TlsCutover.Clear(l, after)
  {
    TlsPathsApart(start, swaps, l, start, after, l.BackupPath());
    forall n
      ensures At(after, Path(l.Backup(), n)) == At(start, Path(l.Backup(), n))
      ensures At(after, Path(l.root, n)) == At(start, Path(l.root, n))
      ensures At(after, Path(l.Stage(), n)) == At(start, Path(l.Stage(), n))
    {
      TlsPathsApart(start, swaps, l, start, after, Path(l.Backup(), n));
      TlsPathsApart(start, swaps, l, start, after, Path(l.root, n));
      TlsPathsApart(start, swaps, l, start, after, Path(l.Stage(), n));
    }
    SameNames(start, after, l.Backup());
  }

  lemma SwapsApart(start: Files, swaps: seq<Swap>, l: TlsCutover.Layout, before: Files, after: Files)
    requires Setup(start, swaps, l) && TlsCutover.SameOutside(l, before, after)
    ensures forall i :: 0 <= i < |swaps| ==> swaps[i].ViewIn(after) == swaps[i].ViewIn(before)
  {
    forall i | 0 <= i < |swaps|
      ensures swaps[i].ViewIn(after) == swaps[i].ViewIn(before)
    {
      SameView(swaps[i], before, after);
    }
  }

  lemma ShiftedSameOutside(l: TlsCutover.Layout, start: Files, files: Files, backedUp: seq<string>,
                           installed: seq<string>)
    requires l.Valid() && TlsCutover.Shifted(l, start, files, backedUp, installed)
    ensures TlsCutover.SameOutside(l, start, files)
  {
    forall p: Path | p.folder !in {l.root, l.Stage(), l.Backup()}
      ensures At(files, p) == At(start, p)
    {
      assert At(files, p) == TlsCutover.Placed(l, start, backedUp, installed, backedUp, installed, p);
    }
  }

  // rollbackFiles: the TLS directory first, then the completed swaps.
  // `swapped` is the disk that the TLS cutover started from.
  method RollbackFiles(disk: Disk, swaps: seq<Swap>, completed: nat, tls: TlsCutover.RestoreTLSCutover,
                       ghost start: Files, ghost swapped: Files)
    returns (ok: bool)
    requires Setup(start, swaps, tls.l) && completed <= |swaps|
    requires AllApplied(swaps[..completed], start, swapped) && SameOutsideSwaps(swaps, start, swapped)
    requires SwapsSafe(swaps[completed..], start, swapped)
    requires TlsCutover.Shifted(tls.l, swapped, disk.files, tls.backedUp, tls.installed)
    modifies disk
    ensures ok && TlsCutover.NoCollision(tls.l, start) && Untouched(swaps[completed..], start, swapped) ==>
      Restored(start, disk.files, tls.l)
    ensures OriginalsSurvive(start, disk.files, swaps, tls.l)
    ensures disk.faults >= old(disk.faults) + Failures(ok)
  {
    ghost var found := disk.files;
    TlsStillFresh(start, swaps, tls.l, swapped);
    ShiftedSameOutside(tls.l, swapped, found, tls.backedUp, tls.installed);
    SwapsApart(start, swaps, tls.l, swapped, found);
    TlsCutover.ShiftedIsRecorded(tls.l, swapped, found, tls.backedUp, tls.installed);
    var tlsDone := tls.Rollback(disk, swapped);
    ghost var middle := disk.files;
    SwapsApart(start, swaps, tls.l, found, middle);
    forall i | 0 <= i < completed
      ensures swaps[..completed][i].ViewIn(middle) == swaps[..completed][i].ViewIn(swapped)
    {
    }
    var swapsDone := RollbackSwaps(disk, swaps[..completed], start);
    ok := tlsDone && swapsDone;
    OthersApart(start, swaps, completed, tls.l, middle, disk.files);
    FilesSurvive(start, swapped, middle, disk.files, swaps, completed, tls.l);
    if ok && TlsCutover.NoCollision(tls.l, start) && Untouched(swaps[completed..], start, swapped) {
      TlsCutover.RollbackRestores(tls.l, swapped, middle, tls.backedUp, tls.installed);
      AllUntouched(start, swapped, middle, disk.files, swaps, completed);
      RestoredByParts(start, swapped, middle, disk.files, swaps, tls.l);
    }
  }

  lemma AllUntouched(start: Files, swapped: Files, middle: Files, end: Files, swaps: seq<Swap>, completed: nat)
    requires completed <= |swaps|
    requires Untouched(swaps[..completed], start, end) && Untouched(swaps[completed..], start, swapped)
    requires forall s :: s in swaps ==> s.ViewIn(middle) == s.ViewIn(swapped)
    requires forall s :: s in swaps[completed..] ==> s.ViewIn(end) == s.ViewIn(middle)
    ensures Untouched(swaps, start, end)
  {
    forall i | 0 <= i < |swaps|
      ensures swaps[i].ViewIn(end) == swaps[i].ViewIn(start)
    {
      if i < completed {
        assert swaps[..completed][i] == swaps[i];
      } else {
        assert swaps[completed..][i - completed] == swaps[i];
      }
    }
  }

  lemma FilesSurvive(start: Files, swapped: Files, middle: Files, end: Files, swaps: seq<Swap>, completed: nat,
                     l: TlsCutover.Layout)
    requires Setup(start, swaps, l) && completed <= |swaps|
    requires SameOutsideSwaps(swaps, start, swapped) && SameOutsideSwaps(swaps, middle, end)
    requires TlsCutover.FormerEntriesSurvive(l, swapped, middle)
    requires SwapsSafe(swaps[..completed], start, end) && SwapsSafe(swaps[completed..], start, swapped)
    requires forall s :: s in swaps ==> s.ViewIn(middle) == s.ViewIn(swapped)
    requires forall s :: s in swaps[completed..] ==> s.ViewIn(end) == s.ViewIn(middle)
    ensures OriginalsSurvive(start, end, swaps, l)
  {
    assert swaps == swaps[..completed] + swaps[completed..];
    FormerEntriesCarryOver(start, swapped, middle, end, swaps, l);
  }

  // What happens to the first swaps leaves the other ones alone.
  lemma OthersApart(start: Files, swaps: seq<Swap>, completed: nat, l: TlsCutover.Layout, before: Files, after: Files)
    requires Setup(start, swaps, l) && completed <= |swaps|
    requires SameOutsideSwaps(swaps[..completed], before, after)
    ensures SameOutsideSwaps(swaps, before, after)
    ensures forall s :: s in swaps[completed..] ==> s.ViewIn(after) == s.ViewIn(before)
  {
    forall p | forall i :: 0 <= i < |swaps| ==> p !in swaps[i].Paths()
      ensures At(after, p) == At(before, p)
    {
      assert forall i :: 0 <= i < completed ==> p !in swaps[..completed][i].Paths();
    }
    forall j | completed <= j < |swaps|
      ensures swaps[j].ViewIn(after) == swaps[j].ViewIn(before)
    {
      forall p | p in swaps[j].Paths()
        ensures At(after, p) == At(before, p)
      {
        forall i | 0 <= i < completed
          ensures p !in swaps[..completed][i].Paths()
        {
          assert swaps[i].Paths() !! swaps[j].Paths();
        }
      }
      SameView(swaps[j], before, after);
    }
  }

  lemma RestoredByParts(start: Files, swapped: Files, middle: Files, end: Files, swaps: seq<Swap>, l: TlsCutover.Layout)
    requires SameOutsideSwaps(swaps, start, swapped) && SameOutsideSwaps(swaps, middle, end)
    requires Restored(swapped, middle, l) && Untouched(swaps, start, end)
    ensures Restored(start, end, l)
  {
    forall p | p != l.BackupPath()
      ensures At(end, p) == At(start, p)
    {
      if i :| 0 <= i < |swaps| && p in swaps[i].Paths() {
        assert swaps[i].ViewIn(end) == swaps[i].ViewIn(start);
      } else {
        assert At(middle, p) == At(swapped, p);
      }
    }
  }

  lemma FormerEntriesCarryOver(start: Files, swapped: Files, middle: Files, end: Files, swaps: seq<Swap>,
                               l: TlsCutover.Layout)
    requires Setup(start, swaps, l)
    requires SameOutsideSwaps(swaps, start, swapped) && SameOutsideSwaps(swaps, middle, end)
    requires TlsCutover.FormerEntriesSurvive(l, swapped, middle)
    ensures TlsCutover.FormerEntriesSurvive(l, start, end)
  {
    forall n
      ensures At(swapped, Path(l.root, n)) == At(start, Path(l.root, n))
      ensures At(end, Path(l.root, n)) == At(middle, Path(l.root, n))
      ensures At(end, Path(l.Backup(), n)) == At(middle, Path(l.Backup(), n))
    {
      TlsPathsApart(start, swaps, l, start, swapped, Path(l.root, n));
      TlsPathsApart(start, swaps, l, middle, end, Path(l.root, n));
      TlsPathsApart(start, swaps, l, middle, end, Path(l.Backup(), n));
    }
  }

  // failPendingOnlineRestore: only a complete rollback drops the restored
  // database.
  method FailPending(clickHouse: ClickHouse, rolledBack: bool) returns (e: Ending)
    modifies clickHouse`catalog
    ensures e == if rolledBack then RolledBack else RollbackFailed
    ensures clickHouse.catalog == old(clickHouse.catalog)
            || (rolledBack && clickHouse.catalog == old(clickHouse.catalog).(temporary := None))
  {
    if rolledBack {
      clickHouse.DropTemporary();
    }
    return if rolledBack then RolledBack else RollbackFailed;
  }

  // The data directory and the TLS directory, with their rollback.
  method ApplyFiles(disk: Disk, swaps: seq<Swap>, tls: TlsCutover.RestoreTLSCutover) returns (done: bool, undone: bool)
    requires Setup(disk.files, swaps, tls.l)
    requires forall s :: s in swaps ==> s.CurrentFlags() == PathSwap.NO_FLAGS
    requires tls.backedUp == [] && tls.installed == []
    modifies disk, swaps, tls
    ensures done ==> Committed(old(disk.files), disk.files, swaps, tls.l)
    ensures !done && undone && TlsCutover.NoCollision(tls.l, old(disk.files)) ==>
      Restored(old(disk.files), disk.files, tls.l)
    ensures OriginalsSurvive(old(disk.files), disk.files, swaps, tls.l)
    ensures TlsCutover.Clear(tls.l, old(disk.files)) ==>
      disk.faults >= old(disk.faults) + Failures(done) + Failures(done || undone)
  {
    ghost var start := disk.files;
    var r, completed, current := ApplySwaps(disk, swaps, tls.l);
    ghost var swapped := disk.files;
    TlsStillFresh(start, swaps, tls.l, swapped);
    if r != Ok {
      var files := RollbackFiles(disk, swaps, completed, tls, start, swapped);
      return false, current && files;
    }
    assert swaps[..completed] == swaps;
    done, undone := ApplyTls(disk, swaps, tls, start);
  }

  // The TLS directory, once all the swaps are done; then the configuration is
  // tried.
  method ApplyTls(disk: Disk, swaps: seq<Swap>, tls: TlsCutover.RestoreTLSCutover, ghost start: Files)
    returns (done: bool, undone: bool)
    requires Setup(start, swaps, tls.l) && TlsCutover.Fresh(tls.l, disk.files)
    requires AllApplied(swaps, start, disk.files) && SameOutsideSwaps(swaps, start, disk.files)
    requires tls.backedUp == [] && tls.installed == []
    modifies disk, tls
    ensures done ==> Committed(start, disk.files, swaps, tls.l)
    ensures !done && undone && TlsCutover.NoCollision(tls.l, start) ==> Restored(start, disk.files, tls.l)
    ensures OriginalsSurvive(start, disk.files, swaps, tls.l)
    ensures TlsCutover.Clear(tls.l, old(disk.files)) ==>
      disk.faults >= old(disk.faults) + Failures(done) + Failures(done || undone)
  {
    ghost var swapped := disk.files;
    var t := tls.Apply(disk);
    var valid := false;
    if t == Ok {
      valid := disk.Attempt();
    }
    if !valid {
      undone := TakeBackAll(disk, swaps, tls, start, swapped);
      return false, undone;
    }
    CommittedByParts(start, swapped, disk.files, swaps, tls);
    return true, false;
  }

  // rollbackFiles when all swaps were done.
  method TakeBackAll(disk: Disk, swaps: seq<Swap>, tls: TlsCutover.RestoreTLSCutover, ghost start: Files,
                     ghost swapped: Files)
    returns (ok: bool)
    requires Setup(start, swaps, tls.l) && AllApplied(swaps, start, swapped) && SameOutsideSwaps(swaps, start, swapped)
    requires TlsCutover.Shifted(tls.l, swapped, disk.files, tls.backedUp, tls.installed)
    modifies disk
    ensures ok && TlsCutover.NoCollision(tls.l, start) ==> Restored(start, disk.files, tls.l)
    ensures OriginalsSurvive(start, disk.files, swaps, tls.l)
    ensures disk.faults >= old(disk.faults) + Failures(ok)
  {
    assert swaps[..|swaps|] == swaps && swaps[|swaps|..] == [];
    ok := RollbackFiles(disk, swaps, |swaps|, tls, start, swapped);
  }

  lemma CommittedByParts(start: Files, swapped: Files, files: Files, swaps: seq<Swap>,
                         tls: TlsCutover.RestoreTLSCutover)
    requires Setup(start, swaps, tls.l) && SameOutsideSwaps(swaps, start, swapped) && AllApplied(swaps, start, swapped)
    requires TlsCutover.Shifted(tls.l, swapped, files, tls.backedUp, tls.installed)
    requires TlsCutover.Complete(tls.l, swapped, tls.backedUp, tls.installed)
    ensures Committed(start, files, swaps, tls.l)
    ensures OriginalsSurvive(start, files, swaps, tls.l)
  {
    CommittedTls(start, swapped, files, swaps, tls);
    ShiftedSameOutside(tls.l, swapped, files, tls.backedUp, tls.installed);
    SwapsApart(start, swaps, tls.l, swapped, files);
    forall s | s in swaps
      ensures PathSwap.Safe(s.ViewIn(files), s.ViewIn(start).live, s.ViewIn(start).staged)
    {
      UndoOne(s, start, s.SnapIn(swapped));
    }
  }

  lemma CommittedTls(start: Files, swapped: Files, files: Files, swaps: seq<Swap>, tls: TlsCutover.RestoreTLSCutover)
    requires Setup(start, swaps, tls.l) && SameOutsideSwaps(swaps, start, swapped)
    requires TlsCutover.Shifted(tls.l, swapped, files, tls.backedUp, tls.installed)
    requires TlsCutover.Complete(tls.l, swapped, tls.backedUp, tls.installed)
    ensures forall n :: tls.l.Moves(n) ==> At(files, Path(tls.l.root, n)) == At(start, Path(tls.l.Stage(), n))
    ensures forall n :: tls.l.Moves(n) ==> At(files, Path(tls.l.Backup(), n)) == At(start, Path(tls.l.root, n))
  {
    var l := tls.l;
    TlsStillFresh(start, swaps, l, swapped);
    forall n
      ensures l.Moves(n) ==> At(files, Path(l.root, n)) == At(start, Path(l.Stage(), n))
      ensures l.Moves(n) ==> At(files, Path(l.Backup(), n)) == At(start, Path(l.root, n))
    {
      TlsCutover.CompleteCutover(l, swapped, files, tls.backedUp, tls.installed, n);
      TlsPathsApart(start, swaps, l, start, swapped, Path(l.Stage(), n));
      TlsPathsApart(start, swaps, l, start, swapped, Path(l.root, n));
    }
  }

  // The cutover from a fresh start, after everything was staged and verified.
  // A failure can happen at every step.
  method ApplyPending(disk: Disk, clickHouse: ClickHouse, swaps: seq<Swap>, tls: TlsCutover.RestoreTLSCutover)
    returns (e: Ending)
    requires Setup(disk.files, swaps, tls.l) && IsFirst(clickHouse.catalog)
    requires forall s :: s in swaps ==> s.CurrentFlags() == PathSwap.NO_FLAGS
    requires tls.backedUp == [] && tls.installed == []
    modifies disk, clickHouse, swaps, tls
    ensures e in {Completed, Unrecorded} ==>
      && Committed(old(disk.files), disk.files, swaps, tls.l)
      && clickHouse.catalog == Promoted(old(clickHouse.catalog))
    ensures e == RolledBack ==>
      && (TlsCutover.NoCollision(tls.l, old(disk.files)) ==> Restored(old(disk.files), disk.files, tls.l))
      && clickHouse.catalog.(temporary := None) == old(clickHouse.catalog).(temporary := None)
    ensures OriginalsSurvive(old(disk.files), disk.files, swaps, tls.l)
    ensures Holds(clickHouse.catalog, old(clickHouse.catalog).current)
    ensures e != RolledBack ==> Holds(clickHouse.catalog, old(clickHouse.catalog).temporary)
    // It takes one failure for it not to complete, and two for it to be left
    // halfway.
    ensures TlsCutover.Clear(tls.l, old(disk.files)) ==>
      disk.faults + clickHouse.faults >=
      old(disk.faults + clickHouse.faults) + Failures(e == Completed) + Failures(e != RollbackFailed)
  {
    var p := clickHouse.Promote();
    if p.outcome != ManualRollback {
      PromotionCanBeRolledBack(old(clickHouse.catalog), clickHouse.catalog, p);
    }
    if p.outcome != Ok {
      var undone := clickHouse.RollbackPromotion(p);
      e := FailPending(clickHouse, p.outcome != ManualRollback && undone);
      return;
    }
    var recorded := disk.Attempt();
    if !recorded {
      var undone := clickHouse.RollbackPromotion(p);
      e := FailPending(clickHouse, undone);
      return;
    }
    var done, filesUndone := ApplyFiles(disk, swaps, tls);
    if !done {
      var undone := clickHouse.RollbackPromotion(p);
      e := FailPending(clickHouse, filesUndone && undone);
      return;
    }
    recorded := disk.Attempt();
    return if recorded then Completed else Unrecorded;
  }
}

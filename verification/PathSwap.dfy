// One path of the online-restore cutover: the live data is renamed to a backup
// (or its absence is marked) and the staged copy is renamed into its place.
module PathSwap {
  import opened Options
  import opened RestoreDisk

  // What the four paths of a swap hold.
  datatype View = View(live: Option<Item>, staged: Option<Item>, backup: Option<Item>, marker: Option<Item>)

  // What a swap remembers, in memory only, for its rollback.
  datatype Flags = Flags(hadLive: bool, absent: bool, installed: bool)

  datatype Snap = Snap(view: View, flags: Flags)

  const NO_FLAGS := Flags(false, false, false)

  const MARKER := File("")

  // ---------- what apply can leave behind ----------

  // Rollback data and an absence marker together, or data that is in neither
  // place, or live data that is not the staged copy: a state that apply refuses.
  predicate Refused(v: View) {
    || (v.backup.Some? && v.marker.Some?)
    || (Saved(v) && v.staged.None? && v.live.None?)
    || (Saved(v) && v.staged.Some? && v.live.Some? && v.live != v.staged)
  }

  predicate Saved(v: View) {
    v.backup.Some? || v.marker.Some?
  }

  // The snapshots an uninterrupted apply goes through, first to last. The
  // flags change before the rename that they describe when the live data was
  // put aside by an earlier process.
  function ApplyTrace(v: View): (trace: seq<Snap>)
    ensures trace != [] && trace[0] == Snap(v, NO_FLAGS)
  {
    var start := [Snap(v, NO_FLAGS)];
    var saved := Flags(v.backup.Some?, v.marker.Some?, false);
    if Refused(v) then start
    else if Saved(v) then
      if v.staged.None? then start + [Snap(v, saved.(installed := true))]
      else if v.live.Some? then
        start + [Snap(v, saved.(installed := true)), Snap(v.(staged := None), saved.(installed := true))]
      else
        start + [Snap(v, saved), Snap(v.(staged := None, live := v.staged), saved.(installed := true))]
    else if v.live.Some? then
      var aside := v.(live := None, backup := v.live);
      start + [Snap(aside, Flags(true, false, false))] +
      (if v.staged.None? then [] else [Snap(aside.(staged := None, live := v.staged), Flags(true, false, true))])
    else if v.staged.Some? then
      var marked := v.(marker := Some(MARKER));
      start + [Snap(marked, Flags(false, true, false)),
               Snap(marked.(staged := None, live := v.staged), Flags(false, true, true))]
    else start
  }

  // A run of apply that is cut short, or whose operations fail, ends on one of
  // the snapshots, or with a duplicate staged tree that is partly removed.
  ghost predicate Reached(v: View, s: Snap) {
    || s in ApplyTrace(v)
    || (&& s.view.staged.Some? && s.view.staged.value.Tree? && v.staged.Some? && v.staged.value.Tree?
        && v.live == v.staged && Saved(v) && !Refused(v)
        && s == Snap(v.(staged := s.view.staged), Flags(v.backup.Some?, v.marker.Some?, true)))
  }

  // The views an uninterrupted rollback goes through.
  function RollbackTrace(s: Snap): (trace: seq<View>)
    ensures trace != []
  {
    var v := s.view;
    if s.flags.installed then
      [v] + RestoreTrace(v.(live := None, staged := v.live), s.flags)
    else
      RestoreTrace(v, s.flags)
  }

  function RestoreTrace(v: View, flags: Flags): (trace: seq<View>)
    ensures trace != []
  {
    if flags.hadLive then [v, v.(live := v.backup, backup := None)]
    else if flags.absent then [v, v.(marker := None)]
    else [v]
  }

  // ---------- the swap itself ----------

  class RestorePathSwap {
    const live: Path
    const staged: Path
    const backup: Path
    var hadLive: bool
    var absent: bool
    var installed: bool

    constructor (live: Path, staged: Path, backup: Path)
      ensures this.live == live && this.staged == staged && this.backup == backup
      ensures CurrentFlags() == NO_FLAGS
    {
      this.live, this.staged, this.backup := live, staged, backup;
      hadLive, absent, installed := false, false, false;
    }

    function Marker(): Path {
      Path(backup.folder, backup.name + ".absent")
    }

    function Paths(): set<Path> {
      {live, staged, backup, Marker()}
    }

    predicate DistinctPaths() {
      live != staged && live != backup && live != Marker() && staged != backup && staged != Marker()
    }

    function ViewIn(files: Files): View {
      View(At(files, live), At(files, staged), At(files, backup), At(files, Marker()))
    }

    function CurrentFlags(): Flags
      reads this
    {
      Flags(hadLive, absent, installed)
    }

    function SnapIn(files: Files): Snap
      reads this
    {
      Snap(ViewIn(files), CurrentFlags())
    }

    method Apply(disk: Disk) returns (r: Outcome)
      requires DistinctPaths() && CurrentFlags() == NO_FLAGS
      modifies this, disk
      ensures forall p :: p !in Paths() ==> At(disk.files, p) == At(old(disk.files), p)
      ensures Reached(ViewIn(old(disk.files)), SnapIn(disk.files))
      ensures r == Ok ==> !Refused(ViewIn(old(disk.files)))
                          && SnapIn(disk.files) == Last(ApplyTrace(ViewIn(old(disk.files))))
      ensures Refused(ViewIn(old(disk.files))) ==> disk.files == old(disk.files)
      ensures Fresh(ViewIn(old(disk.files))) ==> r != ManualRollback
      ensures disk.faults >= old(disk.faults)
      ensures disk.faults == old(disk.faults) ==>
                r == if Refused(ViewIn(old(disk.files))) then ManualRollback else Ok
      ensures disk.lost == old(disk.lost)
    {
      assert SnapIn(disk.files) == ApplyTrace(ViewIn(disk.files))[0];
      var backupStat := disk.Lstat(backup);
      if backupStat == Unreadable { return Failed; }
      var liveStat := disk.Lstat(live);
      if liveStat == Unreadable { return Failed; }
      var stagedStat := disk.Lstat(staged);
      if stagedStat == Unreadable { return Failed; }
      var markerStat := disk.Lstat(Marker());
      if markerStat == Unreadable { return Failed; }
      if backupStat == Found && markerStat == Found {
        return ManualRollback;
      }
      if backupStat == Found || markerStat == Found {
        r := Resume(disk, backupStat == Found, markerStat == Found, liveStat == Found, stagedStat == Found);
      } else {
        r := Begin(disk, liveStat == Found, stagedStat == Found);
      }
    }

    // The part of apply for data that an earlier process put aside.
    method Resume(disk: Disk, backupExists: bool, markerExists: bool, liveExists: bool, stagedExists: bool)
      returns (r: Outcome)
      requires DistinctPaths() && CurrentFlags() == NO_FLAGS
      requires backupExists != markerExists
      requires liveExists == (live in disk.files) && stagedExists == (staged in disk.files)
      requires backupExists == (backup in disk.files) && markerExists == (Marker() in disk.files)
      modifies this, disk
      ensures forall p :: p !in Paths() ==> At(disk.files, p) == At(old(disk.files), p)
      ensures Reached(ViewIn(old(disk.files)), SnapIn(disk.files))
      ensures r == Ok ==> !Refused(ViewIn(old(disk.files)))
                          && SnapIn(disk.files) == Last(ApplyTrace(ViewIn(old(disk.files))))
      ensures Refused(ViewIn(old(disk.files))) ==> disk.files == old(disk.files)
      ensures disk.faults >= old(disk.faults)
      ensures disk.faults == old(disk.faults) ==>
                r == if Refused(ViewIn(old(disk.files))) then ManualRollback else Ok
      ensures disk.lost == old(disk.lost)
    {
      ghost var trace := ApplyTrace(ViewIn(disk.files));
      assert SnapIn(disk.files) == trace[0];
      if !stagedExists {
        if !liveExists {
          return ManualRollback;
        }
        hadLive, absent, installed := backupExists, markerExists, true;
        assert SnapIn(disk.files) == trace[1];
        return Ok;
      }
      if liveExists {
        var comparison := Equivalent(disk);
        if comparison != Found {
          return ManualRollback;
        }
        hadLive, absent, installed := backupExists, markerExists, true;
        assert SnapIn(disk.files) == trace[1];
        var removed := disk.RemoveAll(staged);
        if !removed {
          return ManualRollback;
        }
        assert SnapIn(disk.files) == trace[2];
        return Ok;
      }
      hadLive, absent := backupExists, markerExists;
      assert SnapIn(disk.files) == trace[1];
      var moved := disk.Rename(staged, live);
      if !moved { return Failed; }
      installed := true;
      assert SnapIn(disk.files) == trace[2];
      return Ok;
    }

    // The part of apply for a fresh start.
    method Begin(disk: Disk, liveExists: bool, stagedExists: bool) returns (r: Outcome)
      requires DistinctPaths() && CurrentFlags() == NO_FLAGS
      requires Fresh(ViewIn(disk.files))
      requires liveExists == (live in disk.files) && stagedExists == (staged in disk.files)
      modifies this, disk
      ensures forall p :: p !in Paths() ==> At(disk.files, p) == At(old(disk.files), p)
      ensures SnapIn(disk.files) in ApplyTrace(ViewIn(old(disk.files)))
      ensures r == Ok ==> SnapIn(disk.files) == Last(ApplyTrace(ViewIn(old(disk.files))))
      ensures r != ManualRollback
      ensures disk.faults >= old(disk.faults)
      ensures disk.faults == old(disk.faults) ==> r == Ok
      ensures disk.lost == old(disk.lost)
    {
      ghost var trace := ApplyTrace(ViewIn(disk.files));
      assert SnapIn(disk.files) == trace[0];
      if liveExists {
        var aside := disk.Rename(live, backup);
        if !aside { return Failed; }
        hadLive := true;
        assert SnapIn(disk.files) == trace[1];
      } else if stagedExists {
        var created := disk.CreateExclusive(Marker());
        if !created { return Failed; }
        absent := true;
        assert SnapIn(disk.files) == trace[1];
        var closed := disk.Attempt();
        if !closed { return Failed; }
      }
      if stagedExists {
        var moved := disk.Rename(staged, live);
        if !moved { return Failed; }
        installed := true;
        assert SnapIn(disk.files) == trace[2];
      }
      return Ok;
    }

    // Found when live and staged hold the same data, Missing when they differ.
    method Equivalent(disk: Disk) returns (r: Stat)
      requires live in disk.files && staged in disk.files
      modifies disk`faults
      ensures r == Found ==> disk.files[live] == disk.files[staged]
      ensures r == Missing ==> disk.files[live] != disk.files[staged]
      ensures disk.faults == old(disk.faults) + if r == Unreadable then 1 else 0
    {
      var leftStat := disk.Lstat(live);
      if leftStat == Unreadable { return Unreadable; }
      var rightStat := disk.Lstat(staged);
      if rightStat == Unreadable { return Unreadable; }
      return if disk.files[live] == disk.files[staged] then Found else Missing;
    }

    method Rollback(disk: Disk) returns (ok: bool)
      requires DistinctPaths()
      modifies disk
      ensures forall p :: p !in Paths() ==> At(disk.files, p) == At(old(disk.files), p)
      ensures Undoable(SnapIn(old(disk.files))) ==>
                && ViewIn(disk.files) in RollbackTrace(SnapIn(old(disk.files)))
                && (ok ==> ViewIn(disk.files) == Last(RollbackTrace(SnapIn(old(disk.files)))))
                && disk.lost == old(disk.lost)
      ensures disk.faults >= old(disk.faults)
      ensures FreelyUndoable(SnapIn(old(disk.files))) ==> disk.faults >= old(disk.faults) + Failures(ok)
    {
      ghost var s := SnapIn(disk.files);
      ghost var trace := RollbackTrace(s);
      if Undoable(s) {
        UndoableTrace(s);
        assert trace[0] == ViewIn(disk.files);
      }
      if installed {
        var moved := disk.Rename(live, staged);
        if !moved { return false; }
        if Undoable(s) {
          assert ViewIn(disk.files) == trace[1];
        }
      }
      if hadLive {
        var restored := disk.Rename(backup, live);
        if Undoable(s) && restored {
          assert ViewIn(disk.files) == Last(trace);
        }
        return restored;
      }
      if absent {
        var removed := disk.Remove(Marker());
        if !removed { return false; }
        if Undoable(s) {
          assert ViewIn(disk.files) == Last(trace);
        }
      }
      return true;
    }
  }

  // The flags tell the truth about the view, so that the renames of a rollback
  // have a source and no target that holds anything else.
  predicate Undoable(s: Snap) {
    && (s.flags.installed ==> s.view.live.Some?)
    && (s.flags.installed && s.view.staged.Some? ==> s.view.staged == s.view.live || s.view.staged.value.Tree?)
    && (s.flags.hadLive ==> s.view.backup.Some?)
    && (s.flags.hadLive && !s.flags.installed ==> s.view.live.None?)
  }

  // With nothing at all in the way of the staged data.
  predicate FreelyUndoable(s: Snap) {
    Undoable(s) && (s.flags.installed ==> s.view.staged.None?)
  }

  lemma UndoableTrace(s: Snap)
    ensures RollbackTrace(s)[0] == s.view
  {
  }

  // ---------- one process: rollback undoes exactly what apply did ----------

  // Nothing of an earlier attempt is left.
  predicate Fresh(v: View) {
    v.backup.None? && v.marker.None?
  }

  // Wherever apply stops, its flags are fit for a rollback.
  lemma ApplyLeavesUndoable(v: View, s: Snap)
    requires Reached(v, s)
    ensures Undoable(s)
  {
  }

  // From a fresh start, rolling back a swap that stopped anywhere (also one
  // that finished) brings back all four paths.
  lemma RollbackUndoesApply(v: View, s: Snap)
    requires Fresh(v) && Reached(v, s)
    ensures Last(RollbackTrace(s)) == v
  {
  }

  // ---------- many processes: crashes, rollbacks and staging again ----------

  // The original data, or the fact that there was none, is on the disk: under
  // the live path, under the backup path or as a marker. `copy` is what every
  // process stages.
  predicate Safe(v: View, original: Option<Item>, copy: Option<Item>) {
    || (v.live == original && v.backup.None? && v.marker.None?)
    || (original.Some? && v.backup == original && v.marker.None? && (v.live.None? || v.live == copy))
    || (original.None? && copy.Some? && v.backup.None? && v.marker == Some(MARKER) && (v.live.None? || v.live == copy))
  }

  // One event between two views. A process runs apply after it staged the
  // copy, stops anywhere in it or goes on to a rollback that stops anywhere.
  ghost predicate Next(v: View, w: View, copy: Option<Item>) {
    || w == v.(staged := w.staged)
    || (v.staged == copy && exists s :: Reached(v, s) && (w == s.view || w in RollbackTrace(s)))
  }

  ghost predicate IsRun(run: seq<View>, copy: Option<Item>) {
    forall i :: 0 < i < |run| ==> Next(run[i - 1], run[i], copy)
  }

  lemma ApplyKeepsSafe(v: View, s: Snap, original: Option<Item>, copy: Option<Item>)
    requires Safe(v, original, copy) && v.staged == copy && Reached(v, s)
    ensures Safe(s.view, original, copy)
    ensures forall w :: w in RollbackTrace(s) ==> Safe(w, original, copy)
  {
  }

  lemma NextKeepsSafe(v: View, w: View, original: Option<Item>, copy: Option<Item>)
    requires Safe(v, original, copy) && Next(v, w, copy)
    ensures Safe(w, original, copy)
  {
    if w != v.(staged := w.staged) {
      var s :| Reached(v, s) && (w == s.view || w in RollbackTrace(s));
      ApplyKeepsSafe(v, s, original, copy);
    }
  }

  // Over any run of processes that crash or fail anywhere, the original data
  // is never in neither place.
  lemma {:induction false} OriginalSurvivesEveryRun(run: seq<View>, original: Option<Item>, copy: Option<Item>)
    requires |run| > 0 && Fresh(run[0]) && run[0].live == original && IsRun(run, copy)
    ensures forall i :: 0 <= i < |run| ==> Safe(run[i], original, copy)
  {
    if |run| > 1 {
      var n := |run| - 1;
      OriginalSurvivesEveryRun(run[..n], original, copy);
      assert Safe(run[..n][n - 1], original, copy);
      NextKeepsSafe(run[n - 1], run[n], original, copy);
    }
  }

  // The view after one uninterrupted apply from a fresh start.
  function Installed(original: Option<Item>, copy: Item): View {
    View(Some(copy), None, original, if original.None? then Some(MARKER) else None)
  }

  // After any such run, staging the copy again and applying it ends in the
  // state that one uninterrupted apply would have ended in.
  lemma ReapplyConverges(run: seq<View>, original: Option<Item>, copy: Item)
    requires |run| > 0 && Fresh(run[0]) && run[0].live == original && IsRun(run, Some(copy))
    requires Last(run).staged == Some(copy)
    ensures !Refused(Last(run))
    ensures Last(ApplyTrace(Last(run))).view == Installed(original, copy)
    ensures Last(ApplyTrace(View(original, Some(copy), None, None))).view == Installed(original, copy)
  {
    OriginalSurvivesEveryRun(run, original, Some(copy));
    assert Safe(run[|run| - 1], original, Some(copy));
  }

  // The WAL and SHM swaps stage nothing. After any run, applying such a swap
  // is refused exactly when the original was put aside and not brought back.
  lemma ReapplyWithoutCopy(run: seq<View>, original: Option<Item>)
    requires |run| > 0 && Fresh(run[0]) && run[0].live == original && IsRun(run, None)
    requires Last(run).staged == None
    ensures Refused(Last(run)) <==> Last(run).backup.Some?
    ensures Last(run).backup.Some? ==> Last(run).backup == original && Last(run).live.None?
  {
    OriginalSurvivesEveryRun(run, original, None);
    assert Safe(run[|run| - 1], original, None);
  }
}

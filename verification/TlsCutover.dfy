// The control TLS directory of the online-restore cutover: every entry is
// renamed to a backup directory and every staged entry takes its place.
module TlsCutover {
  import opened Options
  import opened RestoreDisk

  const BEFORE_RESTORE := "before-restore-"

  // The directories involved, all three known by their full name. Stage and
  // backup are also entries of the root.
  datatype Layout = Layout(root: string, stageName: string, backupName: string) {
    function Stage(): string { root + "/" + stageName }

    function Backup(): string { root + "/" + backupName }

    function BackupPath(): Path { Path(root, backupName) }

    predicate Valid() { stageName != backupName }

    // The entries of the root that the cutover moves.
    predicate Moves(name: string) {
      name != stageName && name != backupName && !(BEFORE_RESTORE <= name)
    }

    lemma DistinctFolders()
      requires Valid()
      ensures root != Stage() && root != Backup() && Stage() != Backup()
    {
      assert Stage()[|root| + 1..] == stageName && Backup()[|root| + 1..] == backupName;
    }
  }

  // The layout of the job with an id.
  function LayoutOf(root: string, id: string): Layout {
    Layout(root, ".online-restore-" + id, BEFORE_RESTORE + id)
  }

  lemma LayoutOfIsValid(root: string, id: string)
    ensures LayoutOf(root, id).Valid()
  {
    assert LayoutOf(root, id).stageName[0] == '.' && LayoutOf(root, id).backupName[0] == 'b';
  }

  // What path p holds when, starting from `start`, the names in backedUp went
  // to the backup and those in installed came from the stage, and then all but
  // the names in `out` and `in'` were moved back again.
  ghost function Placed(l: Layout, start: Files, backedUp: seq<string>, installed: seq<string>,
                        out: seq<string>, in': seq<string>, p: Path): Option<Item>
  {
    if p.folder == l.Backup() && p.name in backedUp then
      if p.name in out then At(start, Path(l.root, p.name)) else None
    else if p.folder == l.root && p.name in in' then At(start, Path(l.Stage(), p.name))
    else if p.folder == l.root && p.name in out then None
    else if p.folder == l.root && p.name in installed && p.name !in backedUp then None
    else if p.folder == l.Stage() && p.name in in' then None
    else At(start, p)
  }

  ghost predicate IsPlaced(l: Layout, start: Files, files: Files, backedUp: seq<string>, installed: seq<string>,
                           out: seq<string>, in': seq<string>)
  {
    forall p :: p != l.BackupPath() ==> At(files, p) == Placed(l, start, backedUp, installed, out, in', p)
  }

  // The same but for what may be left in the stage of the names that came from it.
  ghost predicate IsLoose(l: Layout, start: Files, files: Files, backedUp: seq<string>, installed: seq<string>,
                          out: seq<string>, in': seq<string>)
  {
    forall p: Path :: p != l.BackupPath() && !(p.folder == l.Stage() && p.name in in') ==>
      At(files, p) == Placed(l, start, backedUp, installed, out, in', p)
  }

  // The names of a cutover are recorded, the stage may be filled again.
  ghost predicate Recorded(l: Layout, start: Files, files: Files, backedUp: seq<string>, installed: seq<string>) {
    && Distinct(backedUp) && Distinct(installed)
    && (forall n :: n in backedUp ==> l.Moves(n) && Path(l.root, n) in start)
    && (forall n :: n in installed ==> Path(l.Stage(), n) in start && n != l.backupName)
    && (installed != [] ==> forall n :: l.Moves(n) && Path(l.root, n) in start ==> n in backedUp)
    && IsLoose(l, start, files, backedUp, installed, backedUp, installed)
  }

  // The cutover moved exactly these names, in this order.
  ghost predicate Shifted(l: Layout, start: Files, files: Files, backedUp: seq<string>, installed: seq<string>) {
    && Distinct(backedUp) && Distinct(installed)
    && (forall n :: n in backedUp ==> l.Moves(n) && Path(l.root, n) in start)
    && (forall n :: n in installed ==> Path(l.Stage(), n) in start && n != l.backupName)
    && (installed != [] ==> forall n :: l.Moves(n) && Path(l.root, n) in start ==> n in backedUp)
    && IsPlaced(l, start, files, backedUp, installed, backedUp, installed)
  }

  // Everything that is to be moved was moved.
  ghost predicate Complete(l: Layout, start: Files, backedUp: seq<string>, installed: seq<string>) {
    && (forall n :: l.Moves(n) && Path(l.root, n) in start ==> n in backedUp)
    && (forall n :: Path(l.Stage(), n) in start ==> n in installed)
  }

  predicate IsFolder(files: Files, p: Path) {
    p in files && files[p] == Folder
  }

  // A finished cutover is recognised by an empty stage, or by a stage that was
  // filled again with what is live.
  ghost predicate Resumable(l: Layout, files: Files) {
    || (forall n :: Path(l.Stage(), n) !in files)
    || Matching(l, files)
  }

  ghost predicate Matching(l: Layout, files: Files) {
    && (forall n :: Path(l.Stage(), n) in files ==> At(files, Path(l.root, n)) == At(files, Path(l.Stage(), n)))
    && (forall n :: l.Moves(n) && Path(l.root, n) in files ==> Path(l.Stage(), n) in files)
  }

  // The names of a finished cutover as far as the disk shows them.
  ghost predicate Captured(l: Layout, files: Files, backedUp: seq<string>, installed: seq<string>) {
    NamesCaptured(l, files, backedUp, installed) && forall n :: Path(l.Stage(), n) !in files
  }

  ghost predicate NamesCaptured(l: Layout, files: Files, backedUp: seq<string>, installed: seq<string>) {
    && Lists(backedUp, files, l.Backup())
    && Distinct(installed)
    && (forall n :: n in installed <==> l.Moves(n) && Path(l.root, n) in files)
  }

  lemma NamesStayCaptured(l: Layout, before: Files, files: Files, backedUp: seq<string>, installed: seq<string>)
    requires l.Valid() && NamesCaptured(l, before, backedUp, installed)
    requires forall p: Path :: p.folder != l.Stage() ==> At(files, p) == At(before, p)
    ensures NamesCaptured(l, files, backedUp, installed)
  {
    l.DistinctFolders();
    forall n
      ensures Path(l.Backup(), n) in files <==> Path(l.Backup(), n) in before
      ensures Path(l.root, n) in files <==> Path(l.root, n) in before
    {
      assert At(files, Path(l.Backup(), n)) == At(before, Path(l.Backup(), n));
      assert At(files, Path(l.root, n)) == At(before, Path(l.root, n));
    }
  }

  // Every former entry of the root that the cutover moves is still in one of
  // the two places.
  ghost predicate FormerEntriesSurvive(l: Layout, start: Files, files: Files) {
    forall n :: l.Moves(n) && Path(l.root, n) in start ==>
      || At(files, Path(l.Backup(), n)) == At(start, Path(l.root, n))
      || At(files, Path(l.root, n)) == At(start, Path(l.root, n))
  }

  // Nothing changed outside the three directories.
  ghost predicate SameOutside(l: Layout, before: Files, after: Files) {
    forall p: Path :: p.folder !in {l.root, l.Stage(), l.Backup()} ==> At(after, p) == At(before, p)
  }

  // No backup directory, and nothing in it.
  ghost predicate Fresh(l: Layout, files: Files) {
    l.BackupPath() !in files && NamesIn(files, l.Backup()) == {}
  }

  lemma ShiftedIsRecorded(l: Layout, start: Files, files: Files, backedUp: seq<string>, installed: seq<string>)
    requires Shifted(l, start, files, backedUp, installed)
    ensures Recorded(l, start, files, backedUp, installed)
  {
  }

  lemma BackUpOne(l: Layout, start: Files, files: Files, backedUp: seq<string>, name: string)
    requires l.Valid() && Shifted(l, start, files, backedUp, [])
    requires l.Moves(name) && name !in backedUp && Path(l.root, name) in files
    ensures Shifted(l, start, Moved(files, Path(l.root, name), Path(l.Backup(), name)), backedUp + [name], [])
  {
    l.DistinctFolders();
    var after := Moved(files, Path(l.root, name), Path(l.Backup(), name));
    var more := backedUp + [name];
    assert At(files, Path(l.root, name)) == Placed(l, start, backedUp, [], backedUp, [], Path(l.root, name));
    forall p | p != l.BackupPath()
      ensures At(after, p) == Placed(l, start, more, [], more, [], p)
    {
      assert At(files, p) == Placed(l, start, backedUp, [], backedUp, [], p);
    }
  }

  // A former entry that is to be put aside is in its place, and nothing in
  // that which it is to get.
  lemma BackUpIsFree(l: Layout, start: Files, files: Files, backedUp: seq<string>, name: string)
    requires l.Valid() && Fresh(l, start) && Shifted(l, start, files, backedUp, [])
    requires l.Moves(name) && name !in backedUp && Path(l.root, name) in start
    ensures Path(l.root, name) in files && Path(l.Backup(), name) !in files
  {
    l.DistinctFolders();
    var source, target := Path(l.root, name), Path(l.Backup(), name);
    assert At(files, source) == Placed(l, start, backedUp, [], backedUp, [], source);
    assert At(files, target) == Placed(l, start, backedUp, [], backedUp, [], target);
    assert target in start ==> name in NamesIn(start, l.Backup());
  }

  // So with a staged entry.
  lemma RootIsFree(l: Layout, start: Files, files: Files, backedUp: seq<string>, installed: seq<string>, name: string)
    requires l.Valid() && Shifted(l, start, files, backedUp, installed)
    requires forall n :: l.Moves(n) && Path(l.root, n) in start ==> n in backedUp
    requires name !in installed && Path(l.Stage(), name) in start
    ensures Path(l.Stage(), name) in files
    ensures Clear(l, start) ==> Path(l.root, name) !in files
  {
    l.DistinctFolders();
    var source, target := Path(l.Stage(), name), Path(l.root, name);
    assert At(files, source) == Placed(l, start, backedUp, installed, backedUp, installed, source);
    if Clear(l, start) {
      assert At(files, target) == Placed(l, start, backedUp, installed, backedUp, installed, target);
    }
  }

  lemma InstallOne(l: Layout, start: Files, files: Files, backedUp: seq<string>, installed: seq<string>, name: string)
    requires l.Valid() && Shifted(l, start, files, backedUp, installed)
    requires name !in installed && name != l.backupName && Path(l.Stage(), name) in files
    requires forall n :: l.Moves(n) && Path(l.root, n) in start ==> n in backedUp
    ensures Shifted(l, start, Moved(files, Path(l.Stage(), name), Path(l.root, name)), backedUp, installed + [name])
  {
    l.DistinctFolders();
    var after := Moved(files, Path(l.Stage(), name), Path(l.root, name));
    var more := installed + [name];
    var source := Path(l.Stage(), name);
    assert At(files, source) == Placed(l, start, backedUp, installed, backedUp, installed, source);
    forall p | p != l.BackupPath()
      ensures At(after, p) == Placed(l, start, backedUp, more, backedUp, more, p)
    {
      assert At(files, p) == Placed(l, start, backedUp, installed, backedUp, installed, p);
    }
  }

  class RestoreTLSCutover {
    const l: Layout
    var backedUp: seq<string>
    var installed: seq<string>

    constructor (l: Layout)
      ensures this.l == l && backedUp == [] && installed == []
    {
      this.l := l;
      backedUp, installed := [], [];
    }

    method Begin(disk: Disk) returns (r: Outcome)
      requires l.Valid() && backedUp == [] && installed == []
      requires Fresh(l, disk.files)
      modifies this, disk
      ensures Shifted(l, old(disk.files), disk.files, backedUp, installed)
      ensures l.BackupPath() in disk.files ==> disk.files[l.BackupPath()] == Folder
      ensures r != ManualRollback
      ensures r == Ok ==> Complete(l, old(disk.files), backedUp, installed)
      ensures disk.faults >= old(disk.faults)
      ensures Clear(l, old(disk.files)) ==> disk.faults >= old(disk.faults) + Failures(r == Ok)
    {
      l.DistinctFolders();
      ghost var start := disk.files;
      var made := disk.MkdirAll(l.BackupPath());
      if !made { return Failed; }
      var listed, entries := disk.ReadDir(l.root);
      if !listed { return Failed; }
      assert IsPlaced(l, start, disk.files, backedUp, installed, backedUp, installed);
      var i := 0;
      while i < |entries|
        invariant 0 <= i <= |entries|
        invariant installed == []
        invariant Shifted(l, start, disk.files, backedUp, installed)
        invariant l.BackupPath() in disk.files && disk.files[l.BackupPath()] == Folder
        invariant forall n :: n in entries[..i] && l.Moves(n) ==> n in backedUp
        invariant forall n :: n in backedUp ==> n in entries[..i]
        invariant disk.faults >= old(disk.faults)
      {
        var name := entries[i];
        assert name !in entries[..i];
        if l.Moves(name) {
          BackUpIsFree(l, start, disk.files, backedUp, name);
          ghost var before := disk.files;
          var moved := disk.Rename(Path(l.root, name), Path(l.Backup(), name));
          if !moved { return Failed; }
          BackUpOne(l, start, before, backedUp, name);
          backedUp := backedUp + [name];
        }
        i := i + 1;
      }
      r := InstallStaged(disk, start);
    }

    // The second loop, once every entry of the root that moves is in the backup.
    method InstallStaged(disk: Disk, ghost start: Files) returns (r: Outcome)
      requires l.Valid() && installed == [] && Shifted(l, start, disk.files, backedUp, [])
      requires forall n :: l.Moves(n) && Path(l.root, n) in start ==> n in backedUp
      requires IsFolder(disk.files, l.BackupPath())
      modifies this`installed, disk
      ensures Shifted(l, start, disk.files, backedUp, installed)
      ensures l.BackupPath() in disk.files ==> disk.files[l.BackupPath()] == Folder
      ensures r in {Ok, Failed}
      ensures r == Ok ==> Complete(l, start, backedUp, installed)
      ensures disk.faults >= old(disk.faults)
      ensures Clear(l, start) ==> disk.faults >= old(disk.faults) + Failures(r == Ok)
    {
      l.DistinctFolders();
      var staged, stagedEntries := disk.ReadDir(l.Stage());
      if !staged { return Failed; }
      forall n
        ensures Path(l.Stage(), n) in start <==> n in stagedEntries
      {
        var p := Path(l.Stage(), n);
        assert At(disk.files, p) == Placed(l, start, backedUp, installed, backedUp, installed, p);
      }
      var i := 0;
      while i < |stagedEntries|
        invariant 0 <= i <= |stagedEntries|
        invariant Shifted(l, start, disk.files, backedUp, installed)
        invariant installed == stagedEntries[..i] && Distinct(stagedEntries)
        invariant forall n :: n in stagedEntries ==> Path(l.Stage(), n) in start
        invariant l.BackupPath() in disk.files && disk.files[l.BackupPath()] == Folder
        invariant disk.faults >= old(disk.faults)
      {
        var name := stagedEntries[i];
        RootIsFree(l, start, disk.files, backedUp, installed, name);
        ghost var before := disk.files;
        var moved := disk.Rename(Path(l.Stage(), name), Path(l.root, name));
        if !moved { return Failed; }
        InstallOne(l, start, before, backedUp, installed, name);
        installed := installed + [name];
        i := i + 1;
      }
      return Ok;
    }

    method Apply(disk: Disk) returns (r: Outcome)
      requires l.Valid() && backedUp == [] && installed == []
      requires Fresh(l, disk.files) || IsFolder(disk.files, l.BackupPath())
      modifies this, disk
      ensures Fresh(l, old(disk.files)) ==>
        && r != ManualRollback
        && Shifted(l, old(disk.files), disk.files, backedUp, installed)
        && (r == Ok ==> Complete(l, old(disk.files), backedUp, installed))
      ensures IsFolder(old(disk.files), l.BackupPath()) ==>
        && (forall p: Path :: p.folder != l.Stage() ==> At(disk.files, p) == At(old(disk.files), p))
        && (r == Ok ==> Captured(l, disk.files, backedUp, installed) && Resumable(l, old(disk.files)))
      ensures disk.faults >= old(disk.faults)
      ensures Fresh(l, old(disk.files)) && Clear(l, old(disk.files)) ==>
        disk.faults >= old(disk.faults) + Failures(r == Ok)
    {
      var stat := disk.Lstat(l.BackupPath());
      if stat == Unreadable { return Failed; }
      if stat == Found {
        r := Resume(disk);
      } else {
        r := Begin(disk);
      }
    }

    // A backup directory is there: the entries were moved by an earlier
    // process, all of them or only some.
    method Resume(disk: Disk) returns (r: Outcome)
      requires l.Valid() && backedUp == [] && installed == []
      modifies this, disk
      ensures r in {Ok, ManualRollback}
      ensures forall p: Path :: p.folder != l.Stage() ==> At(disk.files, p) == At(old(disk.files), p)
      ensures r == Ok ==> Captured(l, disk.files, backedUp, installed) && Resumable(l, old(disk.files))
      ensures !Resumable(l, old(disk.files)) ==> disk.files == old(disk.files) && backedUp == [] && installed == []
      ensures disk.faults == old(disk.faults) ==> (r == Ok <==> Resumable(l, old(disk.files)))
      // Wherever the removal of duplicates stops, a rollback knows the names.
      ensures disk.files != old(disk.files) ==> NamesCaptured(l, disk.files, backedUp, installed)
      ensures forall n :: Path(l.Stage(), n) in disk.files ==> Path(l.Stage(), n) in old(disk.files)
      ensures disk.faults >= old(disk.faults)
    {
      l.DistinctFolders();
      ghost var start := disk.files;
      var staged, stagedEntries := disk.ReadDir(l.Stage());
      if !staged { return ManualRollback; }
      if |stagedEntries| == 0 {
        var captured := CaptureAppliedState(disk);
        return if captured then Ok else ManualRollback;
      }
      assert stagedEntries[0] in stagedEntries;
      var matching := LiveMatchesStage(disk, stagedEntries);
      if matching != Found {
        return ManualRollback;
      }
      var captured := CaptureAppliedState(disk);
      if !captured { return ManualRollback; }
      var i := 0;
      while i < |stagedEntries|
        invariant 0 <= i <= |stagedEntries|
        invariant forall p: Path :: p.folder != l.Stage() ==> At(disk.files, p) == At(start, p)
        invariant forall n :: Path(l.Stage(), n) in disk.files ==> n in stagedEntries[i..]
        invariant NamesCaptured(l, disk.files, backedUp, installed)
        invariant disk.faults == old(disk.faults)
      {
        ghost var before := disk.files;
        var removed := disk.RemoveAll(Path(l.Stage(), stagedEntries[i]));
        NamesStayCaptured(l, before, disk.files, backedUp, installed);
        assert forall n :: At(disk.files, Path(l.Stage(), n)) == At(before, Path(l.Stage(), n)) || n == stagedEntries[i];
        if !removed { return ManualRollback; }
        i := i + 1;
      }
      return Ok;
    }

    method CaptureAppliedState(disk: Disk) returns (ok: bool)
      requires backedUp == [] && installed == []
      modifies this, disk`faults
      ensures ok ==> Lists(backedUp, disk.files, l.Backup()) && Distinct(installed)
      ensures ok ==> forall n :: n in installed <==> l.Moves(n) && Path(l.root, n) in disk.files
      ensures ok <==> disk.faults == old(disk.faults)
      ensures disk.faults >= old(disk.faults)
    {
      var listed, backupEntries := disk.ReadDir(l.Backup());
      if !listed { return false; }
      backedUp := backupEntries;
      var listedRoot, currentEntries := disk.ReadDir(l.root);
      if !listedRoot { return false; }
      var i := 0;
      while i < |currentEntries|
        invariant 0 <= i <= |currentEntries|
        invariant backedUp == backupEntries && Distinct(installed) && disk.faults == old(disk.faults)
        invariant forall n :: n in installed <==> l.Moves(n) && n in currentEntries[..i]
      {
        assert currentEntries[i] !in currentEntries[..i];
        if l.Moves(currentEntries[i]) {
          installed := installed + [currentEntries[i]];
        }
        i := i + 1;
      }
      return true;
    }

    // Found when every staged entry equals the live one of its name and there
    // are no other live entries.
    method LiveMatchesStage(disk: Disk, stagedEntries: seq<string>) returns (r: Stat)
      requires Lists(stagedEntries, disk.files, l.Stage())
      modifies disk`faults
      ensures r == Found ==> Matching(l, disk.files)
      ensures r == Missing ==> !Matching(l, disk.files)
      ensures r == Unreadable <==> disk.faults > old(disk.faults)
      ensures disk.faults >= old(disk.faults)
    {
      var i := 0;
      while i < |stagedEntries|
        invariant 0 <= i <= |stagedEntries|
        invariant forall n :: n in stagedEntries[..i] ==>
          At(disk.files, Path(l.root, n)) == At(disk.files, Path(l.Stage(), n))
        invariant disk.faults == old(disk.faults)
      {
        var name := stagedEntries[i];
        assert name in stagedEntries;
        var liveStat := disk.Lstat(Path(l.root, name));
        if liveStat == Unreadable { return Unreadable; }
        if liveStat == Missing { return Missing; }
        if disk.files[Path(l.root, name)] != disk.files[Path(l.Stage(), name)] {
          return Missing;
        }
        i := i + 1;
      }
      assert stagedEntries[..i] == stagedEntries;
      var listed, currentEntries := disk.ReadDir(l.root);
      if !listed { return Unreadable; }
      i := 0;
      while i < |currentEntries|
        invariant 0 <= i <= |currentEntries|
        invariant forall n :: n in currentEntries[..i] && l.Moves(n) ==> n in stagedEntries
        invariant disk.faults == old(disk.faults)
      {
        assert currentEntries[i] in currentEntries;
        if l.Moves(currentEntries[i]) && currentEntries[i] !in stagedEntries {
          return Missing;
        }
        i := i + 1;
      }
      assert currentEntries[..i] == currentEntries;
      return Found;
    }

    // `start` is the disk that apply found; after a resume, in the process that
    // began. Duplicates may still be in the stage.
    method Rollback(disk: Disk, ghost start: Files) returns (ok: bool)
      requires l.Valid()
      requires Fresh(l, start) && Recorded(l, start, disk.files, backedUp, installed)
      modifies disk
      ensures ok ==> IsPlaced(l, start, disk.files, backedUp, installed, [], [])
      ensures FormerEntriesSurvive(l, start, disk.files)
      ensures SameOutside(l, old(disk.files), disk.files)
      ensures disk.faults >= old(disk.faults)
      ensures Shifted(l, start, old(disk.files), backedUp, installed) ==> disk.faults >= old(disk.faults) + Failures(ok)
    {
      l.DistinctFolders();
      ok := ReturnStaged(disk, start);
      ok := ReturnFormer(disk, ok, start);
      if ok {
        disk.RemoveFolder(l.BackupPath(), l.Backup());
      }
    }

    // The first loop of rollback.
    method ReturnStaged(disk: Disk, ghost start: Files) returns (ok: bool)
      requires l.Valid()
      requires Fresh(l, start) && Recorded(l, start, disk.files, backedUp, installed)
      modifies disk
      ensures ok ==> IsPlaced(l, start, disk.files, backedUp, installed, backedUp, [])
      ensures BackupsStay(disk.files, start, backedUp) && RootUntouched(disk.files, start)
      ensures SameOutside(l, old(disk.files), disk.files)
      ensures disk.faults >= old(disk.faults)
      ensures Shifted(l, start, old(disk.files), backedUp, installed) ==> disk.faults >= old(disk.faults) + Failures(ok)
    {
      l.DistinctFolders();
      ok := true;
      var i := |installed|;
      ghost var exact := Shifted(l, start, disk.files, backedUp, installed);
      while i > 0
        invariant 0 <= i <= |installed|
        invariant ok ==> IsLoose(l, start, disk.files, backedUp, installed, backedUp, installed[..i])
        invariant exact && ok ==> IsPlaced(l, start, disk.files, backedUp, installed, backedUp, installed[..i])
        invariant BackupsStay(disk.files, start, backedUp) && RootUntouched(disk.files, start)
        invariant SameOutside(l, old(disk.files), disk.files)
        invariant disk.faults >= old(disk.faults)
        invariant exact ==> disk.faults >= old(disk.faults) + Failures(ok)
      {
        i := i - 1;
        var moved := ReturnOne(disk, start, i, ok, exact);
        ok := ok && moved;
      }
    }

    // One rename of that loop; `clean` tells that none has failed so far.
    method ReturnOne(disk: Disk, ghost start: Files, i: nat, ghost clean: bool, ghost exact: bool) returns (moved: bool)
      requires l.Valid() && i < |installed| && Distinct(installed)
      requires forall n :: n in installed ==> Path(l.Stage(), n) in start && n != l.backupName
      requires clean ==> IsLoose(l, start, disk.files, backedUp, installed, backedUp, installed[..i + 1])
      requires exact && clean ==> IsPlaced(l, start, disk.files, backedUp, installed, backedUp, installed[..i + 1])
      requires BackupsStay(disk.files, start, backedUp) && RootUntouched(disk.files, start)
      requires forall n :: l.Moves(n) && Path(l.root, n) in start ==> n in backedUp
      modifies disk
      ensures clean && moved ==> IsLoose(l, start, disk.files, backedUp, installed, backedUp, installed[..i])
      ensures exact && clean && moved ==> IsPlaced(l, start, disk.files, backedUp, installed, backedUp, installed[..i])
      ensures BackupsStay(disk.files, start, backedUp) && RootUntouched(disk.files, start)
      ensures SameOutside(l, old(disk.files), disk.files)
      ensures disk.faults >= old(disk.faults)
      ensures exact && clean ==> disk.faults >= old(disk.faults) + Failures(moved)
    {
      l.DistinctFolders();
      ghost var before := disk.files;
      if exact && clean {
        StageIsFree(l, start, before, backedUp, installed, i);
      }
      moved := disk.Rename(Path(l.root, installed[i]), Path(l.Stage(), installed[i]));
      if moved && clean {
        UninstallOne(l, start, before, backedUp, installed, i);
      }
    }

    // The second loop of rollback.
    method ReturnFormer(disk: Disk, clean: bool, ghost start: Files) returns (ok: bool)
      requires l.Valid() && Distinct(backedUp)
      requires forall n :: n in backedUp ==> l.Moves(n) && Path(l.root, n) in start
      requires clean ==> IsPlaced(l, start, disk.files, backedUp, installed, backedUp, [])
      requires BackupsStay(disk.files, start, backedUp) && RootUntouched(disk.files, start)
      modifies disk
      ensures ok ==> clean && IsPlaced(l, start, disk.files, backedUp, installed, [], [])
      ensures FormerEntriesSurvive(l, start, disk.files)
      ensures SameOutside(l, old(disk.files), disk.files)
      ensures clean ==> disk.faults >= old(disk.faults) + Failures(ok)
      ensures disk.faults >= old(disk.faults)
    {
      l.DistinctFolders();
      ok := clean;
      var i := |backedUp|;
      while i > 0
        invariant 0 <= i <= |backedUp|
        invariant ok ==> clean && IsPlaced(l, start, disk.files, backedUp, installed, backedUp[..i], [])
        invariant BackupsStay(disk.files, start, backedUp[..i])
        invariant FormerEntriesSurvive(l, start, disk.files)
        invariant SameOutside(l, old(disk.files), disk.files)
        invariant disk.faults >= old(disk.faults)
        invariant clean ==> disk.faults >= old(disk.faults) + Failures(ok)
      {
        i := i - 1;
        ghost var before := disk.files;
        assert backedUp[..i + 1] == backedUp[..i] + [backedUp[i]];
        if ok {
          FormerPlaceIsFree(l, start, before, backedUp, installed, i);
        }
        var moved := disk.Rename(Path(l.Backup(), backedUp[i]), Path(l.root, backedUp[i]));
        if !moved {
          ok := false;
        } else if ok {
          RestoreOne(l, start, before, backedUp, installed, i);
        }
      }
    }

    ghost predicate BackupsStay(files: Files, start: Files, names: seq<string>) {
      forall n :: n in names ==> At(files, Path(l.Backup(), n)) == At(start, Path(l.root, n))
    }

    // An entry that was not backed up was not touched, unless nothing needed
    // to be backed up any more.
    ghost predicate RootUntouched(files: Files, start: Files)
      reads this
    {
      forall n :: l.Moves(n) && Path(l.root, n) in start && n !in backedUp ==>
        At(files, Path(l.root, n)) == At(start, Path(l.root, n))
    }
  }

  lemma StageIsFree(l: Layout, start: Files, files: Files, backedUp: seq<string>, installed: seq<string>, i: nat)
    requires l.Valid() && i < |installed|
    requires forall n :: n in installed ==> Path(l.Stage(), n) in start && n != l.backupName
    requires IsPlaced(l, start, files, backedUp, installed, backedUp, installed[..i + 1])
    ensures Path(l.root, installed[i]) in files && Path(l.Stage(), installed[i]) !in files
  {
    l.DistinctFolders();
    var source, target := Path(l.root, installed[i]), Path(l.Stage(), installed[i]);
    assert installed[..i + 1] == installed[..i] + [installed[i]];
    assert At(files, source) == Placed(l, start, backedUp, installed, backedUp, installed[..i + 1], source);
    assert At(files, target) == Placed(l, start, backedUp, installed, backedUp, installed[..i + 1], target);
  }

  lemma FormerPlaceIsFree(l: Layout, start: Files, files: Files, backedUp: seq<string>, installed: seq<string>, i: nat)
    requires l.Valid() && i < |backedUp|
    requires forall n :: n in backedUp ==> l.Moves(n) && Path(l.root, n) in start
    requires IsPlaced(l, start, files, backedUp, installed, backedUp[..i + 1], [])
    ensures Path(l.Backup(), backedUp[i]) in files && Path(l.root, backedUp[i]) !in files
  {
    l.DistinctFolders();
    var source, target := Path(l.Backup(), backedUp[i]), Path(l.root, backedUp[i]);
    assert backedUp[..i + 1] == backedUp[..i] + [backedUp[i]];
    assert At(files, source) == Placed(l, start, backedUp, installed, backedUp[..i + 1], [], source);
    assert At(files, target) == Placed(l, start, backedUp, installed, backedUp[..i + 1], [], target);
  }

  lemma UninstallOne(l: Layout, start: Files, files: Files, backedUp: seq<string>, installed: seq<string>, i: nat)
    requires l.Valid() && i < |installed| && Distinct(installed)
    requires forall n :: n in installed ==> Path(l.Stage(), n) in start && n != l.backupName
    requires IsLoose(l, start, files, backedUp, installed, backedUp, installed[..i + 1])
    requires Path(l.root, installed[i]) in files
    ensures var after := Moved(files, Path(l.root, installed[i]), Path(l.Stage(), installed[i]));
            && IsLoose(l, start, after, backedUp, installed, backedUp, installed[..i])
            && (IsPlaced(l, start, files, backedUp, installed, backedUp, installed[..i + 1]) ==>
                  IsPlaced(l, start, after, backedUp, installed, backedUp, installed[..i]))
  {
    l.DistinctFolders();
    var name := installed[i];
    var after := Moved(files, Path(l.root, name), Path(l.Stage(), name));
    assert name !in installed[..i];
    assert installed[..i + 1] == installed[..i] + [name];
    assert At(files, Path(l.root, name)) ==
      Placed(l, start, backedUp, installed, backedUp, installed[..i + 1], Path(l.root, name));
    forall p: Path | p != l.BackupPath() && !(p.folder == l.Stage() && p.name in installed[..i])
      ensures At(after, p) == Placed(l, start, backedUp, installed, backedUp, installed[..i], p)
    {
      if p != Path(l.Stage(), name) {
        assert At(files, p) == Placed(l, start, backedUp, installed, backedUp, installed[..i + 1], p);
      }
    }
    if IsPlaced(l, start, files, backedUp, installed, backedUp, installed[..i + 1]) {
      forall p | p != l.BackupPath()
        ensures At(after, p) == Placed(l, start, backedUp, installed, backedUp, installed[..i], p)
      {
        assert At(files, p) == Placed(l, start, backedUp, installed, backedUp, installed[..i + 1], p);
      }
    }
  }

  lemma RestoreOne(l: Layout, start: Files, files: Files, backedUp: seq<string>, installed: seq<string>, i: nat)
    requires l.Valid() && i < |backedUp| && Distinct(backedUp)
    requires forall n :: n in backedUp ==> l.Moves(n) && Path(l.root, n) in start
    requires IsPlaced(l, start, files, backedUp, installed, backedUp[..i + 1], [])
    requires Path(l.Backup(), backedUp[i]) in files
    ensures IsPlaced(l, start, Moved(files, Path(l.Backup(), backedUp[i]), Path(l.root, backedUp[i])),
                     backedUp, installed, backedUp[..i], [])
  {
    l.DistinctFolders();
    var name := backedUp[i];
    var after := Moved(files, Path(l.Backup(), name), Path(l.root, name));
    assert name !in backedUp[..i];
    assert backedUp[..i + 1] == backedUp[..i] + [name];
    assert At(files, Path(l.Backup(), name)) ==
      Placed(l, start, backedUp, installed, backedUp[..i + 1], [], Path(l.Backup(), name));
    forall p | p != l.BackupPath()
      ensures At(after, p) == Placed(l, start, backedUp, installed, backedUp[..i], [], p)
    {
      assert At(files, p) == Placed(l, start, backedUp, installed, backedUp[..i + 1], [], p);
    }
  }

  // ---------- what the two methods add up to ----------

  // Success: the root holds exactly the staged entries where it held the
  // former ones, the backup exactly the former ones, the stage nothing.
  lemma CompleteCutover(l: Layout, start: Files, files: Files, backedUp: seq<string>, installed: seq<string>, n: string)
    requires l.Valid() && Fresh(l, start)
    requires Shifted(l, start, files, backedUp, installed) && Complete(l, start, backedUp, installed)
    ensures At(files, Path(l.Backup(), n)) == if l.Moves(n) then At(start, Path(l.root, n)) else None
    ensures l.Moves(n) ==> At(files, Path(l.root, n)) == At(start, Path(l.Stage(), n))
    ensures At(files, Path(l.Stage(), n)) == None
  {
    l.DistinctFolders();
    var root, stage, backup := Path(l.root, n), Path(l.Stage(), n), Path(l.Backup(), n);
    assert backup !in start by { assert backup.name !in NamesIn(start, l.Backup()); }
    assert At(files, stage) == Placed(l, start, backedUp, installed, backedUp, installed, stage);
    assert At(files, backup) == Placed(l, start, backedUp, installed, backedUp, installed, backup);
    if l.Moves(n) {
      assert At(files, root) == Placed(l, start, backedUp, installed, backedUp, installed, root);
    }
  }

  // An entry of the root that stays where it is has the name of a staged entry.
  ghost predicate Collides(l: Layout, start: Files, installed: seq<string>) {
    exists n :: n in installed && !l.Moves(n) && Path(l.root, n) in start
  }

  // What a caller can check beforehand: no staged entry has the name of an
  // entry that stays in the root.
  ghost predicate NoCollision(l: Layout, start: Files) {
    forall n :: Path(l.Stage(), n) in start && !l.Moves(n) ==> Path(l.root, n) !in start
  }

  // Nor does one have the name of the backup directory.
  ghost predicate Clear(l: Layout, start: Files) {
    NoCollision(l, start) && Path(l.Stage(), l.backupName) !in start
  }

  // Failure: after a rollback without failures every path but the backup
  // directory itself holds what apply found there, exactly when no installed
  // entry replaced an entry that the cutover leaves in the root.
  lemma RollbackRestores(l: Layout, start: Files, files: Files, backedUp: seq<string>, installed: seq<string>)
    requires l.Valid() && Fresh(l, start)
    requires forall n :: n in backedUp ==> l.Moves(n) && Path(l.root, n) in start
    requires forall n :: n in installed ==> n != l.backupName
    requires installed != [] ==> forall n :: l.Moves(n) && Path(l.root, n) in start ==> n in backedUp
    requires IsPlaced(l, start, files, backedUp, installed, [], [])
    ensures (forall p :: p != l.BackupPath() ==> At(files, p) == At(start, p)) <==> !Collides(l, start, installed)
  {
    l.DistinctFolders();
    if Collides(l, start, installed) {
      var n :| n in installed && !l.Moves(n) && Path(l.root, n) in start;
      var p := Path(l.root, n);
      assert At(files, p) == Placed(l, start, backedUp, installed, [], [], p);
      assert At(files, p) != At(start, p);
    } else {
      forall p | p != l.BackupPath()
        ensures At(files, p) == At(start, p)
      {
        assert At(files, p) == Placed(l, start, backedUp, installed, [], [], p);
        assert p.folder == l.Backup() ==> (p in start ==> p.name in NamesIn(start, l.Backup()));
      }
    }
  }

  // So a finished cutover that is rolled back restores what it found if and
  // only if no staged entry has the name of one that stays in the root.
  lemma RollbackRestoresIff(l: Layout, start: Files, files: Files, backedUp: seq<string>, installed: seq<string>)
    requires l.Valid() && Fresh(l, start)
    requires forall n :: n in backedUp ==> l.Moves(n) && Path(l.root, n) in start
    requires forall n :: n in installed ==> Path(l.Stage(), n) in start && n != l.backupName
    requires Complete(l, start, backedUp, installed)
    requires IsPlaced(l, start, files, backedUp, installed, [], [])
    ensures (forall p :: p != l.BackupPath() ==> At(files, p) == At(start, p)) <==> NoCollision(l, start)
  {
    RollbackRestores(l, start, files, backedUp, installed);
  }

  // A crash after a finished cutover: staging the same entries again and
  // applying them captures the very moves of the first process, so that a
  // rollback in the second one restores what the first one found, even if the
  // removal of the duplicates stopped.
  lemma ResumedCutoverIsRecorded(l: Layout, start: Files, done: Files, backedUp: seq<string>, installed: seq<string>,
                                 resumed: Files, backedUp': seq<string>, installed': seq<string>)
    requires l.Valid() && Fresh(l, start)
    requires forall n :: Path(l.Stage(), n) in start ==> l.Moves(n)
    requires Shifted(l, start, done, backedUp, installed) && Complete(l, start, backedUp, installed)
    requires forall p: Path :: p.folder != l.Stage() ==> At(resumed, p) == At(done, p)
    requires forall n :: Path(l.Stage(), n) in resumed ==> Path(l.Stage(), n) in start
    requires NamesCaptured(l, resumed, backedUp', installed')
    ensures Recorded(l, start, resumed, backedUp', installed')
    ensures Captured(l, resumed, backedUp', installed') ==> Shifted(l, start, resumed, backedUp', installed')
  {
    l.DistinctFolders();
    forall n
      ensures n in backedUp' <==> n in backedUp
      ensures n in installed' <==> n in installed
    {
      CompleteCutover(l, start, done, backedUp, installed, n);
      assert At(resumed, Path(l.Backup(), n)) == At(done, Path(l.Backup(), n));
      assert At(resumed, Path(l.root, n)) == At(done, Path(l.root, n));
    }
    forall p | p != l.BackupPath()
      ensures p.folder != l.Stage() || At(resumed, p) == None || p.name !in installed' ==>
        At(resumed, p) == Placed(l, start, backedUp', installed', backedUp', installed', p)
    {
      assert At(done, p) == Placed(l, start, backedUp, installed, backedUp, installed, p);
      CompleteCutover(l, start, done, backedUp, installed, p.name);
    }
  }

  // It can happen: a staged entry named like a retained older backup takes its
  // place, and no rollback brings that backup back.
  lemma CollisionLosesAnEntry(root: string, id: string, older: string, kept: Item, staged: Item)
    returns (start: Files, files: Files)
    requires older != id && Replaceable(staged, kept)
    ensures LayoutOf(root, id).Valid() && Fresh(LayoutOf(root, id), start) && !NoCollision(LayoutOf(root, id), start)
    ensures start == map[Path(root, BEFORE_RESTORE + older) := kept,
                         Path(LayoutOf(root, id).Stage(), BEFORE_RESTORE + older) := staged]
    ensures IsPlaced(LayoutOf(root, id), start, files, [], [BEFORE_RESTORE + older], [], [])
    ensures Path(root, BEFORE_RESTORE + older) !in files
  {
    var l, name := LayoutOf(root, id), BEFORE_RESTORE + older;
    LayoutOfIsValid(root, id);
    l.DistinctFolders();
    start := map[Path(root, name) := kept, Path(l.Stage(), name) := staged];
    files := map[Path(l.Stage(), name) := staged];
    assert name[|BEFORE_RESTORE|..] == older && l.backupName[|BEFORE_RESTORE|..] == id;
    assert !l.Moves(name) && name != l.backupName;
  }
}

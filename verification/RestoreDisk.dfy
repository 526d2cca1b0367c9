// The part of a file system that the online-restore cutover works on. Every
// operation may fail without an effect. A crash at some point is the run in
// which every later operation fails, so a statement about all patterns of
// failures is also one about all crash points.
module RestoreDisk {
  import opened Options

  // A path is a folder and a name in it.
  datatype Path = Path(folder: string, name: string)

  // A folder is a directory whose entries are paths of their own; a tree is
  // one that is only ever moved or removed as a whole.
  datatype Item = File(data: string) | Tree(entries: map<string, string>) | Folder

  datatype Stat = Found | Missing | Unreadable

  // How a step of the cutover ends. ManualRollback stands for the errors that
  // wrap errOnlineRestoreManualRollback.
  datatype Outcome = Ok | Failed | ManualRollback

  type Files = map<Path, Item>

  function At(files: Files, p: Path): Option<Item> {
    if p in files then Some(files[p]) else None
  }

  // What rename(2) accepts as a target that exists already.
  predicate Replaceable(moved: Item, target: Item) {
    || (moved.File? && target.File?)
    || (moved.Tree? && target.Tree? && target.entries == map[])
  }

  function Moved(files: Files, source: Path, target: Path): Files
    requires source in files
  {
    (files - {source})[target := files[source]]
  }

  // Renaming onto a target destroys it. Nothing is lost when there was no
  // target, when it held the same data or when it was an empty directory.
  predicate Destroys(files: Files, source: Path, target: Path)
    requires source in files
  {
    target in files && files[target] != files[source] && files[target] != Tree(map[])
  }

  class Disk {
    var files: Files
    // How many operations have failed for no reason visible in the files.
    ghost var faults: nat
    // Whether some rename destroyed data.
    ghost var lost: bool

    constructor (files: Files)
      ensures this.files == files && faults == 0 && !lost
    {
      this.files, faults, lost := files, 0, false;
    }

    method Lstat(p: Path) returns (r: Stat)
      modifies this`faults
      ensures r == Found ==> p in files
      ensures r == Missing ==> p !in files
      ensures faults == old(faults) + if r == Unreadable then 1 else 0
    {
      var fault: bool := *;
      if fault {
        faults := faults + 1;
        return Unreadable;
      }
      return if p in files then Found else Missing;
    }

    method Rename(source: Path, target: Path) returns (ok: bool)
      requires source != target
      modifies this
      ensures ok ==> source in old(files) && files == Moved(old(files), source, target)
      ensures ok && target in old(files) ==> Replaceable(old(files)[source], old(files)[target])
      ensures ok ==> faults == old(faults) && lost == (old(lost) || Destroys(old(files), source, target))
      ensures !ok ==> files == old(files) && lost == old(lost) && faults >= old(faults)
      ensures !ok && source in files && (target in files ==> Replaceable(files[source], files[target])) ==>
        faults > old(faults)
    {
      if source !in files || (target in files && !Replaceable(files[source], files[target])) {
        return false;
      }
      var fault: bool := *;
      if fault {
        faults := faults + 1;
        return false;
      }
      lost := lost || Destroys(files, source, target);
      files := Moved(files, source, target);
      return true;
    }

    // O_CREATE|O_EXCL
    method CreateExclusive(p: Path) returns (ok: bool)
      modifies this`files, this`faults
      ensures ok ==> p !in old(files) && files == old(files)[p := File("")] && faults == old(faults)
      ensures !ok ==> files == old(files) && faults >= old(faults)
      ensures !ok && p !in files ==> faults > old(faults)
    {
      if p in files {
        return false;
      }
      var fault: bool := *;
      if fault {
        faults := faults + 1;
        return false;
      }
      files := files[p := File("")];
      return true;
    }

    // What changes no file of the cutover: closing one, checking what was
    // restored, recording the progress of the job.
    method Attempt() returns (ok: bool)
      modifies this`faults
      ensures faults == old(faults) + Failures(ok)
    {
      ok := *;
      if !ok {
        faults := faults + 1;
      }
    }

    // Succeeds too when there is nothing to remove.
    method Remove(p: Path) returns (ok: bool)
      modifies this`files, this`faults
      ensures ok ==> files == old(files) - {p} && faults == old(faults)
      ensures !ok ==> files == old(files) && faults > old(faults)
    {
      var fault: bool := *;
      if fault {
        faults := faults + 1;
        return false;
      }
      files := files - {p};
      return true;
    }

    // A failure can leave a tree behind that lost some of its entries.
    method RemoveAll(p: Path) returns (ok: bool)
      modifies this`files, this`faults
      ensures ok ==> files == old(files) - {p} && faults == old(faults)
      ensures !ok ==> faults > old(faults)
      ensures forall q :: q != p ==> At(files, q) == At(old(files), q)
      ensures !ok ==> files == old(files) || (p in old(files) && old(files)[p].Tree? && p in files && files[p].Tree?)
    {
      var fault: bool := *;
      if fault {
        faults := faults + 1;
        if p in files && files[p].Tree? {
          var gone: set<string> := *;
          files := files[p := Tree(files[p].entries - gone)];
        }
        return false;
      }
      files := files - {p};
      return true;
    }

    // The names in a folder, in any order.
    method ReadDir(folder: string) returns (ok: bool, names: seq<string>)
      modifies this`faults
      ensures ok ==> Lists(names, files, folder) && faults == old(faults)
      ensures !ok ==> names == [] && faults > old(faults)
    {
      var fault: bool := *;
      if fault {
        faults := faults + 1;
        return false, [];
      }
      names := [];
      var rest := NamesIn(files, folder);
      while rest != {}
        invariant forall n :: n in NamesIn(files, folder) <==> n in rest || n in names
        invariant Distinct(names) && forall n :: n in names ==> n !in rest
        invariant files == old(files) && faults == old(faults)
      {
        var n :| n in rest;
        names := names + [n];
        rest := rest - {n};
      }
      forall n ensures n in names <==> Path(folder, n) in files {
        assert Path(folder, n) in files ==> n in NamesIn(files, folder);
      }
      return true, names;
    }

    // Succeeds too when the folder exists.
    method MkdirAll(p: Path) returns (ok: bool)
      modifies this`files, this`faults
      ensures ok ==> (p in old(files) ==> old(files)[p].Folder?) && files == old(files)[p := Folder]
      ensures ok ==> faults == old(faults)
      ensures !ok ==> files == old(files) && faults >= old(faults)
      ensures !ok && p !in files ==> faults > old(faults)
    {
      if p in files && !files[p].Folder? {
        return false;
      }
      var fault: bool := *;
      if fault {
        faults := faults + 1;
        return false;
      }
      files := files[p := Folder];
      return true;
    }

    // Removes a folder, named `inner` from outside, that has no entries.
    method RemoveFolder(p: Path, inner: string)
      modifies this`files, this`faults
      ensures files == old(files) || files == old(files) - {p}
      ensures faults >= old(faults)
      ensures faults == old(faults) && NamesIn(old(files), inner) == {} ==> files == old(files) - {p}
    {
      if NamesIn(files, inner) == {} {
        var removed := Remove(p);
      }
    }
  }

  function NamesIn(files: Files, folder: string): set<string> {
    set p | p in files && p.folder == folder :: p.name
  }

  lemma SameNames(before: Files, after: Files, folder: string)
    requires forall n :: At(after, Path(folder, n)) == At(before, Path(folder, n))
    ensures NamesIn(after, folder) == NamesIn(before, folder)
  {
    forall n
      ensures n in NamesIn(after, folder) <==> n in NamesIn(before, folder)
    {
      assert At(after, Path(folder, n)) == At(before, Path(folder, n));
      assert n in NamesIn(after, folder) <==> Path(folder, n) in after;
      assert n in NamesIn(before, folder) <==> Path(folder, n) in before;
    }
  }

  predicate Distinct(names: seq<string>) {
    forall i, j :: 0 <= i < j < |names| ==> names[i] != names[j]
  }

  ghost predicate Lists(names: seq<string>, files: Files, folder: string) {
    && Distinct(names)
    && forall n :: n in names <==> Path(folder, n) in files
  }
}

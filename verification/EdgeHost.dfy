// The files of an edge node that applying a state works on, and the Nginx
// that runs from them. Every operation may fail; a failed write has no effect.
module EdgeHost {
  import opened Options

  // A directory below the fragment root; the suffix holds version and digest.
  datatype Directory = HttpFragments(suffix: string) | StreamFragments(suffix: string) | OtherDirectory(name: string)

  // The text of a file: the index of a directory of fragments, an index that
  // cannot be followed, the header line of generated files alone, or any other.
  // A directory itself has none.
  datatype Contents = Index(directory: Directory) | MalformedIndex | HeaderOnly | Text(text: string) | NoText

  datatype Path =
    | Http | Stream | Main | Events
    | Certificate(site: string) | PrivateKey(site: string)
    | Fragment(directory: Directory, name: string) | Folder(directory: Directory)
    | AppliedVersion

  type Files = map<Path, Contents>

  // What a file held when it was backed up; None is an absent file.
  type Backups = map<Path, Option<Contents>>

  function Lookup(files: Files, p: Path): Option<Contents> {
    if p in files then Some(files[p]) else None
  }

  predicate InDirectory(p: Path, directory: Directory) {
    p.Fragment? && p.directory == directory
  }

  // A directory itself, and what is in it.
  predicate BelongsTo(p: Path, directory: Directory) {
    (p.Fragment? || p.Folder?) && p.directory == directory
  }

  predicate IsThere(files: Files, directory: Directory) {
    Folder(directory) in files || FilesIn(files, directory) != map[]
  }

  function FilesIn(files: Files, directory: Directory): map<string, Contents> {
    map p | p in files && InDirectory(p, directory) :: p.name := files[p]
  }

  // The files that Nginx reads: fragments only where an index leads to them.
  predicate IsLoaded(files: Files, p: Path) {
    match p
    case Fragment(directory, _) =>
      Lookup(files, Http) == Some(Index(directory)) || Lookup(files, Stream) == Some(Index(directory))
    case AppliedVersion | Folder(_) => false
    case _ => true
  }

  function Loaded(files: Files): Files {
    map p | p in files && IsLoaded(files, p) :: files[p]
  }

  // What an inspection of the public ports finds.
  datatype Listeners = Confirmed | Uninspected | Foreign | NotListening

  class Host {
    var files: Files
    // What Nginx has last loaded.
    var running: Files
    // What Nginx has last accepted in a test, and was last seen to listen with.
    ghost var tested: Files
    ghost var confirmed: Files
    // How many operations have failed.
    ghost var faults: nat

    method Attempt() returns (ok: bool)
      modifies this`faults
      ensures faults == old(faults) + Failures(ok)
    {
      ok := *;
      if !ok {
        faults := faults + 1;
      }
    }

    method Read(p: Path) returns (ok: bool, contents: Option<Contents>)
      modifies this`faults
      ensures faults == old(faults) + Failures(ok)
      ensures ok ==> contents == Lookup(files, p)
    {
      ok := Attempt();
      contents := Lookup(files, p);
    }

    method Write(p: Path, contents: Contents) returns (ok: bool)
      modifies this`files, this`faults
      ensures faults == old(faults) + Failures(ok)
      ensures files == if ok then old(files)[p := contents] else old(files)
    {
      ok := Attempt();
      if ok {
        files := files[p := contents];
      }
    }

    // Removing an absent file is no failure.
    method Remove(p: Path) returns (ok: bool)
      modifies this`files, this`faults
      ensures faults == old(faults) + Failures(ok)
      ensures files == if ok then old(files) - {p} else old(files)
    {
      ok := Attempt();
      if ok {
        files := files - {p};
      }
    }

    method ListCertificates() returns (ok: bool, listed: set<Path>)
      modifies this`faults
      ensures faults == old(faults) + Failures(ok)
      ensures ok ==> listed == set p | p in files && (p.Certificate? || p.PrivateKey?)
    {
      ok := Attempt();
      listed := set p | p in files && (p.Certificate? || p.PrivateKey?);
    }

    method ListDirectories() returns (ok: bool, listed: set<Directory>)
      modifies this`faults
      ensures faults == old(faults) + Failures(ok)
      ensures ok ==> listed == set p | p in files && (p.Fragment? || p.Folder?) :: p.directory
    {
      ok := Attempt();
      listed := set p | p in files && (p.Fragment? || p.Folder?) :: p.directory;
    }

    // None tells that there is no such directory.
    method ReadDirectory(directory: Directory) returns (ok: bool, entries: Option<map<string, Contents>>)
      modifies this`faults
      ensures faults == old(faults) + Failures(ok)
      ensures ok ==> entries == if IsThere(files, directory) then Some(FilesIn(files, directory)) else None
    {
      ok := Attempt();
      entries := if IsThere(files, directory) then Some(FilesIn(files, directory)) else None;
    }

    // Moves a new directory into place, in one step. A directory that is there
    // already is in the way, unless it is empty.
    method RenameInto(directory: Directory, entries: map<string, Contents>) returns (ok: bool)
      modifies this`files, this`faults
      ensures ok ==> FilesIn(old(files), directory) == map[]
      ensures !ok && FilesIn(old(files), directory) == map[] ==> faults > old(faults)
      ensures faults >= old(faults)
      ensures files == if ok then WithDirectory(old(files), directory, entries) else old(files)
    {
      if FilesIn(files, directory) != map[] {
        return false;
      }
      ok := Attempt();
      if ok {
        files := WithDirectory(files, directory, entries);
      }
    }

    // A failure may leave any part of the directory.
    method RemoveDirectory(directory: Directory) returns (ok: bool)
      modifies this`files, this`faults
      ensures faults == old(faults) + Failures(ok)
      ensures ok ==> files == WithoutDirectory(old(files), directory)
      ensures forall p :: p in files ==> p in old(files) && files[p] == old(files)[p]
      ensures forall p :: p in old(files) && !BelongsTo(p, directory) ==> p in files
    {
      ok := Attempt();
      var left: set<Path> := *;
      files := map p | p in files && (BelongsTo(p, directory) ==> !ok && p in left) :: files[p];
    }

    method TestConfiguration() returns (ok: bool)
      modifies this`tested, this`faults
      ensures faults == old(faults) + Failures(ok)
      ensures tested == if ok then Loaded(files) else old(tested)
    {
      ok := Attempt();
      if ok {
        tested := Loaded(files);
      }
    }

    // Nginx is not made to load what it has not accepted. A reload that fails
    // may have happened all the same.
    method Reload() returns (ok: bool)
      requires tested == Loaded(files)
      modifies this`running, this`faults
      ensures faults == old(faults) + Failures(ok)
      ensures running == old(running) || running == Loaded(files)
      ensures ok ==> running == Loaded(files)
    {
      var reached: bool := *;
      if reached {
        running := Loaded(files);
      }
      ok := Attempt();
      if ok {
        running := Loaded(files);
      }
    }

    // Waits until the public ports are settled and looks at their holders.
    method InspectListeners() returns (r: Listeners)
      modifies this`confirmed, this`faults
      ensures faults == old(faults) + Failures(r.Confirmed?)
      ensures confirmed == if r.Confirmed? then running else old(confirmed)
    {
      var seen := Attempt();
      if seen {
        confirmed := running;
        return Confirmed;
      }
      var inspected: bool, foreign: bool := *, *;
      return if !inspected then Uninspected else if foreign then Foreign else NotListening;
    }
  }

  function WithDirectory(files: Files, directory: Directory, entries: map<string, Contents>): Files {
    (files + map name | name in entries :: Fragment(directory, name) := entries[name])[Folder(directory) := NoText]
  }

  function WithoutDirectory(files: Files, directory: Directory): Files {
    map p | p in files && !BelongsTo(p, directory) :: files[p]
  }

  // ---------- backing up and restoring ----------

  ghost predicate AreBackups(backups: Backups, files: Files) {
    forall p :: p in backups ==> backups[p] == Lookup(files, p)
  }

  // The files agree outside `paths`.
  ghost predicate SameOutside(before: Files, files: Files, paths: set<Path>) {
    forall p :: p !in paths ==> Lookup(files, p) == Lookup(before, p)
  }

  // Puts back the files of a backup; `complete` tells that nothing failed.
  method Restore(host: Host, backups: Backups) returns (ghost complete: bool)
    modifies host`files, host`faults
    ensures host.faults >= old(host.faults) + Failures(complete)
    ensures SameOutside(old(host.files), host.files, backups.Keys)
    ensures complete ==> AreBackups(backups, host.files)
  {
    complete := true;
    var rest := backups.Keys;
    while rest != {}
      invariant rest <= backups.Keys && host.faults >= old(host.faults) + Failures(complete)
      invariant SameOutside(old(host.files), host.files, backups.Keys)
      invariant complete ==> forall p :: p in backups && p !in rest ==> backups[p] == Lookup(host.files, p)
    {
      var p :| p in rest;
      var ok;
      if backups[p].Some? {
        ok := host.Write(p, backups[p].value);
      } else {
        ok := host.Remove(p);
      }
      complete := complete && ok;
      rest := rest - {p};
    }
  }

  // Files that agree everywhere are the same.
  lemma SameFiles(a: Files, b: Files)
    requires forall p :: Lookup(a, p) == Lookup(b, p)
    ensures a == b
  {
    forall p
      ensures p in a <==> p in b
      ensures p in a ==> a[p] == b[p]
    {
      assert Lookup(a, p) == Lookup(b, p);
    }
  }

  lemma RestoredAll(before: Files, changed: Files, files: Files, backups: Backups)
    requires AreBackups(backups, before) && AreBackups(backups, files)
    requires SameOutside(before, changed, backups.Keys) && SameOutside(changed, files, backups.Keys)
    ensures files == before
  {
    forall p
      ensures Lookup(files, p) == Lookup(before, p)
    {
      assert p !in backups.Keys ==> Lookup(changed, p) == Lookup(before, p);
    }
    SameFiles(files, before);
  }
}

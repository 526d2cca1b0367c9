// Applying a desired state on an edge node: certificates, fragments and
// configuration are written, tested and loaded, and put back on any failure
// until Nginx is seen to listen.
module EdgeApply {
  import opened Options
  import opened EdgeHost
  import opened Strings

  datatype Bundle = Bundle(certificate: Contents, key: Contents)

  datatype FragmentFile = FragmentFile(name: string, content: string)

  datatype Fragments = Fragments(
    httpBase: string, httpSites: seq<FragmentFile>, streamBase: string, streamSites: seq<FragmentFile>)

  // An empty text in the state is None.
  datatype Desired = Desired(
    version: string, certificates: map<string, Bundle>, http: Contents, stream: Option<Contents>,
    main: Option<Contents>, events: Option<Contents>, fragments: Option<Fragments>)

  const BASE_NAME := "00-base.conf"

  function StreamText(desired: Desired): Contents {
    if desired.stream == None then HeaderOnly else desired.stream.value
  }

  // ---------- certificates ----------

  // The files of the desired certificates are there, no other managed ones
  // are, and the rest is untouched.
  ghost predicate CertificatesInstalled(before: Files, files: Files, certificates: map<string, Bundle>,
                                        managed: string -> bool)
  {
    forall site ::
      if site in certificates then
        && Lookup(files, Certificate(site)) == Some(certificates[site].certificate)
        && Lookup(files, PrivateKey(site)) == Some(certificates[site].key)
      else if managed(site) then
        Lookup(files, Certificate(site)) == None && Lookup(files, PrivateKey(site)) == None
      else
        && Lookup(files, Certificate(site)) == Lookup(before, Certificate(site))
        && Lookup(files, PrivateKey(site)) == Lookup(before, PrivateKey(site))
  }

  predicate IsCertificate(p: Path) {
    p.Certificate? || p.PrivateKey?
  }

  function CertificatePaths(certificates: map<string, Bundle>): set<Path> {
    (set site | site in certificates :: Certificate(site)) + set site | site in certificates :: PrivateKey(site)
  }

  // Reads every file of `paths` into a backup.
  method BackUp(host: Host, paths: set<Path>) returns (ok: bool, backups: Backups)
    modifies host`faults
    ensures host.faults >= old(host.faults) + Failures(ok)
    ensures ok ==> backups.Keys == paths && AreBackups(backups, host.files)
  {
    ok, backups := true, map[];
    var rest := paths;
    while ok && rest != {}
      invariant host.faults >= old(host.faults) + Failures(ok)
      invariant rest <= paths && AreBackups(backups, host.files)
      invariant ok ==> backups.Keys == paths - rest
      decreases ok, rest
    {
      var p :| p in rest;
      var contents;
      ok, contents := host.Read(p);
      if ok {
        backups := backups[p := contents];
      }
      rest := rest - {p};
    }
  }

  method WriteCertificates(host: Host, certificates: map<string, Bundle>) returns (ok: bool)
    modifies host`files, host`faults
    ensures host.faults >= old(host.faults) + Failures(ok)
    ensures SameOutside(old(host.files), host.files, CertificatePaths(certificates))
    ensures ok ==> forall site :: site in certificates ==>
      && Lookup(host.files, Certificate(site)) == Some(certificates[site].certificate)
      && Lookup(host.files, PrivateKey(site)) == Some(certificates[site].key)
  {
    ok := true;
    var rest := certificates.Keys;
    while ok && rest != {}
      invariant host.faults >= old(host.faults) + Failures(ok)
      invariant rest <= certificates.Keys
      invariant SameOutside(old(host.files), host.files, CertificatePaths(certificates))
      invariant ok ==> forall site :: site in certificates && site !in rest ==>
        && Lookup(host.files, Certificate(site)) == Some(certificates[site].certificate)
        && Lookup(host.files, PrivateKey(site)) == Some(certificates[site].key)
      decreases ok, rest
    {
      var site :| site in rest;
      ok := host.Write(Certificate(site), certificates[site].certificate);
      if ok {
        ok := host.Write(PrivateKey(site), certificates[site].key);
      }
      rest := rest - {site};
    }
  }

  method RemoveFiles(host: Host, paths: set<Path>) returns (ok: bool)
    modifies host`files, host`faults
    ensures host.faults >= old(host.faults) + Failures(ok)
    ensures SameOutside(old(host.files), host.files, paths)
    ensures ok ==> forall p :: p in paths ==> Lookup(host.files, p) == None
  {
    ok := true;
    var rest := paths;
    while ok && rest != {}
      invariant host.faults >= old(host.faults) + Failures(ok)
      invariant rest <= paths
      invariant SameOutside(old(host.files), host.files, paths)
      invariant ok ==> forall p :: p in paths && p !in rest ==> Lookup(host.files, p) == None
      decreases ok, rest
    {
      var p :| p in rest;
      ok := host.Remove(p);
      rest := rest - {p};
    }
  }

  function SiteOf(p: Path): string
    requires IsCertificate(p)
  {
    p.site
  }

  lemma CertificatesAreInstalled(before: Files, written: Files, files: Files, certificates: map<string, Bundle>,
                                 managed: string -> bool,
                                 stale: set<Path>)
    requires forall p :: p in stale <==>
      p in before && IsCertificate(p) && managed(p.site) && p !in CertificatePaths(certificates)
    requires SameOutside(before, written, CertificatePaths(certificates)) && SameOutside(written, files, stale)
    requires forall site :: site in certificates ==>
      && Lookup(written, Certificate(site)) == Some(certificates[site].certificate)
      && Lookup(written, PrivateKey(site)) == Some(certificates[site].key)
    requires forall p :: p in stale ==> Lookup(files, p) == None
    ensures CertificatesInstalled(before, files, certificates, managed)
    ensures SameOutside(before, files, CertificatePaths(certificates) + stale)
  {
    forall site | site !in certificates
      ensures managed(site) ==> Lookup(files, Certificate(site)) == None && Lookup(files, PrivateKey(site)) == None
      ensures !managed(site) ==>
        && Lookup(files, Certificate(site)) == Lookup(before, Certificate(site))
        && Lookup(files, PrivateKey(site)) == Lookup(before, PrivateKey(site))
    {
      assert Certificate(site) !in CertificatePaths(certificates) && PrivateKey(site) !in CertificatePaths(certificates);
      assert Certificate(site) !in stale ==> Lookup(files, Certificate(site)) == Lookup(before, Certificate(site));
      assert PrivateKey(site) !in stale ==> Lookup(files, PrivateKey(site)) == Lookup(before, PrivateKey(site));
    }
  }

  // Every desired certificate is written, then every stale one is removed.
  method InstallCertificates(host: Host, certificates: map<string, Bundle>, managed: string -> bool, stale: set<Path>)
    returns (ok: bool)
    requires forall p :: p in stale <==>
      p in host.files && IsCertificate(p) && managed(p.site) && p !in CertificatePaths(certificates)
    modifies host`files, host`faults
    ensures host.faults >= old(host.faults) + Failures(ok)
    ensures SameOutside(old(host.files), host.files, CertificatePaths(certificates) + stale)
    ensures ok ==> CertificatesInstalled(old(host.files), host.files, certificates, managed)
  {
    ghost var before := host.files;
    ok := WriteCertificates(host, certificates);
    if ok {
      ghost var written := host.files;
      ok := RemoveFiles(host, stale);
      if ok {
        CertificatesAreInstalled(before, written, host.files, certificates, managed, stale);
      }
    }
  }

  // `complete` tells that no step of putting files back failed.
  method StageCertificates(host: Host, certificates: map<string, Bundle>, managed: string -> bool)
    returns (ok: bool, backups: Backups, ghost complete: bool)
    modifies host`files, host`faults
    ensures Lookup(host.files, AppliedVersion) == old(Lookup(host.files, AppliedVersion))
    ensures host.faults >= old(host.faults) + Failures(ok) + Failures(complete)
    ensures !ok && complete ==> host.files == old(host.files)
    ensures ok ==>
      complete && AreBackups(backups, old(host.files)) && SameOutside(old(host.files), host.files, backups.Keys)
    ensures ok ==> forall p :: p in backups ==> IsCertificate(p)
    ensures ok ==> CertificatesInstalled(old(host.files), host.files, certificates, managed)
  {
    ghost var before := host.files;
    complete := true;
    var listed;
    backups := map[];
    ok, listed := host.ListCertificates();
    if !ok {
      return;
    }
    var desired := CertificatePaths(certificates);
    var stale := set p | p in listed && IsCertificate(p) && managed(SiteOf(p)) && p !in desired;
    ok, backups := BackUp(host, desired + stale);
    if !ok {
      return;
    }
    assert AppliedVersion !in desired + stale;
    ok := InstallCertificates(host, certificates, managed, stale);
    assert Lookup(host.files, AppliedVersion) == Lookup(before, AppliedVersion);
    if !ok {
      ghost var changed := host.files;
      complete := Restore(host, backups);
      assert Lookup(host.files, AppliedVersion) == Lookup(changed, AppliedVersion);
      if complete {
        RestoredAll(before, changed, host.files, backups);
      }
    }
  }

  // ---------- fragments ----------

  predicate IsFragmentName(name: string) {
    |name| >= 5 && name[|name| - 5..] == ".conf" && forall c :: c in name ==> IsNameChar(c)
  }

  // The files of the base and of the first `n` sites.
  function EntriesUpTo(base: string, sites: seq<FragmentFile>, n: nat): map<string, Contents>
    requires n <= |sites|
  {
    if n == 0 then map[BASE_NAME := Text(base)]
    else EntriesUpTo(base, sites, n - 1)[sites[n - 1].name := Text(sites[n - 1].content)]
  }

  // Each of the first `n` names differs from those before it.
  predicate NamesAreNew(base: string, sites: seq<FragmentFile>, n: nat)
    requires n <= |sites|
  {
    n > 0 ==> NamesAreNew(base, sites, n - 1) && sites[n - 1].name !in EntriesUpTo(base, sites, n - 1)
  }

  function EntriesOf(base: string, sites: seq<FragmentFile>): map<string, Contents> {
    EntriesUpTo(base, sites, |sites|)
  }

  predicate AreFragments(base: string, sites: seq<FragmentFile>) {
    NamesAreNew(base, sites, |sites|) && forall f :: f in sites ==> IsSound(f)
  }

  predicate IsSound(f: FragmentFile) {
    IsFragmentName(f.name) && f.content != ""
  }

  // After the first `n` sites.
  predicate AreCollected(base: string, sites: seq<FragmentFile>, n: nat, entries: map<string, Contents>)
    requires n <= |sites|
  {
    && NamesAreNew(base, sites, n) && entries == EntriesUpTo(base, sites, n)
    && forall i :: 0 <= i < n ==> IsSound(sites[i])
  }

  lemma CollectedOneMore(base: string, sites: seq<FragmentFile>, n: nat, entries: map<string, Contents>)
    requires n < |sites| && AreCollected(base, sites, n, entries)
    requires IsSound(sites[n]) && sites[n].name !in entries
    ensures AreCollected(base, sites, n + 1, entries[sites[n].name := Text(sites[n].content)])
  {
  }

  lemma CollectedAll(base: string, sites: seq<FragmentFile>, entries: map<string, Contents>)
    requires AreCollected(base, sites, |sites|, entries)
    ensures AreFragments(base, sites) && entries == EntriesOf(base, sites)
  {
  }

  // A fragment that is refused.
  lemma RefusedAt(base: string, sites: seq<FragmentFile>, n: nat, entries: map<string, Contents>)
    requires n < |sites| && AreCollected(base, sites, n, entries)
    requires !IsSound(sites[n]) || sites[n].name in entries
    ensures !AreFragments(base, sites)
  {
    if sites[n].name in entries {
      NamesStayTaken(base, sites, n + 1, |sites|);
    } else {
      assert sites[n] in sites;
    }
  }

  // One file for the base and one for every site, with its own content.
  lemma {:induction false} EntriesAre(base: string, sites: seq<FragmentFile>, n: nat)
    requires n <= |sites| && NamesAreNew(base, sites, n)
    ensures |EntriesUpTo(base, sites, n)| == n + 1
    ensures BASE_NAME in EntriesUpTo(base, sites, n) && EntriesUpTo(base, sites, n)[BASE_NAME] == Text(base)
    ensures forall i :: 0 <= i < n ==>
      sites[i].name in EntriesUpTo(base, sites, n) && EntriesUpTo(base, sites, n)[sites[i].name] == Text(sites[i].content)
  {
    if n > 0 {
      EntriesAre(base, sites, n - 1);
    }
  }

  // The loop that collects the files of a directory and refuses bad names.
  method CollectEntries(base: string, sites: seq<FragmentFile>) returns (ok: bool, entries: map<string, Contents>)
    ensures ok <==> AreFragments(base, sites)
    ensures ok ==> entries == EntriesOf(base, sites)
  {
    entries := map[BASE_NAME := Text(base)];
    for i := 0 to |sites|
      invariant AreCollected(base, sites, i, entries)
    {
      var f := sites[i];
      if !IsSound(f) || f.name in entries {
        RefusedAt(base, sites, i, entries);
        return false, entries;
      }
      CollectedOneMore(base, sites, i, entries);
      entries := entries[f.name := Text(f.content)];
    }
    CollectedAll(base, sites, entries);
    return true, entries;
  }

  lemma {:induction false} NamesStayTaken(base: string, sites: seq<FragmentFile>, n: nat, m: nat)
    requires n <= m <= |sites| && !NamesAreNew(base, sites, n)
    ensures !NamesAreNew(base, sites, m)
  {
    if n < m {
      NamesStayTaken(base, sites, n, m - 1);
    }
  }

  predicate IsOf(p: Path, created: set<Directory>) {
    (p.Fragment? || p.Folder?) && p.directory in created
  }

  // Everything but the created directories is as before.
  ghost predicate BackExcept(before: Files, files: Files, created: set<Directory>) {
    forall p: Path :: !IsOf(p, created) ==> Lookup(files, p) == Lookup(before, p)
  }

  ghost predicate CreatedAreNew(before: Files, created: set<Directory>) {
    forall d :: d in created ==> !IsThere(before, d)
  }

  lemma FoundInDirectory(files: Files, p: Path)
    requires p in files && p.Fragment?
    ensures FilesIn(files, p.directory) != map[]
  {
    assert p.name in FilesIn(files, p.directory);
  }

  lemma NameIsIn(files: Files, d: Directory, name: string)
    ensures name in FilesIn(files, d) <==> Fragment(d, name) in files
    ensures name in FilesIn(files, d) ==> FilesIn(files, d)[name] == files[Fragment(d, name)]
  {
    if Fragment(d, name) in files {
      FoundInDirectory(files, Fragment(d, name));
    }
  }

  predicate SameAt(a: map<string, Contents>, b: map<string, Contents>, name: string) {
    (name in a <==> name in b) && (name in a && name in b ==> a[name] == b[name])
  }

  lemma SameMaps(a: map<string, Contents>, b: map<string, Contents>)
    requires forall name :: SameAt(a, b, name)
    ensures a == b
  {
    forall name
      ensures name in a <==> name in b
      ensures name in a ==> a[name] == b[name]
    {
      assert SameAt(a, b, name);
    }
  }

  lemma StagedName(files: Files, d: Directory, entries: map<string, Contents>, name: string)
    requires FilesIn(files, d) == map[]
    ensures SameAt(FilesIn(WithDirectory(files, d, entries), d), entries, name)
  {
    NameIsIn(files, d, name);
    NameIsIn(WithDirectory(files, d, entries), d, name);
  }

  lemma StagedElsewhere(files: Files, d: Directory, entries: map<string, Contents>)
    ensures BackExcept(files, WithDirectory(files, d, entries), {d})
  {
  }

  lemma StagedIsThere(files: Files, d: Directory, entries: map<string, Contents>)
    requires FilesIn(files, d) == map[]
    ensures FilesIn(WithDirectory(files, d, entries), d) == entries
    ensures BackExcept(files, WithDirectory(files, d, entries), {d})
  {
    StagedElsewhere(files, d, entries);
    forall name
      ensures SameAt(FilesIn(WithDirectory(files, d, entries), d), entries, name)
    {
      StagedName(files, d, entries, name);
    }
    SameMaps(FilesIn(WithDirectory(files, d, entries), d), entries);
  }

  // A change to one directory is none to another.
  lemma OtherUntouched(before: Files, files: Files, changed: Directory, d: Directory)
    requires changed != d && BackExcept(before, files, {changed})
    ensures FilesIn(files, d) == FilesIn(before, d) && IsThere(files, d) == IsThere(before, d)
  {
    assert Lookup(files, Folder(d)) == Lookup(before, Folder(d));
    forall name
      ensures name in FilesIn(files, d) <==> name in FilesIn(before, d)
      ensures name in FilesIn(files, d) ==> FilesIn(files, d)[name] == FilesIn(before, d)[name]
    {
      var p := Fragment(d, name);
      assert Lookup(files, p) == Lookup(before, p);
      assert name in FilesIn(files, d) <==> p in files;
      assert name in FilesIn(before, d) <==> p in before;
    }
  }

  ghost predicate HasFragments(files: Files, d: Directory, base: string, sites: seq<FragmentFile>) {
    AreFragments(base, sites) && FilesIn(files, d) == EntriesOf(base, sites)
  }

  // What a directory needs to be staged: sound fragments, and nothing there
  // yet or just those.
  ghost predicate CanStage(files: Files, d: Directory, base: string, sites: seq<FragmentFile>) {
    && base != "" && AreFragments(base, sites)
    && (!IsThere(files, d) || FilesIn(files, d) == EntriesOf(base, sites))
  }

  // A directory that is there and empty is in the way of any fragments.
  lemma EmptyIsInTheWay(files: Files, d: Directory, base: string, sites: seq<FragmentFile>)
    requires IsThere(files, d) && FilesIn(files, d) == map[]
    ensures !CanStage(files, d, base, sites)
  {
    if AreFragments(base, sites) {
      EntriesAre(base, sites, |sites|);
    }
  }

  datatype Match = Absent | Equal | Unusable

  method DirectoryMatches(host: Host, directory: Directory, base: string, sites: seq<FragmentFile>) returns (r: Match)
    modifies host`faults
    ensures host.faults >= old(host.faults)
    ensures r.Absent? ==> !IsThere(host.files, directory)
    ensures r.Equal? ==> HasFragments(host.files, directory, base, sites)
    ensures r.Unusable? ==> !CanStage(host.files, directory, base, sites) || host.faults > old(host.faults)
  {
    var ok, present := host.ReadDirectory(directory);
    if !ok {
      return Unusable;
    }
    if present == None {
      return Absent;
    }
    var expected;
    ok, expected := CollectEntries(base, sites);
    if !ok || present.value != expected {
      return Unusable;
    }
    return Equal;
  }

  // A new directory, filled file by file under another name and then moved.
  method CreateDirectory(host: Host, directory: Directory, base: string, sites: seq<FragmentFile>) returns (ok: bool)
    requires !IsThere(host.files, directory)
    modifies host`files, host`faults
    ensures host.faults >= old(host.faults)
    ensures !ok ==> !AreFragments(base, sites) || host.faults > old(host.faults)
    ensures !ok ==> host.files == old(host.files)
    ensures ok ==> HasFragments(host.files, directory, base, sites) && BackExcept(old(host.files), host.files, {directory})
  {
    var entries;
    ok, entries := CollectEntries(base, sites);
    if !ok {
      return false;
    }
    ok := host.Attempt();
    if !ok {
      return false;
    }
    ok := host.RenameInto(directory, entries);
    if ok {
      StagedIsThere(old(host.files), directory, entries);
    }
  }

  method StageDirectory(host: Host, directory: Directory, base: string, sites: seq<FragmentFile>)
    returns (ok: bool, created: bool)
    modifies host`files, host`faults
    ensures Lookup(host.files, AppliedVersion) == old(Lookup(host.files, AppliedVersion))
    ensures host.faults >= old(host.faults)
    ensures ok ==> CanStage(old(host.files), directory, base, sites)
    ensures !ok ==> !CanStage(old(host.files), directory, base, sites) || host.faults > old(host.faults)
    ensures !ok || !created ==> host.files == old(host.files)
    ensures ok ==> base != "" && HasFragments(host.files, directory, base, sites)
    ensures ok && created ==>
      CreatedAreNew(old(host.files), {directory}) && BackExcept(old(host.files), host.files, {directory})
  {
    if base == "" {
      return false, false;
    }
    var matches := DirectoryMatches(host, directory, base, sites);
    if matches.Unusable? {
      return false, false;
    }
    if matches.Equal? {
      return true, false;
    }
    ok := CreateDirectory(host, directory, base, sites);
    if !ok {
      matches := DirectoryMatches(host, directory, base, sites);
      return matches.Equal?, false;
    }
    assert !IsOf(AppliedVersion, {directory});
    return true, true;
  }

  // The directories that were created and not activated.
  method RemoveCreated(host: Host, ghost before: Files, created: set<Directory>) returns (ghost complete: bool)
    modifies host`files, host`faults
    ensures host.faults >= old(host.faults) + Failures(complete)
    ensures Lookup(host.files, AppliedVersion) == old(Lookup(host.files, AppliedVersion))
    ensures BackExcept(before, old(host.files), created) ==> BackExcept(before, host.files, created)
    ensures complete && CreatedAreNew(before, created) && BackExcept(before, old(host.files), created) ==>
      host.files == before
  {
    complete := true;
    var rest := created;
    while rest != {}
      invariant rest <= created && host.faults >= old(host.faults) + Failures(complete)
      invariant BackExcept(before, old(host.files), created) ==> BackExcept(before, host.files, created)
      invariant Lookup(host.files, AppliedVersion) == old(Lookup(host.files, AppliedVersion))
      invariant complete ==> forall p :: p in host.files && IsOf(p, created) ==> p.directory in rest
    {
      var d :| d in rest;
      ghost var was := host.files;
      var ok := host.RemoveDirectory(d);
      complete := complete && ok;
      rest := rest - {d};
      forall p: Path | !IsOf(p, created)
        ensures Lookup(host.files, p) == Lookup(was, p)
      {
        assert !BelongsTo(p, d);
      }
    }
    if complete && CreatedAreNew(before, created) && BackExcept(before, old(host.files), created) {
      forall p
        ensures Lookup(host.files, p) == Lookup(before, p)
      {
        if IsOf(p, created) && p in before {
          FoundInDirectory(before, p);
        }
      }
      SameFiles(host.files, before);
    }
  }

  ghost predicate CanStageBoth(files: Files, version: string, fragments: Fragments,
                               digest: (string, string, seq<FragmentFile>) -> string)
  {
    && CanStage(files, HttpFragments(digest(version, fragments.httpBase, fragments.httpSites)),
                fragments.httpBase, fragments.httpSites)
    && CanStage(files, StreamFragments(digest(version, fragments.streamBase, fragments.streamSites)),
                fragments.streamBase, fragments.streamSites)
  }

  method StageFragments(host: Host, version: string, fragments: Fragments,
                        digest: (string, string, seq<FragmentFile>) -> string)
    returns (ok: bool, http: Directory, stream: Directory, created: set<Directory>, ghost complete: bool)
    modifies host`files, host`faults
    ensures Lookup(host.files, AppliedVersion) == old(Lookup(host.files, AppliedVersion))
    ensures host.faults >= old(host.faults) + Failures(complete)
    ensures ok ==> CanStageBoth(old(host.files), version, fragments, digest)
    ensures CanStageBoth(old(host.files), version, fragments, digest) ==>
      host.faults >= old(host.faults) + Failures(ok) + Failures(complete)
    ensures ok ==> http == HttpFragments(digest(version, fragments.httpBase, fragments.httpSites))
    ensures ok ==> stream == StreamFragments(digest(version, fragments.streamBase, fragments.streamSites))
    ensures !ok && complete ==> host.files == old(host.files)
    ensures ok ==> complete && BackExcept(old(host.files), host.files, created) && CreatedAreNew(old(host.files), created)
    ensures ok ==> HasFragments(host.files, http, fragments.httpBase, fragments.httpSites)
    ensures ok ==> HasFragments(host.files, stream, fragments.streamBase, fragments.streamSites)
    ensures ok ==> created <= {http, stream}
  {
    ghost var before := host.files;
    http := HttpFragments(digest(version, fragments.httpBase, fragments.httpSites));
    stream := StreamFragments(digest(version, fragments.streamBase, fragments.streamSites));
    complete, created := true, {};
    var prepared := host.Attempt();
    if !prepared {
      return false, http, stream, {}, true;
    }
    var isNew;
    ok, isNew := StageDirectory(host, http, fragments.httpBase, fragments.httpSites);
    if !ok {
      return;
    }
    if isNew {
      created := {http};
    }
    ghost var middle := host.files;
    OtherUntouched(before, middle, http, stream);
    ok, isNew := StageDirectory(host, stream, fragments.streamBase, fragments.streamSites);
    if !ok {
      complete := RemoveCreated(host, before, created);
      return;
    }
    if isNew {
      created := created + {stream};
    }
    OtherUntouched(middle, host.files, stream, http);
  }

  // ---------- configuration ----------

  const CONFIGURATION: set<Path> := {Http, Stream, Main, Events}

  // An index can be followed and leads to a directory that has files.
  ghost predicate IndexLeads(files: Files, index: Path) {
    index in files ==>
      !files[index].MalformedIndex? && (files[index].Index? ==> FilesIn(files, files[index].directory) != map[])
  }

  ghost predicate IndexesLead(files: Files) {
    IndexLeads(files, Http) && IndexLeads(files, Stream)
  }

  method AddFragmentBackups(host: Host, backups: Backups, index: Path) returns (ok: bool, more: Backups)
    requires index in backups && AreBackups(backups, host.files)
    requires forall p :: p in backups ==> p in CONFIGURATION || p.Fragment?
    modifies host`faults
    ensures host.faults >= old(host.faults)
    ensures ok ==> IndexLeads(host.files, index)
    ensures !ok ==> !IndexLeads(host.files, index) || host.faults > old(host.faults)
    ensures ok ==> AreBackups(more, host.files) && backups.Keys <= more.Keys
    ensures ok ==> forall p :: p in more ==> p in CONFIGURATION || p.Fragment?
  {
    more := backups;
    if backups[index] == None || (!backups[index].value.MalformedIndex? && !backups[index].value.Index?) {
      return true, more;
    }
    if backups[index].value.MalformedIndex? {
      return false, more;
    }
    var directory := backups[index].value.directory;
    var entries;
    ok, entries := host.ReadDirectory(directory);
    if !ok || entries == None || entries.value == map[] {
      return false, more;
    }
    var fragments;
    ok, fragments := BackUp(host, set name | name in entries.value :: Fragment(directory, name));
    if ok {
      more := backups + fragments;
    }
  }

  method BackUpConfiguration(host: Host) returns (ok: bool, backups: Backups)
    modifies host`faults
    ensures host.faults >= old(host.faults)
    ensures !ok ==> !IndexesLead(host.files) || host.faults > old(host.faults)
    ensures ok ==> AreBackups(backups, host.files) && CONFIGURATION <= backups.Keys && IndexesLead(host.files)
    ensures ok ==> forall p :: p in backups ==> p in CONFIGURATION || p.Fragment?
  {
    ok, backups := BackUp(host, CONFIGURATION);
    if ok {
      ok, backups := AddFragmentBackups(host, backups, Http);
    }
    if ok {
      ok, backups := AddFragmentBackups(host, backups, Stream);
    }
  }

  method WriteConfiguration(host: Host, desired: Desired, http: Contents, stream: Contents) returns (ok: bool)
    modifies host`files, host`faults
    ensures host.faults >= old(host.faults) + Failures(ok)
    ensures Lookup(host.files, AppliedVersion) == old(Lookup(host.files, AppliedVersion))
    ensures SameOutside(old(host.files), host.files, CONFIGURATION)
    ensures ok ==> Lookup(host.files, Http) == Some(http) && Lookup(host.files, Stream) == Some(stream)
    ensures ok ==> Lookup(host.files, Main) == if desired.main == None then Lookup(old(host.files), Main) else desired.main
    ensures ok ==>
      Lookup(host.files, Events) == if desired.events == None then Lookup(old(host.files), Events) else desired.events
  {
    ok := true;
    if desired.main.Some? {
      ok := host.Write(Main, desired.main.value);
    }
    if ok && desired.events.Some? {
      ok := host.Write(Events, desired.events.value);
    }
    if ok {
      ok := host.Write(Http, http);
    }
    if ok {
      ok := host.Write(Stream, stream);
    }
  }

  // ---------- taking back ----------

  // All that has changed is covered by the backups and the new directories.
  ghost predicate Covered(before: Files, files: Files, certificates: Backups, configuration: Backups,
                          created: set<Directory>)
  {
    && AreBackups(certificates, before) && AreBackups(configuration, before) && CreatedAreNew(before, created)
    && AppliedVersion !in certificates && AppliedVersion !in configuration
    && forall p: Path :: p !in certificates && p !in configuration && !IsOf(p, created) ==>
         Lookup(files, p) == Lookup(before, p)
  }

  lemma BackLoadsTheSame(before: Files, files: Files, created: set<Directory>)
    requires BackExcept(before, files, created) && CreatedAreNew(before, created) && IndexesLead(before)
    ensures Loaded(files) == Loaded(before)
  {
    assert Lookup(files, Http) == Lookup(before, Http) && Lookup(files, Stream) == Lookup(before, Stream);
    forall p
      ensures Lookup(Loaded(files), p) == Lookup(Loaded(before), p)
    {
      if IsOf(p, created) {
        assert !IsLoaded(before, p);
      } else {
        assert Lookup(files, p) == Lookup(before, p);
      }
    }
    SameFiles(Loaded(files), Loaded(before));
  }

  lemma RestoredExcept(before: Files, changed: Files, middle: Files, files: Files, certificates: Backups,
                       configuration: Backups,
                       created: set<Directory>)
    requires Covered(before, changed, certificates, configuration, created)
    requires SameOutside(changed, middle, certificates.Keys) && AreBackups(certificates, middle)
    requires SameOutside(middle, files, configuration.Keys) && AreBackups(configuration, files)
    ensures BackExcept(before, files, created)
  {
    forall p: Path | !IsOf(p, created)
      ensures Lookup(files, p) == Lookup(before, p)
    {
      assert p !in configuration.Keys ==> Lookup(files, p) == Lookup(middle, p);
      assert p !in certificates.Keys ==> Lookup(middle, p) == Lookup(changed, p);
    }
  }

  // The files as they were, but for the new directories.
  method PutBack(host: Host, ghost before: Files, certificates: Backups, configuration: Backups,
                 ghost created: set<Directory>)
    returns (ghost complete: bool)
    requires Covered(before, host.files, certificates, configuration, created) && IndexesLead(before)
    modifies host`files, host`faults
    ensures host.faults >= old(host.faults) + Failures(complete)
    ensures Lookup(host.files, AppliedVersion) == old(Lookup(host.files, AppliedVersion))
    ensures complete ==> BackExcept(before, host.files, created) && Loaded(host.files) == Loaded(before)
  {
    complete := Restore(host, certificates);
    ghost var middle := host.files;
    ghost var both := Restore(host, configuration);
    complete := complete && both;
    if complete {
      RestoredExcept(before, old(host.files), middle, host.files, certificates, configuration, created);
      BackLoadsTheSame(before, host.files, created);
    }
  }

  // Puts everything back; with `reload`, Nginx is made to load it again.
  // `reloaded` tells that it did.
  method TakeBack(host: Host, ghost before: Files, certificates: Backups, configuration: Backups,
                  created: set<Directory>, reload: bool)
    returns (ghost complete: bool, ghost reloaded: bool)
    requires Covered(before, host.files, certificates, configuration, created) && IndexesLead(before)
    modifies host`files, host`running, host`tested, host`faults
    ensures host.faults >= old(host.faults) + Failures(complete && (reload ==> reloaded))
    ensures Lookup(host.files, AppliedVersion) == old(Lookup(host.files, AppliedVersion))
    ensures complete ==> host.files == before
    ensures complete && reload && reloaded ==> host.running == Loaded(before)
    ensures !reload ==> host.running == old(host.running)
  {
    complete := PutBack(host, before, certificates, configuration, created);
    reloaded := false;
    if reload {
      var ok := host.TestConfiguration();
      if ok {
        ok := host.Reload();
        reloaded := ok;
      }
    }
    ghost var removed := RemoveCreated(host, before, created);
    complete := complete && removed;
  }

  // ---------- applying ----------

  datatype Outcome =
    | Succeeded
    | InvalidState | ConfigurationBackup | PortCheck | PortConflict | CertificateStaging | ConfigurationWrite
    | CacheLayout | ConfigurationInvalid | ReloadFailed | NotListening
    | VersionWrite

  // Index files for the fragments, or the configuration itself.
  ghost predicate ConfigurationInstalled(before: Files, files: Files, desired: Desired) {
    && Lookup(files, Main) == (if desired.main == None then Lookup(before, Main) else desired.main)
    && Lookup(files, Events) == (if desired.events == None then Lookup(before, Events) else desired.events)
    && match desired.fragments
       case None =>
         && Lookup(files, Http) == Some(desired.http)
         && Lookup(files, Stream) == Some(StreamText(desired))
       case Some(f) =>
         && Http in files && files[Http].Index? && HasFragments(files, files[Http].directory, f.httpBase, f.httpSites)
         && Stream in files && files[Stream].Index? &&
           HasFragments(files, files[Stream].directory, f.streamBase, f.streamSites)
  }

  // The desired state is on disk, whether or not it has been recorded.
  ghost predicate Installed(before: Files, files: Files, desired: Desired, managed: string -> bool) {
    CertificatesInstalled(before, files, desired.certificates, managed) && ConfigurationInstalled(before, files, desired)
  }

  // Directories of fragments other than the active ones go, as far as they can.
  method CleanUp(host: Host, http: Directory, stream: Directory)
    modifies host`files, host`faults
    ensures host.faults >= old(host.faults)
    ensures forall p: Path :: (p.Fragment? || p.Folder? ==> p.directory in {http, stream}) ==>
      Lookup(host.files, p) == Lookup(old(host.files), p)
    ensures forall p :: p in host.files ==> p in old(host.files)
  {
    var ok, rest := host.ListDirectories();
    if !ok {
      return;
    }
    while rest != {}
      invariant host.faults >= old(host.faults)
      invariant forall p: Path :: (p.Fragment? || p.Folder? ==> p.directory in {http, stream}) ==>
        Lookup(host.files, p) == Lookup(old(host.files), p)
      invariant forall p :: p in host.files ==> p in old(host.files)
    {
      var d :| d in rest;
      rest := rest - {d};
      if !d.OtherDirectory? && d != http && d != stream {
        ghost var was := host.files;
        ok := host.RemoveDirectory(d);
        forall p: Path | p.Fragment? || p.Folder? ==> p.directory in {http, stream}
          ensures Lookup(host.files, p) == Lookup(was, p)
        {
          assert !BelongsTo(p, d);
        }
      }
    }
  }

  // From staged fragments to a confirmed Nginx; on a failure all is taken back.
  method Activate(host: Host, ghost before: Files, desired: Desired, certificates: Backups, configuration: Backups,
                  created: set<Directory>, http: Contents, stream: Contents)
    returns (outcome: Outcome, ghost complete: bool, ghost reloaded: bool)
    requires Covered(before, host.files, certificates, configuration, created) && IndexesLead(before)
    requires CONFIGURATION <= configuration.Keys
    modifies host
    ensures host.faults >= old(host.faults) + Failures(outcome.Succeeded?) + Failures(complete && reloaded)
    ensures Lookup(host.files, AppliedVersion) == old(Lookup(host.files, AppliedVersion))
    ensures !outcome.VersionWrite?
    ensures !outcome.Succeeded? && complete ==> host.files == before
    ensures !outcome.Succeeded? && complete && reloaded && old(host.running) == Loaded(before) ==>
      host.running == Loaded(before)
    ensures outcome.Succeeded? ==>
      && SameOutside(old(host.files), host.files, CONFIGURATION)
      && host.confirmed == host.running == Loaded(host.files)
      && Lookup(host.files, Http) == Some(http) && Lookup(host.files, Stream) == Some(stream)
      && Lookup(host.files, Main) == (if desired.main == None then Lookup(old(host.files), Main) else desired.main)
      && Lookup(host.files, Events) == (if desired.events == None then Lookup(old(host.files), Events) else desired.events)
  {
    var ok := WriteConfiguration(host, desired, http, stream);
    if !ok {
      complete, reloaded := TakeBack(host, before, certificates, configuration, created, false);
      return ConfigurationWrite, complete, true;
    }
    var prepared := host.Attempt();
    if !prepared {
      complete, reloaded := TakeBack(host, before, certificates, configuration, created, true);
      return CacheLayout, complete, reloaded;
    }
    ok := host.TestConfiguration();
    if !ok {
      complete, reloaded := TakeBack(host, before, certificates, configuration, created, true);
      return ConfigurationInvalid, complete, reloaded;
    }
    ok := host.Reload();
    if !ok {
      complete, reloaded := TakeBack(host, before, certificates, configuration, created, true);
      var foreign: bool := *;
      return if foreign then PortConflict else ReloadFailed, complete, reloaded;
    }
    var listeners := host.InspectListeners();
    if listeners.Confirmed? {
      return Succeeded, true, true;
    }
    complete, reloaded := TakeBack(host, before, certificates, configuration, created, true);
    outcome := match listeners
      case Uninspected => PortCheck
      case Foreign => PortConflict
      case _ => Outcome.NotListening;
  }

  // What the configuration is to say once certificates and fragments are staged.
  ghost predicate ConfigurationStaged(files: Files, desired: Desired, http: Contents, stream: Contents) {
    match desired.fragments
    case None => http == desired.http && stream == StreamText(desired)
    case Some(f) =>
      && http.Index? && HasFragments(files, http.directory, f.httpBase, f.httpSites)
      && stream.Index? && HasFragments(files, stream.directory, f.streamBase, f.streamSites)
  }

  ghost predicate StagesFragments(files: Files, desired: Desired,
                                  digest: (string, string, seq<FragmentFile>) -> string)
  {
    desired.fragments.Some? ==> CanStageBoth(files, desired.version, desired.fragments.value, digest)
  }

  // Certificates are no fragments.
  lemma CertifiedStages(before: Files, certified: Files, certificates: Backups, desired: Desired,
                        digest: (string, string, seq<FragmentFile>) -> string)
    requires SameOutside(before, certified, certificates.Keys) && forall p :: p in certificates ==> IsCertificate(p)
    ensures StagesFragments(certified, desired, digest) == StagesFragments(before, desired, digest)
  {
    if desired.fragments.Some? {
      var f := desired.fragments.value;
      CertifiedIsThere(before, certified, certificates, HttpFragments(digest(desired.version, f.httpBase, f.httpSites)));
      CertifiedIsThere(before, certified, certificates,
                       StreamFragments(digest(desired.version, f.streamBase, f.streamSites)));
    }
  }

  lemma CertifiedIsThere(before: Files, certified: Files, certificates: Backups, d: Directory)
    requires SameOutside(before, certified, certificates.Keys) && forall p :: p in certificates ==> IsCertificate(p)
    ensures FilesIn(certified, d) == FilesIn(before, d) && IsThere(certified, d) == IsThere(before, d)
  {
    assert Lookup(certified, Folder(d)) == Lookup(before, Folder(d));
    SameDirectory(before, certified, d);
  }

  // Certificates, then fragments.
  method Stage(host: Host, desired: Desired, managed: string -> bool,
               digest: (string, string, seq<FragmentFile>) -> string,
               ghost configuration: Backups)
    returns (outcome: Outcome, certificates: Backups, created: set<Directory>, http: Contents, stream: Contents,
             ghost complete: bool)
    requires AreBackups(configuration, host.files) && AppliedVersion !in configuration
    modifies host`files, host`faults
    ensures Lookup(host.files, AppliedVersion) == old(Lookup(host.files, AppliedVersion))
    ensures host.faults >= old(host.faults) + Failures(complete)
    ensures outcome.Succeeded? ==> complete && StagesFragments(old(host.files), desired, digest)
    ensures StagesFragments(old(host.files), desired, digest) ==>
      host.faults >= old(host.faults) + Failures(outcome.Succeeded?) + Failures(complete)
    ensures outcome in {Succeeded, CertificateStaging, ConfigurationWrite}
    ensures !outcome.Succeeded? && complete ==> host.files == old(host.files)
    ensures outcome.Succeeded? ==>
      && Covered(old(host.files), host.files, certificates, configuration, created)
      && CertificatesInstalled(old(host.files), host.files, desired.certificates, managed)
      && ConfigurationStaged(host.files, desired, http, stream)
      && Lookup(host.files, Main) == Lookup(old(host.files), Main) &&
        Lookup(host.files, Events) == Lookup(old(host.files), Events)
  {
    ghost var before := host.files;
    created, http, stream := {}, desired.http, StreamText(desired);
    var ok;
    ok, certificates, complete := StageCertificates(host, desired.certificates, managed);
    if !ok {
      outcome := CertificateStaging;
      return;
    }
    CertifiedStages(before, host.files, certificates, desired, digest);
    if desired.fragments.Some? {
      var httpDirectory, streamDirectory;
      ghost var certified := host.files;
      ok, httpDirectory, streamDirectory, created, complete :=
        StageFragments(host, desired.version, desired.fragments.value, digest);
      if !ok {
        ghost var changed := host.files;
        ghost var restored := Restore(host, certificates);
        complete := complete && restored;
        if complete {
          RestoredAll(before, changed, host.files, certificates);
        }
        outcome := ConfigurationWrite;
        return;
      }
      http, stream := Index(httpDirectory), Index(streamDirectory);
      StagedOver(before, certified, host.files, certificates, configuration, created, desired.certificates, managed);
    }
    outcome := Succeeded;
  }

  lemma StagedOver(before: Files, certified: Files, files: Files, certificates: Backups, configuration: Backups,
                   created: set<Directory>, bundles: map<string, Bundle>, managed: string -> bool)
    requires AreBackups(certificates, before) && AreBackups(configuration, before)
    requires AppliedVersion !in configuration && forall p :: p in certificates ==> IsCertificate(p)
    requires SameOutside(before, certified, certificates.Keys) && CertificatesInstalled(before, certified, bundles, managed)
    requires BackExcept(certified, files, created) && CreatedAreNew(certified, created)
    ensures Covered(before, files, certificates, configuration, created)
    ensures CertificatesInstalled(before, files, bundles, managed)
    ensures Lookup(files, Main) == Lookup(before, Main) && Lookup(files, Events) == Lookup(before, Events)
  {
    forall d | d in created
      ensures !IsThere(before, d)
    {
      assert Lookup(certified, Folder(d)) == Lookup(before, Folder(d));
      forall name
        ensures name !in FilesIn(before, d)
      {
        assert Lookup(certified, Fragment(d, name)) == Lookup(before, Fragment(d, name));
        assert name !in FilesIn(certified, d);
      }
    }
    forall p: Path | p !in certificates && p !in configuration && !IsOf(p, created)
      ensures Lookup(files, p) == Lookup(before, p)
    {
      assert Lookup(files, p) == Lookup(certified, p) == Lookup(before, p);
    }
    forall site
      ensures Lookup(files, Certificate(site)) == Lookup(certified, Certificate(site))
      ensures Lookup(files, PrivateKey(site)) == Lookup(certified, PrivateKey(site))
    {
    }
  }

  // What is installed and loaded does not depend on anything else on disk.
  lemma StaysInstalled(before: Files, was: Files, files: Files, desired: Desired, managed: string -> bool)
    requires Installed(before, was, desired, managed)
    requires forall p :: p in files && IsLoaded(files, p) ==> IsLoaded(was, p)
    requires forall p :: IsLoaded(was, p) ==> Lookup(files, p) == Lookup(was, p)
    ensures Installed(before, files, desired, managed) && Loaded(files) == Loaded(was)
  {
    assert forall site :: IsLoaded(was, Certificate(site)) && IsLoaded(was, PrivateKey(site));
    assert IsLoaded(was, Main) && IsLoaded(was, Events) && IsLoaded(was, Http) && IsLoaded(was, Stream);
    if desired.fragments.Some? {
      SameDirectory(was, files, was[Http].directory);
      SameDirectory(was, files, was[Stream].directory);
    }
    forall p
      ensures Lookup(Loaded(files), p) == Lookup(Loaded(was), p)
    {
      assert IsLoaded(was, p) ==> Lookup(files, p) == Lookup(was, p);
    }
    SameFiles(Loaded(files), Loaded(was));
  }

  lemma SameDirectory(was: Files, files: Files, d: Directory)
    requires forall name :: Lookup(files, Fragment(d, name)) == Lookup(was, Fragment(d, name))
    ensures FilesIn(files, d) == FilesIn(was, d)
  {
    forall name
      ensures name in FilesIn(files, d) <==> name in FilesIn(was, d)
      ensures name in FilesIn(files, d) ==> FilesIn(files, d)[name] == FilesIn(was, d)[name]
    {
      var p := Fragment(d, name);
      assert Lookup(files, p) == Lookup(was, p);
      assert name in FilesIn(files, d) <==> p in files;
      assert name in FilesIn(was, d) <==> p in was;
    }
  }

  lemma RecordedStays(before: Files, was: Files, desired: Desired, managed: string -> bool)
    requires Installed(before, was, desired, managed)
    ensures var files := was[AppliedVersion := Text(desired.version)];
            Installed(before, files, desired, managed) && Loaded(files) == Loaded(was)
  {
    var files := was[AppliedVersion := Text(desired.version)];
    forall p
      ensures IsLoaded(files, p) == IsLoaded(was, p)
      ensures IsLoaded(was, p) ==> Lookup(files, p) == Lookup(was, p)
    {
    }
    StaysInstalled(before, was, files, desired, managed);
  }

  lemma CleanedStays(before: Files, was: Files, files: Files, desired: Desired, managed: string -> bool)
    requires Installed(before, was, desired, managed) && desired.fragments.Some?
    requires forall p: Path ::
      (p.Fragment? || p.Folder? ==> p.directory in {was[Http].directory, was[Stream].directory}) ==>
      Lookup(files, p) == Lookup(was, p)
    requires forall p :: p in files ==> p in was
    ensures Installed(before, files, desired, managed) && Loaded(files) == Loaded(was)
  {
    assert Lookup(files, Http) == Lookup(was, Http) && Lookup(files, Stream) == Lookup(was, Stream);
    forall p
      ensures IsLoaded(files, p) == IsLoaded(was, p)
      ensures IsLoaded(was, p) ==> Lookup(files, p) == Lookup(was, p)
    {
    }
    StaysInstalled(before, was, files, desired, managed);
  }

  // After Nginx is confirmed: record the version, then clean up.
  method Record(host: Host, ghost before: Files, desired: Desired, managed: string -> bool, http: Contents,
                stream: Contents)
    returns (outcome: Outcome)
    requires Installed(before, host.files, desired, managed)
    requires Lookup(host.files, Http) == Some(http) && Lookup(host.files, Stream) == Some(stream)
    modifies host`files, host`faults
    ensures outcome.Succeeded? || outcome.VersionWrite?
    ensures host.faults >= old(host.faults) + Failures(outcome.Succeeded?)
    ensures Installed(before, host.files, desired, managed) && Loaded(host.files) == Loaded(old(host.files))
    ensures Lookup(host.files, AppliedVersion) ==
      if outcome.Succeeded? then Some(Text(desired.version)) else old(Lookup(host.files, AppliedVersion))
  {
    var ok := host.Write(AppliedVersion, Text(desired.version));
    if !ok {
      return VersionWrite;
    }
    RecordedStays(before, old(host.files), desired, managed);
    if desired.fragments.Some? {
      ghost var was := host.files;
      CleanUp(host, http.directory, stream.directory);
      CleanedStays(before, was, host.files, desired, managed);
    }
    return Succeeded;
  }

  lemma CertificatesStay(before: Files, staged: Files, files: Files, bundles: map<string, Bundle>,
                         managed: string -> bool)
    requires CertificatesInstalled(before, staged, bundles, managed) && SameOutside(staged, files, CONFIGURATION)
    ensures CertificatesInstalled(before, files, bundles, managed)
  {
    forall site
      ensures Lookup(files, Certificate(site)) == Lookup(staged, Certificate(site))
      ensures Lookup(files, PrivateKey(site)) == Lookup(staged, PrivateKey(site))
    {
    }
  }

  lemma OutsideConfiguration(staged: Files, files: Files, d: Directory)
    requires SameOutside(staged, files, CONFIGURATION)
    ensures FilesIn(files, d) == FilesIn(staged, d)
  {
    forall name
      ensures Lookup(files, Fragment(d, name)) == Lookup(staged, Fragment(d, name))
    {
      assert Fragment(d, name) !in CONFIGURATION;
    }
    SameDirectory(staged, files, d);
  }

  lemma StaysFragments(staged: Files, files: Files, d: Directory, base: string, sites: seq<FragmentFile>)
    requires HasFragments(staged, d, base, sites) && SameOutside(staged, files, CONFIGURATION)
    ensures HasFragments(files, d, base, sites)
  {
    OutsideConfiguration(staged, files, d);
  }

  lemma ActivatedIsInstalled(before: Files, staged: Files, files: Files, desired: Desired, managed: string -> bool,
                             http: Contents, stream: Contents)
    requires CertificatesInstalled(before, staged, desired.certificates, managed) &&
      ConfigurationStaged(staged, desired, http, stream)
    requires Lookup(staged, Main) == Lookup(before, Main) && Lookup(staged, Events) == Lookup(before, Events)
    requires SameOutside(staged, files, CONFIGURATION)
    requires Lookup(files, Http) == Some(http) && Lookup(files, Stream) == Some(stream)
    requires Lookup(files, Main) == if desired.main == None then Lookup(staged, Main) else desired.main
    requires Lookup(files, Events) == if desired.events == None then Lookup(staged, Events) else desired.events
    ensures Installed(before, files, desired, managed)
  {
    CertificatesStay(before, staged, files, desired.certificates, managed);
    if desired.fragments.Some? {
      StaysFragments(staged, files, http.directory, desired.fragments.value.httpBase, desired.fragments.value.httpSites);
      StaysFragments(staged, files, stream.directory, desired.fragments.value.streamBase, desired.fragments.value.streamSites);
    }
  }

  // The active indexes can be followed and the fragments can be staged.
  ghost predicate Applicable(files: Files, desired: Desired, digest: (string, string, seq<FragmentFile>) -> string) {
    IndexesLead(files) && StagesFragments(files, desired, digest)
  }

  // `hasPorts` is whether the public ports of the state are in order.
  // `complete` tells that nothing failed while files were put back, `reloaded`
  // that Nginx then loaded them if it had been made to load others.
  method Apply(host: Host, desired: Desired, managed: string -> bool,
               digest: (string, string, seq<FragmentFile>) -> string,
               hasPorts: bool)
    returns (outcome: Outcome, ghost complete: bool, ghost reloaded: bool)
    modifies host
    // Only an applicable state is applied, and it is unless an operation fails;
    // two failures are needed for the files not to be put back.
    ensures outcome.Succeeded? ==> hasPorts && Applicable(old(host.files), desired, digest)
    ensures host.faults >= old(host.faults) + Failures(complete && reloaded)
    ensures hasPorts && Applicable(old(host.files), desired, digest) ==>
      host.faults >= old(host.faults) + Failures(outcome.Succeeded?) + Failures(complete && reloaded)
    // A failure before Nginx is confirmed changes nothing at all.
    ensures !outcome.Succeeded? && !outcome.VersionWrite? && complete ==> host.files == old(host.files)
    ensures old(host.running == Loaded(host.files)) && !outcome.Succeeded? && !outcome.VersionWrite? && complete && reloaded ==>
      host.running == Loaded(host.files)
    // Otherwise the desired state is installed and running.
    ensures outcome.Succeeded? || outcome.VersionWrite? ==>
      Installed(old(host.files), host.files, desired, managed) && host.confirmed == host.running == Loaded(host.files)
    ensures Lookup(host.files, AppliedVersion) ==
      if outcome.Succeeded? then Some(Text(desired.version)) else old(Lookup(host.files, AppliedVersion))
  {
    ghost var before := host.files;
    complete, reloaded := true, true;
    if !hasPorts {
      return InvalidState, true, true;
    }
    var ok, configuration := BackUpConfiguration(host);
    if !ok {
      return ConfigurationBackup, true, true;
    }
    ok := host.Attempt();
    if !ok {
      return PortCheck, true, true;
    }
    ok := host.Attempt();
    if !ok {
      return PortConflict, true, true;
    }
    var certificates, created, http, stream;
    outcome, certificates, created, http, stream, complete := Stage(host, desired, managed, digest, configuration);
    if !outcome.Succeeded? {
      return;
    }
    ghost var staged := host.files;
    outcome, complete, reloaded := Activate(host, before, desired, certificates, configuration, created, http, stream);
    if !outcome.Succeeded? {
      return;
    }
    ActivatedIsInstalled(before, staged, host.files, desired, managed, http, stream);
    outcome := Record(host, before, desired, managed, http, stream);
  }
}

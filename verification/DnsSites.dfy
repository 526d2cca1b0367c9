// The DNS of one site: which nodes its names point to, round after round.
module DnsSites {
  import opened DnsRecords
  import opened DnsReconcile
  import opened Options

  type Zone = DnsReconcile.Zone<Record>
  type View = Scope<Record>

  // ---------- the records of Cloudflare ----------

  function Stored(r: Record): Record {
    r.(kind := "A")
  }

  function ScopeOf(owner: string): View {
    Scope(r => Owned(r, owner), Key, (r: Record) => CanonicalName(r.name), Clean, Stored,
          (r: Record, want: Record) => r.ttl == want.ttl && r.proxied == want.proxied)
  }

  lemma ScopeIsFaithful(owner: string)
    ensures KeepsKeys(ScopeOf(owner)) && NamedByKey(ScopeOf(owner))
  {
    forall r, s | Clean(r) && Clean(s) && Key(r) == Key(s)
      ensures CanonicalName(r.name) == CanonicalName(s.name)
    {
      KeyIsInjective(r, s);
    }
  }

  predicate IsValid(r: Record) {
    r.name != "" && r.content != "" && HasPrefix(r.comment, MANAGED_PREFIX)
  }

  predicate AllValid(desired: seq<Record>) {
    forall d :: d in desired ==> IsValid(d)
  }

  function Normalised(r: Record): Record {
    r.(ttl := if r.ttl == 0 then 60 else r.ttl, proxied := false)
  }

  // Of several desired records with one key, the last counts.
  function WantedOf(desired: seq<Record>, v: View): map<string, Record> {
    if desired == [] then map[]
    else
      var r := Normalised(desired[|desired| - 1]);
      WantedOf(desired[..|desired| - 1], v)[v.key(r) := r]
  }

  lemma {:induction false} WantedComesFromDesired(desired: seq<Record>, v: View)
    ensures IsKeyed(WantedOf(desired, v), v)
    ensures forall k :: k in WantedOf(desired, v) ==> exists d :: d in desired && WantedOf(desired, v)[k] == Normalised(d)
    ensures forall d :: d in desired ==> v.key(Normalised(d)) in WantedOf(desired, v)
  {
    if desired != [] {
      var last := desired[|desired| - 1];
      var init := desired[..|desired| - 1];
      WantedComesFromDesired(init, v);
      assert desired == init + [last];
      assert forall d :: d in desired <==> d in init || d == last;
    }
  }

  method BuildWanted(desired: seq<Record>, v: View) returns (ok: bool, wanted: map<string, Record>)
    ensures ok <==> AllValid(desired)
    ensures ok ==> wanted == WantedOf(desired, v)
  {
    wanted := map[];
    for i := 0 to |desired|
      invariant wanted == WantedOf(desired[..i], v)
      invariant forall d :: d in desired[..i] ==> IsValid(d)
    {
      if !IsValid(desired[i]) {
        return false, map[];
      }
      var r := Normalised(desired[i]);
      wanted := wanted[v.key(r) := r];
      assert desired[..i + 1][..i] == desired[..i];
    }
    assert desired[..|desired|] == desired;
    return true, wanted;
  }

  // `v` is the view of an owner; `named` says that the zone, the owner and the
  // token are given.
  method Reconcile(zone: Zone, v: View, named: bool, desired: seq<Record>) returns (ok: bool)
    requires KeepsKeys(v) && zone.Valid()
    modifies zone
    ensures zone.Valid()
    ensures Logged(zone.history, zone.records, old(zone.records), old(zone.history), v, WantedOf(desired, v))
    ensures ok && IsOwned(WantedOf(desired, v), v) ==>
      (Converged(zone.records, v, WantedOf(desired, v)) <==> DistinctKeys(old(zone.records), v))
    ensures ok ==> named && AllValid(desired)
    ensures ok ==> NoneConflicts(old(zone.records), v, WantedOf(desired, v))
    ensures !named || !AllValid(desired) ==> zone.history == old(zone.history)
    // It is refused for no other reason than these, unless a call fails.
    ensures zone.faults >= old(zone.faults)
    ensures named && AllValid(desired) && NoneConflicts(old(zone.records), v, WantedOf(desired, v)) ==>
      zone.faults >= old(zone.faults) + Failures(ok)
    ensures Converged(old(zone.records), v, WantedOf(desired, v)) ==> zone.history == old(zone.history)
    ensures !NoneConflicts(old(zone.records), v, WantedOf(desired, v)) ==>
      AllIdle(old(zone.records), v, WantedOf(desired, v)) ==> zone.history == old(zone.history)
  {
    if !named {
      return false;
    }
    var existing, wanted;
    ok, existing := zone.ListRecords();
    if !ok {
      return false;
    }
    ok, wanted := BuildWanted(desired, v);
    if !ok {
      return false;
    }
    WantedComesFromDesired(desired, v);
    var order := ArbitraryOrder(wanted.Keys);
    ghost var managed;
    ok, managed := ReconcileWanted(zone, existing, v, wanted, order);
  }

  // ---------- a round of one site ----------

  type NodeId = string

  datatype Site = Site(id: string, domains: seq<string>, nodes: seq<NodeId>)

  // What a round reads of one node.
  datatype NodeFacts = NodeFacts(
    address: string, active: bool, upgrading: bool, desiredVersion: nat, appliedVersion: int,
    publishing: bool, eligible: bool, servesSite: bool, siteEligible: bool)

  type Nodes = map<NodeId, NodeFacts>

  predicate Assigned(site: Site, nodes: Nodes, id: NodeId) {
    id in site.nodes && id in nodes
  }

  predicate IsConverging(n: NodeFacts) {
    n.upgrading || (n.active && (n.desiredVersion == 0 || n.appliedVersion < n.desiredVersion || n.publishing))
  }

  predicate IsHealthy(n: NodeFacts) {
    n.active && !IsConverging(n) && n.eligible && (n.servesSite ==> n.siteEligible)
  }

  predicate Serving(site: Site, nodes: Nodes, id: NodeId) {
    Assigned(site, nodes, id) && IsHealthy(nodes[id])
  }

  ghost predicate SomeActive(site: Site, nodes: Nodes) {
    exists id :: Assigned(site, nodes, id) && nodes[id].active
  }

  ghost predicate SomeConverging(site: Site, nodes: Nodes) {
    exists id :: Assigned(site, nodes, id) && IsConverging(nodes[id])
  }

  // The loop over the assigned nodes; every node can take five reads of the
  // store, any of which can fail.
  method Classify(zone: Zone, site: Site, nodes: Nodes)
    returns (ok: bool, healthy: seq<NodeId>, active: nat, converging: nat)
    modifies zone`faults
    ensures zone.faults == old(zone.faults) + Failures(ok)
    ensures ok ==> forall id :: id in healthy <==> Serving(site, nodes, id)
    ensures ok ==> (active > 0 <==> SomeActive(site, nodes))
    ensures ok ==> (converging > 0 <==> SomeConverging(site, nodes))
  {
    healthy, active, converging := [], 0, 0;
    for i := 0 to |site.nodes|
      invariant zone.faults == old(zone.faults)
      invariant forall id :: id in healthy <==> id in site.nodes[..i] && id in nodes && IsHealthy(nodes[id])
      invariant active > 0 <==> exists id :: id in site.nodes[..i] && id in nodes && nodes[id].active
      invariant converging > 0 <==> exists id :: id in site.nodes[..i] && id in nodes && IsConverging(nodes[id])
    {
      var id := site.nodes[i];
      assert forall j :: j in site.nodes[..i + 1] <==> j in site.nodes[..i] || j == id;
      if id !in nodes {
        continue;
      }
      ok := zone.Attempt();
      if !ok {
        return;
      }
      var n := nodes[id];
      if !n.active {
        if n.upgrading {
          converging := converging + 1;
        }
        continue;
      }
      active := active + 1;
      if n.upgrading || n.desiredVersion == 0 || n.appliedVersion < n.desiredVersion || n.publishing {
        converging := converging + 1;
        continue;
      }
      if !n.eligible || (n.servesSite && !n.siteEligible) {
        continue;
      }
      healthy := healthy + [id];
    }
    assert site.nodes[..|site.nodes|] == site.nodes;
    ok := true;
  }

  function Entry(site: Site, id: NodeId, address: string, name: string, ttl: int): Record {
    Record("", name, address, MANAGED_PREFIX + "site=" + site.id + ";node=" + id, ttl, false)
  }

  predicate IsEntry(site: Site, nodes: Nodes, healthy: seq<NodeId>, ttl: int, d: Record) {
    exists id, name ::
      id in healthy && id in nodes && name in site.domains && d == Entry(site, id, nodes[id].address, name, ttl)
  }

  method BuildDesired(site: Site, nodes: Nodes, healthy: seq<NodeId>, ttl: int) returns (desired: seq<Record>)
    requires forall id :: id in healthy ==> id in nodes
    ensures forall d :: d in desired <==> IsEntry(site, nodes, healthy, ttl, d)
  {
    desired := [];
    for i := 0 to |healthy|
      invariant forall d :: d in desired <==> IsEntry(site, nodes, healthy[..i], ttl, d)
    {
      var id := healthy[i];
      ghost var was := desired;
      for j := 0 to |site.domains|
        invariant forall d :: d in desired <==>
          d in was || exists name :: name in site.domains[..j] && d == Entry(site, id, nodes[id].address, name, ttl)
      {
        var entry := Entry(site, id, nodes[id].address, site.domains[j], ttl);
        assert forall name :: name in site.domains[..j + 1] <==> name in site.domains[..j] || name == site.domains[j];
        desired := desired + [entry];
      }
      assert site.domains[..|site.domains|] == site.domains;
      assert forall k :: k in healthy[..i + 1] <==> k in healthy[..i] || k == id;
    }
    assert healthy[..|healthy|] == healthy;
  }

  // All that a round needs to know about the view of the site.
  ghost predicate ForSite(v: View, site: Site) {
    && KeepsKeys(v) && NamedByKey(v)
    && forall id, address, name, ttl {:trigger Entry(site, id, address, name, ttl)} ::
      var e := Normalised(Entry(site, id, address, name, ttl));
      v.owned(v.stored(e)) && v.canonical(e) == CanonicalName(name)
  }

  ghost predicate IsClean(v: View, site: Site, nodes: Nodes) {
    forall id, name, ttl :: id in nodes && name in site.domains ==>
      v.clean(Normalised(Entry(site, id, nodes[id].address, name, ttl)))
  }

  ghost predicate NamesKept(before: Records<Record>, s: Records<Record>, v: View, site: Site) {
    forall name :: name in site.domains && HasManaged(before, v, CanonicalName(name)) ==>
      HasManaged(s, v, CanonicalName(name))
  }

  ghost predicate IsFor(r: Record, v: View, site: Site, nodes: Nodes, ttl: int, id: NodeId, name: string) {
    && Serving(site, nodes, id) && name in site.domains
    && v.key(r) == v.key(Normalised(Entry(site, id, nodes[id].address, name, ttl)))
  }

  // The owned records are those of the healthy nodes, for every name.
  ghost predicate PointsToHealthy(s: Records<Record>, v: View, site: Site, nodes: Nodes, ttl: int) {
    && (forall r :: r in s && v.owned(s[r]) ==> exists id, name :: IsFor(s[r], v, site, nodes, ttl, id, name))
    && (forall id, name :: Serving(site, nodes, id) && name in site.domains ==>
          exists r :: r in s && v.owned(s[r]) && IsFor(s[r], v, site, nodes, ttl, id, name))
  }

  lemma WantedForSite(v: View, site: Site, nodes: Nodes, healthy: seq<NodeId>, ttl: int, desired: seq<Record>)
    requires ForSite(v, site) && IsClean(v, site, nodes)
    requires forall d :: d in desired <==> IsEntry(site, nodes, healthy, ttl, d)
    ensures IsOwned(WantedOf(desired, v), v) && WantedIsClean(WantedOf(desired, v), v)
  {
    WantedComesFromDesired(desired, v);
    var wanted := WantedOf(desired, v);
    forall k | k in wanted
      ensures v.owned(v.stored(wanted[k])) && v.clean(wanted[k])
    {
      var d :| d in desired && wanted[k] == Normalised(d);
      assert IsEntry(site, nodes, healthy, ttl, d);
    }
  }

  // With a healthy node every name of the site is wanted.
  lemma NamesAreWanted(v: View, site: Site, nodes: Nodes, healthy: seq<NodeId>, ttl: int, desired: seq<Record>,
                       id: NodeId, name: string)
    requires ForSite(v, site) && IsClean(v, site, nodes)
    requires forall d :: d in desired <==> IsEntry(site, nodes, healthy, ttl, d)
    requires id in healthy && id in nodes && name in site.domains
    ensures WantsName(WantedOf(desired, v), v, CanonicalName(name))
  {
    WantedComesFromDesired(desired, v);
    WantedForSite(v, site, nodes, healthy, ttl, desired);
    var wanted := WantedOf(desired, v);
    var e := Entry(site, id, nodes[id].address, name, ttl);
    assert IsEntry(site, nodes, healthy, ttl, e);
    var k := v.key(Normalised(e));
    assert k in wanted && v.clean(wanted[k]) && v.key(wanted[k]) == k;
    assert v.canonical(wanted[k]) == CanonicalName(name);
  }

  // No call of a round touches another owner or empties a name.
  lemma CallIsHarmless(before: Records<Record>, s: Records<Record>, v: View, site: Site, nodes: Nodes,
                       healthy: seq<NodeId>,
                       ttl: int, desired: seq<Record>)
    requires ForSite(v, site) && IsClean(v, site, nodes) && AllClean(before, v)
    requires forall d :: d in desired <==> IsEntry(site, nodes, healthy, ttl, d)
    requires Reconciling(before, s, v, WantedOf(desired, v))
    ensures OthersUntouched(before, s, v) && AllClean(s, v)
    ensures (exists id :: id in healthy && id in nodes) ==> NamesKept(before, s, v, site)
  {
    var wanted := WantedOf(desired, v);
    WantedComesFromDesired(desired, v);
    WantedForSite(v, site, nodes, healthy, ttl, desired);
    ReconcilingLeavesOthers(before, s, v, wanted);
    forall id | id in s
      ensures v.clean(s[id])
    {
      assert IsStep(before, s, v, wanted, id);
    }
    if id :| id in healthy && id in nodes {
      forall name | name in site.domains && HasManaged(before, v, CanonicalName(name))
        ensures HasManaged(s, v, CanonicalName(name))
      {
        NamesAreWanted(v, site, nodes, healthy, ttl, desired, id, name);
        ReconcilingKeepsNames(before, s, v, wanted, CanonicalName(name));
      }
    }
  }

  lemma ConvergedPointsToHealthy(s: Records<Record>, v: View, site: Site, nodes: Nodes, healthy: seq<NodeId>, ttl: int,
                                 desired: seq<Record>)
    requires forall id :: id in healthy <==> Serving(site, nodes, id)
    requires forall d :: d in desired <==> IsEntry(site, nodes, healthy, ttl, d)
    requires Converged(s, v, WantedOf(desired, v))
    ensures PointsToHealthy(s, v, site, nodes, ttl)
  {
    var wanted := WantedOf(desired, v);
    WantedComesFromDesired(desired, v);
    forall r | r in s && v.owned(s[r])
      ensures exists id, name :: IsFor(s[r], v, site, nodes, ttl, id, name)
    {
      var d :| d in desired && wanted[v.key(s[r])] == Normalised(d);
      assert IsEntry(site, nodes, healthy, ttl, d);
      var id, name :|
        id in healthy && id in nodes && name in site.domains && d == Entry(site, id, nodes[id].address, name, ttl);
      assert IsFor(s[r], v, site, nodes, ttl, id, name);
    }
    forall id, name | Serving(site, nodes, id) && name in site.domains
      ensures exists r :: r in s && v.owned(s[r]) && IsFor(s[r], v, site, nodes, ttl, id, name)
    {
      var e := Entry(site, id, nodes[id].address, name, ttl);
      assert IsEntry(site, nodes, healthy, ttl, e);
      assert Holds(s, v, wanted[v.key(Normalised(e))]);
    }
  }

  // What every call of a round keeps of `before`.
  ghost predicate CallsAreHarmless(before: Records<Record>, history: seq<Records<Record>>, from: nat, v: View,
                                   site: Site, active: bool)
  {
    forall i :: from <= i < |history| ==>
      OthersUntouched(before, history[i], v) && AllClean(history[i], v) && (active ==> NamesKept(before, history[i], v, site))
  }

  lemma LogIsHarmless(before: Records<Record>, history: seq<Records<Record>>, s: Records<Record>,
                      start: seq<Records<Record>>, v: View, site: Site, nodes: Nodes, healthy: seq<NodeId>, ttl: int,
                      desired: seq<Record>)
    requires ForSite(v, site) && IsClean(v, site, nodes) && AllClean(before, v)
    requires forall id :: id in healthy ==> id in nodes
    requires forall d :: d in desired <==> IsEntry(site, nodes, healthy, ttl, d)
    requires Logged(history, s, before, start, v, WantedOf(desired, v))
    ensures CallsAreHarmless(before, history, |start|, v, site, |healthy| > 0) && AllClean(s, v)
    ensures start <= history && IsLast(history, s, before, start)
  {
    forall i | |start| <= i < |history|
      ensures OthersUntouched(before, history[i], v) && AllClean(history[i], v)
      ensures |healthy| > 0 ==> NamesKept(before, history[i], v, site)
    {
      if |healthy| > 0 {
        assert healthy[0] in healthy;
      }
      CallIsHarmless(before, history[i], v, site, nodes, healthy, ttl, desired);
    }
  }

  // The entries of the healthy nodes are valid, and no one else holds a name.
  ghost predicate CanPoint(records: Records<Record>, v: View, site: Site, nodes: Nodes, ttl: int) {
    forall id, name :: Serving(site, nodes, id) && name in site.domains ==> CanEnter(records, v, site, nodes, ttl, id, name)
  }

  ghost predicate CanEnter(records: Records<Record>, v: View, site: Site, nodes: Nodes, ttl: int, id: NodeId, name: string)
    requires id in nodes
  {
    && name != "" && nodes[id].address != ""
    && !Conflicts(records, v, Normalised(Entry(site, id, nodes[id].address, name, ttl)))
  }

  lemma CanPointIsEnough(records: Records<Record>, v: View, site: Site, nodes: Nodes, healthy: seq<NodeId>, ttl: int,
                         desired: seq<Record>)
    requires forall id :: id in healthy <==> Serving(site, nodes, id)
    requires forall d :: d in desired <==> IsEntry(site, nodes, healthy, ttl, d)
    requires CanPoint(records, v, site, nodes, ttl)
    ensures AllValid(desired) && NoneConflicts(records, v, WantedOf(desired, v))
  {
    forall d | d in desired
      ensures IsValid(d) && !Conflicts(records, v, Normalised(d))
    {
      var id, name :|
        id in healthy && id in nodes && name in site.domains && d == Entry(site, id, nodes[id].address, name, ttl);
      assert CanEnter(records, v, site, nodes, ttl, id, name);
      EntryIsManaged(site, id, nodes[id].address, name, ttl);
    }
    WantedComesFromDesired(desired, v);
  }

  lemma EntryIsManaged(site: Site, id: NodeId, address: string, name: string, ttl: int)
    ensures HasPrefix(Entry(site, id, address, name, ttl).comment, MANAGED_PREFIX)
  {
    assert Entry(site, id, address, name, ttl).comment == MANAGED_PREFIX + ("site=" + site.id + ";node=" + id);
  }

  // `named` says, as it does for Reconcile, that the zone and the token are given.
  method PointTo(zone: Zone, v: View, site: Site, nodes: Nodes, healthy: seq<NodeId>, ttl: int, desired: seq<Record>,
                 named: bool)
    returns (ok: bool)
    requires ForSite(v, site) && IsClean(v, site, nodes)
    requires zone.Valid() && AllClean(zone.records, v)
    requires forall id :: id in healthy <==> Serving(site, nodes, id)
    requires forall d :: d in desired <==> IsEntry(site, nodes, healthy, ttl, d)
    modifies zone
    ensures zone.Valid() && AllClean(zone.records, v) && old(zone.history) <= zone.history
    ensures CallsAreHarmless(old(zone.records), zone.history, |old(zone.history)|, v, site, |healthy| > 0)
    ensures IsLast(zone.history, zone.records, old(zone.records), old(zone.history))
    ensures ok && DistinctKeys(old(zone.records), v) ==> PointsToHealthy(zone.records, v, site, nodes, ttl)
    ensures zone.faults >= old(zone.faults)
    ensures named && CanPoint(old(zone.records), v, site, nodes, ttl) ==>
      zone.faults >= old(zone.faults) + Failures(ok)
  {
    if CanPoint(zone.records, v, site, nodes, ttl) {
      CanPointIsEnough(zone.records, v, site, nodes, healthy, ttl, desired);
    }
    ok := Reconcile(zone, v, named, desired);
    LogIsHarmless(old(zone.records), zone.history, zone.records, old(zone.history), v, site, nodes, healthy, ttl,
                  desired);
    if ok && DistinctKeys(old(zone.records), v) {
      DonePointsToHealthy(zone.records, v, site, nodes, healthy, ttl, desired);
    }
  }

  lemma DonePointsToHealthy(s: Records<Record>, v: View, site: Site, nodes: Nodes, healthy: seq<NodeId>, ttl: int,
                            desired: seq<Record>)
    requires ForSite(v, site) && IsClean(v, site, nodes)
    requires forall id :: id in healthy <==> Serving(site, nodes, id)
    requires forall d :: d in desired <==> IsEntry(site, nodes, healthy, ttl, d)
    requires IsOwned(WantedOf(desired, v), v) ==> Converged(s, v, WantedOf(desired, v))
    ensures PointsToHealthy(s, v, site, nodes, ttl)
  {
    WantedForSite(v, site, nodes, healthy, ttl, desired);
    ConvergedPointsToHealthy(s, v, site, nodes, healthy, ttl, desired);
  }

  method ReconcileSite(zone: Zone, v: View, site: Site, nodes: Nodes, ttl: int, named: bool)
    returns (ok: bool, noHealthy: bool)
    requires ForSite(v, site) && IsClean(v, site, nodes)
    requires zone.Valid() && AllClean(zone.records, v)
    modifies zone
    ensures zone.Valid() && AllClean(zone.records, v) && old(zone.history) <= zone.history
    ensures CallsAreHarmless(old(zone.records), zone.history, |old(zone.history)|, v, site, SomeActive(site, nodes))
    ensures IsLast(zone.history, zone.records, old(zone.records), old(zone.history))
    // A converging node defers every change; so does having only unfit ones.
    ensures SomeConverging(site, nodes) ==> zone.history == old(zone.history)
    ensures SomeActive(site, nodes) && (forall id :: !Serving(site, nodes, id)) ==> zone.history == old(zone.history)
    ensures ok ==> (noHealthy <==>
      SomeActive(site, nodes) && !SomeConverging(site, nodes) && forall id :: !Serving(site, nodes, id))
    ensures ok && !noHealthy && !SomeConverging(site, nodes) && DistinctKeys(old(zone.records), v) ==>
      PointsToHealthy(zone.records, v, site, nodes, ttl)
    // A round that has nothing in its way succeeds unless something fails; a
    // round that is cancelled counts as failing.
    ensures zone.faults >= old(zone.faults)
    ensures named && CanPoint(old(zone.records), v, site, nodes, ttl) ==>
      zone.faults >= old(zone.faults) + Failures(ok)
  {
    noHealthy := false;
    ok := zone.Attempt();
    if !ok {
      return;
    }
    var healthy, active, converging;
    ok, healthy, active, converging := Classify(zone, site, nodes);
    if !ok || converging > 0 {
      return;
    }
    if |healthy| == 0 {
      if active == 0 {
        ok := zone.Attempt();
        if !ok {
          return;
        }
        ok := PointTo(zone, v, site, nodes, healthy, ttl, [], named);
        return;
      }
      noHealthy := true;
      return;
    }
    var desired := BuildDesired(site, nodes, healthy, ttl);
    ok := zone.Attempt();
    if !ok {
      return;
    }
    assert healthy[0] in healthy;
    ok := PointTo(zone, v, site, nodes, healthy, ttl, desired, named);
  }

  // One thing that happens between two rounds or in one.
  datatype Event =
    | Round(nodes: Nodes, ttl: int, named: bool)
    | OthersWrite(id: RecordId, r: Record)
    | OthersDelete(id: RecordId)

  // Over any run in which every round has an active node of the site, no call
  // leaves a name of the site without a managed record that had one.
  method Run(zone: Zone, v: View, site: Site, events: seq<Event>)
    requires ForSite(v, site) && zone.Valid() && AllClean(zone.records, v)
    requires forall e :: e in events && e.Round? ==> IsClean(v, site, e.nodes) && SomeActive(site, e.nodes)
    modifies zone
    ensures old(zone.history) <= zone.history
    ensures forall i :: |old(zone.history)| <= i < |zone.history| ==> NamesKept(old(zone.records), zone.history[i], v, site)
    ensures NamesKept(old(zone.records), zone.records, v, site)
  {
    for k := 0 to |events|
      invariant zone.Valid() && AllClean(zone.records, v) && old(zone.history) <= zone.history
      invariant forall i :: |old(zone.history)| <= i < |zone.history| ==>
        NamesKept(old(zone.records), zone.history[i], v, site)
      invariant NamesKept(old(zone.records), zone.records, v, site)
    {
      label before:
      match events[k] {
        case Round(nodes, ttl, named) =>
          var ok, noHealthy := ReconcileSite(zone, v, site, nodes, ttl, named);
          forall i | |old@before(zone.history)| <= i < |zone.history|
            ensures NamesKept(old(zone.records), zone.history[i], v, site)
          {
            KeptTwice(old(zone.records), old@before(zone.records), zone.history[i], v, site);
          }
        case OthersWrite(id, r) =>
          zone.OthersWrite(id, r, v);
          UnchangedKeepsNames(old@before(zone.records), zone.records, v, site);
          KeptTwice(old(zone.records), old@before(zone.records), zone.records, v, site);
        case OthersDelete(id) =>
          zone.OthersDelete(id, v);
          UnchangedKeepsNames(old@before(zone.records), zone.records, v, site);
          KeptTwice(old(zone.records), old@before(zone.records), zone.records, v, site);
      }
    }
  }

  lemma KeptTwice(a: Records<Record>, b: Records<Record>, c: Records<Record>, v: View, site: Site)
    requires NamesKept(a, b, v, site) && NamesKept(b, c, v, site)
    ensures NamesKept(a, c, v, site)
  {
  }

  lemma UnchangedKeepsNames(before: Records<Record>, s: Records<Record>, v: View, site: Site)
    requires OwnedUnchanged(before, s, v)
    ensures NamesKept(before, s, v, site)
  {
    forall name | name in site.domains && HasManaged(before, v, CanonicalName(name))
      ensures HasManaged(s, v, CanonicalName(name))
    {
      var id :| id in before && v.owned(before[id]) && v.canonical(before[id]) == CanonicalName(name);
      assert id in s && s[id] == before[id];
    }
  }

  // The owner of a site sees its entries as its own.
  lemma OwnerIsForSite(site: Site)
    ensures ForSite(ScopeOf("site=" + site.id), site)
  {
    var v := ScopeOf("site=" + site.id);
    ScopeIsFaithful("site=" + site.id);
    forall id, address, name, ttl
      ensures v.owned(v.stored(Normalised(Entry(site, id, address, name, ttl))))
    {
      var prefix := MANAGED_PREFIX + ("site=" + site.id) + ";";
      assert MANAGED_PREFIX + "site=" + site.id + ";node=" + id == prefix + ("node=" + id);
    }
  }

  // A record for a node holds its address under the name.
  lemma PointsToAddress(site: Site, nodes: Nodes, ttl: int, r: Record, id: NodeId, name: string)
    requires IsFor(r, ScopeOf("site=" + site.id), site, nodes, ttl, id, name)
    requires Clean(r) && Clean(Entry(site, id, nodes[id].address, name, ttl))
    ensures CanonicalName(r.name) == CanonicalName(name) && r.content == nodes[id].address
  {
    KeyIsInjective(r, Normalised(Entry(site, id, nodes[id].address, name, ttl)));
  }
}

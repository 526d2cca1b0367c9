// The publisher: rebuilding the desired states of the affected nodes, and why
// that agrees with rebuilding all of them.
module Publisher {
  import opened NodeStatuses
  import opened Options
  import opened Publication

  // ---------- one node ----------

  function PreviousContent(states: map<Id, State>, n: Id): Option<Content> {
    if n in states then Some(states[n].content) else None
  }

  function NextVersion(states: map<Id, State>, n: Id): nat {
    if n in states then states[n].version + 1 else 1
  }

  // The update of a node that is rebuilt: none when the content is the same.
  ghost predicate Rebuilt(r: Renderer, hosted: seq<Rendered>, node: Node, states: map<Id, State>, updates: map<Id,
                          State>)
  {
    var previous := PreviousContent(states, node.id);
    var desired := Desired(r, hosted, node, previous);
    && desired.Some?
    && (node.id in updates <==> previous != desired)
    && (node.id in updates ==> updates[node.id] == State(NextVersion(states, node.id), desired.value))
  }

  // The stored state of a node is what rendering it again would give.
  ghost predicate SettledNode(r: Renderer, publications: map<Id, Material>, node: Node, states: map<Id, State>) {
    || Skipped(node)
    || (node.id in states
        &&
          Desired(r, HostedBy(r, publications, node.id), node, Some(states[node.id].content)) == Some(states[node.id].content))
  }

  lemma RebuiltIsSettled(r: Renderer, publications: map<Id, Material>, node: Node, states: map<Id, State>,
                         updates: map<Id, State>)
    requires QuietPlaceholder(r)
    requires Rebuilt(r, HostedBy(r, publications, node.id), node, states, updates)
    ensures SettledNode(r, publications, node, states + updates)
  {
    DesiredIsStable(r, HostedBy(r, publications, node.id), node, PreviousContent(states, node.id));
  }

  // A settled node is rebuilt without an update.
  lemma SettledIsNotUpdated(r: Renderer, publications: map<Id, Material>, node: Node, states: map<Id, State>,
                            updates: map<Id, State>)
    requires SettledNode(r, publications, node, states) && !Skipped(node)
    requires Rebuilt(r, HostedBy(r, publications, node.id), node, states, updates)
    ensures node.id !in updates
  {
  }

  // ---------- lists that grow at the end ----------

  lemma {:induction false} HostedAppend(r: Renderer, materials: seq<Material>, m: Material, n: Id)
    ensures Hosted(r, materials + [m], n) == Hosted(r, materials, n) + Hosted(r, [m], n)
  {
    if materials == [] {
      assert [] + [m] == [m];
    } else {
      assert (materials + [m])[1..] == materials[1..] + [m];
      HostedAppend(r, materials[1..], m, n);
    }
  }

  // The rendered publications of one node.
  function OnNode(rendered: seq<Rendered>, n: Id): seq<Rendered> {
    if rendered == [] then []
    else
      var k := |rendered| - 1;
      OnNode(rendered[..k], n) + if n in rendered[k].site.nodes then [rendered[k]] else []
  }

  predicate Touches(m: Material, affected: set<Id>) {
    m.site.nodes * affected != {}
  }

  // Every publication on one of these nodes can be decrypted.
  ghost predicate AllDecrypt(r: Renderer, materials: seq<Material>, affected: set<Id>) {
    forall m :: m in materials && Touches(m, affected) ==> Decrypted(r, m).Some?
  }

  lemma {:induction false} MaterialsMembers(publications: map<Id, Material>, ids: seq<Id>, m: Material)
    requires forall i :: i in ids ==> i in publications
    ensures m in Materials(publications, ids) <==> exists i :: i in ids && publications[i] == m && !m.site.deleting
  {
    if ids != [] {
      MaterialsMembers(publications, ids[1..], m);
      assert ids == [ids[0]] + ids[1..];
    }
  }

  // A version rises by one exactly when the content changes.
  ghost predicate VersionsFollow(before: map<Id, State>, after: map<Id, State>) {
    && (forall n :: n in before ==> n in after)
    && (forall n :: n in before && after[n] != before[n] ==>
          after[n].version == before[n].version + 1 && after[n].content != before[n].content)
    && (forall n :: n in after && n !in before ==> after[n].version == 1)
  }

  // What renderNodeStateUpdates promises: every affected node is rebuilt, and
  // there are no other updates.
  ghost predicate AllRebuilt(r: Renderer, publications: map<Id, Material>, nodes: seq<Node>, affected: set<Id>,
                             states: map<Id, State>, updates: map<Id, State>)
  {
    && (forall node :: node in nodes && node.id in affected && !Skipped(node) ==>
          Rebuilt(r, HostedBy(r, publications, node.id), node, states, updates))
    && (forall n :: n in updates ==> n in affected && exists node :: node in nodes && node.id == n && !Skipped(node))
  }

  lemma RebuildVersions(r: Renderer, publications: map<Id, Material>, nodes: seq<Node>, affected: set<Id>,
                        states: map<Id, State>, updates: map<Id, State>)
    requires AllRebuilt(r, publications, nodes, affected, states, updates)
    ensures VersionsFollow(states, states + updates)
  {
    forall n | n in updates
      ensures updates[n].version == NextVersion(states, n)
      ensures n in states ==> updates[n].content != states[n].content
    {
      var node :| node in nodes && node.id == n && !Skipped(node);
      assert Rebuilt(r, HostedBy(r, publications, node.id), node, states, updates);
    }
  }

  // Rebuilding settles the affected nodes and leaves the others as they are.
  lemma RebuildSettles(r: Renderer, publications: map<Id, Material>, nodes: seq<Node>, affected: set<Id>,
                       states: map<Id, State>, updates: map<Id, State>, node: Node)
    requires QuietPlaceholder(r) && node in nodes
    requires AllRebuilt(r, publications, nodes, affected, states, updates)
    requires node.id in affected || SettledNode(r, publications, node, states)
    ensures SettledNode(r, publications, node, states + updates)
  {
    if Skipped(node) {
    } else if node.id in affected {
      RebuiltIsSettled(r, publications, node, states, updates);
    } else {
      assert node.id !in updates;
    }
  }

  // The snapshots in the order of their ids.
  function Listed(publications: map<Id, Material>): seq<Material> {
    AscendingMembers(publications.Keys);
    Materials(publications, Ascending(publications.Keys))
  }

  lemma ListedMembers(publications: map<Id, Material>, m: Material)
    ensures m in Listed(publications) <==> exists i :: i in publications && publications[i] == m && !m.site.deleting
  {
    AscendingMembers(publications.Keys);
    MaterialsMembers(publications, Ascending(publications.Keys), m);
  }

  function Ids(nodes: seq<Node>): set<Id> {
    set n | n in nodes :: n.id
  }

  // Every site with a deployment from before snapshots has a snapshot now.
  predicate MigrationSafe(legacy: set<Id>, publications: map<Id, Material>, excluded: set<Id>) {
    legacy - excluded <= publications.Keys
  }

  ghost predicate AllSettled(r: Renderer, nodes: seq<Node>, publications: map<Id, Material>, states: map<Id, State>) {
    forall node :: node in nodes ==> SettledNode(r, publications, node, states)
  }

  // What every publication keeps: nothing that could be rebuilt would change.
  ghost predicate Settled(r: Renderer, nodes: seq<Node>, legacy: set<Id>, publications: map<Id, Material>,
                          states: map<Id, State>)
  {
    && MigrationSafe(legacy, publications, {})
    && AllDecrypt(r, Listed(publications), Ids(nodes))
    && AllSettled(r, nodes, publications, states)
  }

  // Rebuilding settled nodes gives no update at all.
  lemma SettledMeansNoUpdates(r: Renderer, publications: map<Id, Material>, nodes: seq<Node>, affected: set<Id>,
                              states: map<Id, State>, updates: map<Id, State>)
    requires AllRebuilt(r, publications, nodes, affected, states, updates)
    requires AllSettled(r, nodes, publications, states)
    ensures updates == map[]
  {
    forall node | node in nodes && node.id in affected && !Skipped(node)
      ensures node.id !in updates
    {
      SettledIsNotUpdated(r, publications, node, states, updates);
    }
  }

  // Rebuilding from the published snapshots.
  lemma RebuildInPlace(r: Renderer, publications: map<Id, Material>, nodes: seq<Node>, affected: set<Id>,
                       states: map<Id, State>, updates: map<Id, State>)
    requires QuietPlaceholder(r) && AllRebuilt(r, publications, nodes, affected, states, updates)
    ensures VersionsFollow(states, states + updates)
    ensures forall node :: node in nodes && node.id in affected ==> SettledNode(r, publications, node, states + updates)
    ensures Ids(nodes) <= affected ==> AllSettled(r, nodes, publications, states + updates)
    ensures AllSettled(r, nodes, publications, states) ==> states + updates == states
  {
    RebuildVersions(r, publications, nodes, affected, states, updates);
    forall node | node in nodes && node.id in affected
      ensures SettledNode(r, publications, node, states + updates)
    {
      RebuildSettles(r, publications, nodes, affected, states, updates, node);
    }
    if AllSettled(r, nodes, publications, states) {
      SettledMeansNoUpdates(r, publications, nodes, affected, states, updates);
    }
  }

  // The snapshot that a publication of this draft would be.
  function DraftMaterial(drafts: map<Id, Site>, certificates: map<Id, string>, siteID: Id): Material
    requires siteID in drafts
  {
    Material(drafts[siteID], if siteID in certificates then certificates[siteID] else "")
  }

  // The nodes that publishing or removing a site rebuilds: those of its
  // published and of its new version, or all of them for a site that was
  // deployed before snapshots were kept.
  function Affected(draft: Site, publications: map<Id, Material>, legacy: set<Id>, nodes: seq<Node>): set<Id> {
    draft.nodes
    + (if draft.id in publications then publications[draft.id].site.nodes else {})
    + (if draft.id in legacy - publications.Keys then Ids(nodes) else {})
  }

  ghost predicate IsUpdated(nodes: seq<Node>, affected: set<Id>, n: nat, id: Id)
    requires n <= |nodes|
  {
    id in affected && exists j :: 0 <= j < n && nodes[j].id == id && !Skipped(nodes[j])
  }

  ghost predicate AreRebuilt(r: Renderer, materials: seq<Material>, nodes: seq<Node>, affected: set<Id>,
                             states: map<Id, State>, updates: map<Id, State>, n: nat)
    requires n <= |nodes|
  {
    forall j :: 0 <= j < n ==> IsRebuilt(r, materials, nodes[j], affected, states, updates)
  }

  ghost predicate IsRebuilt(r: Renderer, materials: seq<Material>, node: Node, affected: set<Id>,
                            states: map<Id, State>, updates: map<Id, State>)
  {
    node.id in affected && !Skipped(node) ==> Rebuilt(r, Hosted(r, materials, node.id), node, states, updates)
  }

  ghost predicate AllUpdated(nodes: seq<Node>, affected: set<Id>, updates: map<Id, State>, n: nat)
    requires n <= |nodes|
  {
    forall id :: id in updates ==> IsUpdated(nodes, affected, n, id)
  }

  // The updates of the first `n` nodes, of those that are affected.
  ghost predicate AreUpdates(r: Renderer, materials: seq<Material>, nodes: seq<Node>, affected: set<Id>,
                             states: map<Id, State>, updates: map<Id, State>, n: nat)
  {
    && n <= |nodes| && AreRebuilt(r, materials, nodes, affected, states, updates, n)
    && AllUpdated(nodes, affected, updates, n)
  }

  predicate DistinctNodes(nodes: seq<Node>) {
    forall i, j :: 0 <= i < j < |nodes| ==> nodes[i].id != nodes[j].id
  }

  lemma NotUpdatedYet(nodes: seq<Node>, affected: set<Id>, updates: map<Id, State>, n: nat)
    requires DistinctNodes(nodes) && n < |nodes| && AllUpdated(nodes, affected, updates, n)
    ensures nodes[n].id !in updates
  {
    assert !IsUpdated(nodes, affected, n, nodes[n].id);
  }

  // At most this node has a new update.
  ghost predicate ChangesOnly(node: Node, affected: set<Id>, updates: map<Id, State>, updates': map<Id, State>) {
    || updates' == updates
    || (node.id in affected && !Skipped(node) && node.id in updates' && updates' == updates[node.id := updates'[node.id]])
  }

  lemma UpdatesOneMore(r: Renderer, materials: seq<Material>, nodes: seq<Node>, affected: set<Id>,
                       states: map<Id, State>, updates: map<Id, State>, updates': map<Id, State>, n: nat)
    requires DistinctNodes(nodes) && n < |nodes| && AreUpdates(r, materials, nodes, affected, states, updates, n)
    requires IsRebuilt(r, materials, nodes[n], affected, states, updates')
    requires ChangesOnly(nodes[n], affected, updates, updates')
    ensures AreUpdates(r, materials, nodes, affected, states, updates', n + 1)
  {
    UpdatedOneMore(nodes, affected, updates, updates', n);
    forall j | 0 <= j < n
      ensures IsRebuilt(r, materials, nodes[j], affected, states, updates')
    {
      assert nodes[j].id != nodes[n].id;
      RebuiltStays(r, materials, nodes[j], affected, states, updates, updates');
    }
  }

  lemma UpdatedOneMore(nodes: seq<Node>, affected: set<Id>, updates: map<Id, State>, updates': map<Id, State>, n: nat)
    requires n < |nodes| && AllUpdated(nodes, affected, updates, n)
    requires ChangesOnly(nodes[n], affected, updates, updates')
    ensures AllUpdated(nodes, affected, updates', n + 1)
  {
    forall id | id in updates'
      ensures IsUpdated(nodes, affected, n + 1, id)
    {
      assert id in updates ==> IsUpdated(nodes, affected, n, id);
    }
  }

  // An update of another node is none of this one.
  lemma RebuiltStays(r: Renderer, materials: seq<Material>, node: Node, affected: set<Id>, states: map<Id, State>,
                     updates: map<Id, State>, updates': map<Id, State>)
    requires IsRebuilt(r, materials, node, affected, states, updates)
    requires node.id in updates <==> node.id in updates'
    requires node.id in updates ==> updates'[node.id] == updates[node.id]
    ensures IsRebuilt(r, materials, node, affected, states, updates')
  {
  }

  class SitePublisher {
    const r: Renderer
    const nodes: seq<Node>
    var drafts: map<Id, Site>
    var certificates: map<Id, string>
    var publications: map<Id, Material>
    var states: map<Id, State>
    // Sites that were deployed before snapshots were kept.
    var legacy: set<Id>
    // How many store operations have failed.
    ghost var faults: nat

    ghost predicate Valid()
      reads this
    {
      && QuietPlaceholder(r)
      && DistinctNodes(nodes)
      && (forall i :: i in publications ==> publications[i].site.id == i)
      && (forall i :: i in drafts ==> drafts[i].id == i)
    }

    method StoreOperation() returns (ok: bool)
      modifies this`faults
      ensures faults == old(faults) + Failures(ok)
    {
      ok := *;
      if !ok {
        faults := faults + 1;
      }
    }

    // decryptPublicationMaterials
    method DecryptMaterials(materials: seq<Material>, affected: set<Id>) returns (ok: bool, rendered: seq<Rendered>)
      ensures ok <==> AllDecrypt(r, materials, affected)
      ensures ok ==> forall n :: n in affected ==> OnNode(rendered, n) == Hosted(r, materials, n)
    {
      rendered := [];
      for i := 0 to |materials|
        invariant AllDecrypt(r, materials[..i], affected)
        invariant forall n :: n in affected ==> OnNode(rendered, n) == Hosted(r, materials[..i], n)
      {
        var m := materials[i];
        ghost var before := rendered;
        assert m in materials;
        assert materials[..i + 1] == materials[..i] + [m];
        if Touches(m, affected) {
          var d := Decrypted(r, m);
          if d.None? {
            return false, [];
          }
          rendered := rendered + [d.value];
          assert rendered[..|rendered| - 1] == before;
        }
        forall n | n in affected
          ensures OnNode(rendered, n) == Hosted(r, materials[..i + 1], n)
        {
          HostedAppend(r, materials[..i], m, n);
          if n in m.site.nodes {
            assert n in m.site.nodes * affected;
          } else {
            assert Hosted(r, [m], n) == [];
          }
        }
      }
      assert materials[..|materials|] == materials;
      return true, rendered;
    }

    // renderNodeStateUpdates
    method RenderUpdates(materials: seq<Material>, affected: set<Id>) returns (ok: bool, updates: map<Id, State>)
      requires Valid()
      modifies this`faults
      ensures ok ==> AllDecrypt(r, materials, affected)
      ensures ok ==> forall node :: node in nodes && node.id in affected && !Skipped(node) ==>
        Rebuilt(r, Hosted(r, materials, node.id), node, states, updates)
      ensures ok ==>
        forall n :: n in updates ==> n in affected && exists node :: node in nodes && node.id == n && !Skipped(node)
      ensures faults >= old(faults)
      ensures !ok && faults == old(faults) ==>
        || !AllDecrypt(r, materials, affected)
        || exists node :: node in nodes && node.id in affected && !Skipped(node)
                          && Desired(r, Hosted(r, materials, node.id), node, PreviousContent(states, node.id)).None?
    {
      updates := map[];
      var stored := StoreOperation();
      if !stored {
        return false, map[];
      }
      var rendered;
      ok, rendered := DecryptMaterials(materials, affected);
      if !ok {
        return;
      }
      for i := 0 to |nodes|
        invariant AreUpdates(r, materials, nodes, affected, states, updates, i)
        invariant faults >= old(faults) && ok
      {
        ok, updates := RenderNode(i, rendered, materials, affected, updates);
        if !ok {
          assert nodes[i] in nodes;
          return false, map[];
        }
      }
    }

    // The update of one node, if it is affected and its content changes.
    method RenderNode(i: nat, rendered: seq<Rendered>, ghost materials: seq<Material>, affected: set<Id>,
                      updates: map<Id, State>)
      returns (ok: bool, updates': map<Id, State>)
      requires Valid() && i < |nodes| && AreUpdates(r, materials, nodes, affected, states, updates, i)
      requires forall n :: n in affected ==> OnNode(rendered, n) == Hosted(r, materials, n)
      modifies this`faults
      ensures faults >= old(faults)
      ensures ok ==> AreUpdates(r, materials, nodes, affected, states, updates', i + 1)
      ensures !ok && faults == old(faults) ==>
        && nodes[i].id in affected && !Skipped(nodes[i])
        && Desired(r, Hosted(r, materials, nodes[i].id), nodes[i], PreviousContent(states, nodes[i].id)).None?
    {
      var node := nodes[i];
      ok, updates' := true, updates;
      if node.id in affected && !Skipped(node) {
        var stored := StoreOperation();
        if !stored {
          return false, updates;
        }
        var desired := Desired(r, OnNode(rendered, node.id), node, PreviousContent(states, node.id));
        if desired.None? {
          return false, updates;
        }
        NotUpdatedYet(nodes, affected, updates, i);
        if PreviousContent(states, node.id) != desired {
          updates' := updates[node.id := State(NextVersion(states, node.id), desired.value)];
        }
      }
      UpdatesOneMore(r, materials, nodes, affected, states, updates, updates', i);
    }

    // One rebuild, ready to be saved.
    method Rebuild(snapshot: map<Id, Material>, affected: set<Id>) returns (ok: bool, updates: map<Id, State>)
      requires Valid()
      modifies this`faults
      ensures ok ==> AllRebuilt(r, snapshot, nodes, affected, states, updates)
      ensures ok ==> AllDecrypt(r, Listed(snapshot), affected)
      ensures faults >= old(faults)
      ensures !ok && Settled(r, nodes, legacy, publications, states) && snapshot == publications && affected <= Ids(nodes) ==>
        faults > old(faults)
    {
      ok, updates := RenderUpdates(Listed(snapshot), affected);
    }

    method PublishAll() returns (ok: bool)
      requires Valid()
      modifies this`states, this`faults
      ensures ok ==> Settled(r, nodes, legacy, publications, states)
      ensures !ok ==> states == old(states)
      ensures VersionsFollow(old(states), states)
      ensures Settled(r, nodes, legacy, old(publications), old(states)) ==>
        states == old(states) && (ok || faults > old(faults))
    {
      if !MigrationSafe(legacy, publications, {}) {
        return false;
      }
      var updates;
      ok, updates := Rebuild(publications, Ids(nodes));
      if !ok {
        return;
      }
      ok := StoreOperation();
      if !ok {
        return;
      }
      RebuildInPlace(r, publications, nodes, Ids(nodes), states, updates);
      states := states + updates;
    }

    method PublishNode(n: Id) returns (ok: bool)
      requires Valid()
      modifies this`states, this`faults
      ensures !ok ==> states == old(states)
      ensures VersionsFollow(old(states), states)
      ensures forall i :: i != n ==> (i in states <==> i in old(states)) && (i in states ==> states[i] == old(states)[i])
      ensures ok ==> forall node :: node in nodes && node.id == n ==> SettledNode(r, publications, node, states)
      ensures Settled(r, nodes, legacy, old(publications), old(states)) ==> states == old(states)
    {
      if !MigrationSafe(legacy, publications, {}) {
        return false;
      }
      var updates;
      ok, updates := Rebuild(publications, {n});
      if !ok {
        return;
      }
      ok := StoreOperation();
      if !ok {
        return;
      }
      RebuildInPlace(r, publications, nodes, {n}, states, updates);
      states := states + updates;
    }

    // prepareNodeStates for a publication.
    method PrepareSite(siteID: Id) returns (ok: bool, updates: map<Id, State>)
      requires Valid()
      modifies this`faults
      ensures ok ==> siteID in drafts && !drafts[siteID].deleting && MigrationSafe(legacy, publications, {siteID})
      ensures ok ==>
        AllRebuilt(r, publications[siteID := DraftMaterial(drafts, certificates, siteID)], nodes,
                   Affected(drafts[siteID], publications, legacy, nodes), states, updates)
      ensures ok ==>
        AllDecrypt(r, Listed(publications[siteID := DraftMaterial(drafts, certificates, siteID)]),
                   Affected(drafts[siteID], publications, legacy, nodes))
    {
      ok, updates := false, map[];
      if siteID !in drafts || drafts[siteID].deleting || !MigrationSafe(legacy, publications, {siteID}) {
        return;
      }
      if siteID !in certificates && drafts[siteID].enabled && NeedsCertificate(drafts[siteID]) {
        return;
      }
      ok, updates := Rebuild(publications[siteID := DraftMaterial(drafts, certificates, siteID)],
                             Affected(drafts[siteID], publications, legacy, nodes));
    }

    method PublishSite(siteID: Id) returns (ok: bool)
      requires Valid()
      modifies this`states, this`publications, this`faults
      ensures Valid()
      ensures !ok ==> states == old(states) && publications == old(publications)
      ensures ok ==> siteID in drafts && !drafts[siteID].deleting
      ensures ok ==> publications == old(publications)[siteID := DraftMaterial(drafts, certificates, siteID)]
      ensures VersionsFollow(old(states), states)
      ensures ok && (siteID in legacy - old(publications).Keys || Settled(r, nodes, legacy, old(publications), old(states))) ==>
        Settled(r, nodes, legacy, publications, states)
    {
      var updates;
      ok, updates := PrepareSite(siteID);
      if !ok {
        return;
      }
      ok := StoreOperation();
      if !ok {
        return;
      }
      var m := DraftMaterial(drafts, certificates, siteID);
      PublishedSettles(r, publications, nodes, legacy, Affected(drafts[siteID], publications, legacy, nodes),
                       states, updates, m);
      // One transaction: the snapshot together with the node states.
      publications, states := publications[siteID := m], states + updates;
    }

    // Part of a deletion: the nodes lose the site while its snapshot stays.
    method StageSiteRemoval(siteID: Id) returns (ok: bool)
      requires Valid()
      modifies this`states, this`faults
      ensures !ok ==> states == old(states)
      ensures VersionsFollow(old(states), states)
      ensures ok ==> siteID in drafts
      ensures ok && Settled(r, nodes, legacy, old(publications), old(states)) ==>
        AllSettled(r, nodes, publications - {siteID}, states)
    {
      if siteID !in drafts || !MigrationSafe(legacy, publications, {}) {
        return false;
      }
      var affected, snapshot := Affected(drafts[siteID], publications, legacy, nodes), publications - {siteID};
      var updates;
      ok, updates := Rebuild(snapshot, affected);
      if !ok {
        return;
      }
      ok := StoreOperation();
      if !ok {
        return;
      }
      RebuildVersions(r, snapshot, nodes, affected, states, updates);
      if Settled(r, nodes, legacy, publications, states) {
        forall node | node in nodes
          ensures SettledNode(r, snapshot, node, states + updates)
        {
          if node.id !in affected {
            RemovalKeepsOthers(r, publications, siteID, node.id);
          }
          RebuildSettles(r, snapshot, nodes, affected, states, updates, node);
        }
      }
      states := states + updates;
    }
  }

  lemma RemovalKeepsOthers(r: Renderer, publications: map<Id, Material>, siteID: Id, n: Id)
    requires siteID in publications ==> n !in publications[siteID].site.nodes
    ensures HostedBy(r, publications - {siteID}, n) == HostedBy(r, publications, n)
  {
    var after := publications - {siteID};
    var hosts := Hosts(publications, publications.Keys, n);
    OnlyHostedMatter(r, publications, publications.Keys, n);
    OnlyHostedMatter(r, after, after.Keys, n);
    assert Hosts(after, after.Keys, n) == hosts;
    SameHosted(r, publications, after, hosts, n);
  }

  // Publishing one site settles everything that was settled before, and
  // everything for a site without a snapshot.
  lemma PublishedSettles(r: Renderer, publications: map<Id, Material>, nodes: seq<Node>, legacy: set<Id>,
                         affected: set<Id>,
                         states: map<Id, State>, updates: map<Id, State>, m: Material)
    requires QuietPlaceholder(r)
    requires AllRebuilt(r, publications[m.site.id := m], nodes, affected, states, updates)
    requires AllDecrypt(r, Listed(publications[m.site.id := m]), affected)
    requires MigrationSafe(legacy, publications, {m.site.id}) && m.site.nodes <= affected
    requires m.site.id in publications ==> publications[m.site.id].site.nodes <= affected
    requires m.site.id in legacy - publications.Keys ==> Ids(nodes) <= affected
    ensures VersionsFollow(states, states + updates)
    ensures Settled(r, nodes, legacy, publications, states) || m.site.id in legacy - publications.Keys ==>
      Settled(r, nodes, legacy, publications[m.site.id := m], states + updates)
  {
    var after := publications[m.site.id := m];
    RebuildVersions(r, after, nodes, affected, states, updates);
    if Settled(r, nodes, legacy, publications, states) || m.site.id in legacy - publications.Keys {
      forall node | node in nodes
        ensures SettledNode(r, after, node, states + updates)
      {
        if node.id !in affected {
          OtherNodesKeepTheirSites(r, publications, m, node.id);
        }
        RebuildSettles(r, after, nodes, affected, states, updates, node);
      }
      StillDecrypts(r, publications, Ids(nodes), affected, m);
    }
  }

  lemma StillDecrypts(r: Renderer, publications: map<Id, Material>, all: set<Id>, affected: set<Id>, m: Material)
    requires AllDecrypt(r, Listed(publications[m.site.id := m]), affected) && m.site.nodes <= affected
    requires all <= affected || AllDecrypt(r, Listed(publications), all)
    ensures AllDecrypt(r, Listed(publications[m.site.id := m]), all)
  {
    var after := publications[m.site.id := m];
    forall x | x in Listed(after) && Touches(x, all)
      ensures Decrypted(r, x).Some?
    {
      ListedMembers(after, x);
      ListedMembers(publications, x);
      if x == m {
        assert x.site.nodes * affected == x.site.nodes;
        assert Touches(x, affected);
      } else if all <= affected {
        assert x.site.nodes * all <= x.site.nodes * affected;
        assert Touches(x, affected);
      }
    }
  }

  // ---------- whole runs ----------

  datatype Operation = EditDraft(draft: Site, certificate: string) | One(site: Id) | OneNode(node: Id) | All

  // After a first full publication, any sequence of publications, with drafts
  // edited in between and failures anywhere, leaves node states that another
  // full publication does not change; it only fails if the store does.
  method Run(p: SitePublisher, operations: seq<Operation>)
    returns (ok: bool, again: bool, ghost reached: map<Id, State>, ghost faults: nat)
    requires p.Valid()
    modifies p
    ensures ok ==> p.Valid() && Settled(p.r, p.nodes, p.legacy, p.publications, p.states)
    ensures ok ==> p.states == reached && (again || p.faults > faults)
  {
    again := false;
    ok := p.PublishAll();
    reached, faults := p.states, p.faults;
    if !ok {
      return;
    }
    for i := 0 to |operations|
      invariant ok && p.Valid() && Settled(p.r, p.nodes, p.legacy, p.publications, p.states)
    {
      match operations[i] {
        case EditDraft(draft, certificate) =>
          p.drafts := p.drafts[draft.id := draft];
          p.certificates := p.certificates[draft.id := certificate];
        case One(site) =>
          var published := p.PublishSite(site);
        case OneNode(node) =>
          var published := p.PublishNode(node);
        case All =>
          var published := p.PublishAll();
      }
    }
    reached, faults := p.states, p.faults;
    again := p.PublishAll();
  }
}

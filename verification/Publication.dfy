// Publishing sites to edge nodes: only the nodes of a site are rebuilt, and
// every other site is taken from its published snapshot.
module Publication {
  import opened NodeStatuses
  import opened Options

  // Identifiers are compared for equality and order only.
  type Id = nat

  datatype Forward = Forward(listenPort: int, listenTLS: bool, upstream: string)

  datatype Site = Site(id: Id, nodes: set<Id>, enabled: bool, tcpOnly: bool, deleting: bool,
                       forwards: seq<Forward>, settings: string)

  // A site with the certificate and key that were current when it was taken.
  datatype Material = Material(site: Site, certificate: string)

  datatype Node = Node(id: Id, status: Status, tcpStream: bool, settings: string)

  datatype Rendered = Rendered(site: Site, bundle: Option<string>)

  // The content of a desired state. States from before the field was
  // introduced have no public ports.
  datatype Content = Content(http: string, stream: string, capacity: string, fragments: string,
                             ports: Option<set<int>>, cacheBytes: int, certificates: map<Id, string>)

  datatype State = State(version: nat, content: Content)

  // The renderers and checks, with policies, settings and the time fixed.
  // None is an error.
  datatype Renderer = Renderer(
    http: (seq<Site>, Node) -> Option<string>,
    stream: seq<Site> -> Option<string>,
    fragments: (string, string) -> Option<string>,
    capacity: Node -> Option<string>,
    cacheBytes: Node -> Option<int>,
    decrypt: Material -> Option<string>,
    listensPublicly: string -> bool)

  // ---------- what is rendered for a node ----------

  predicate NeedsCertificate(s: Site) {
    !s.tcpOnly || exists f :: f in s.forwards && f.listenTLS
  }

  predicate Skipped(n: Node) {
    IsRetired(n.status)
  }

  function Ports(sites: seq<Site>): set<int> {
    if sites == [] then {}
    else
      var s := sites[0];
      Ports(sites[1..]) + if !s.enabled then {} else
        (if s.tcpOnly then {} else {80, 443}) + (set f | f in s.forwards :: f.listenPort)
  }

  predicate Dedicated(sites: seq<Site>) {
    exists s :: s in sites && s.tcpOnly
  }

  // A node without anything to listen on still answers health checks on port
  // 80, unless it is dedicated to TCP.
  function RequiredPublicPorts(sites: seq<Site>): set<int> {
    if Ports(sites) == {} && !Dedicated(sites) then {80} else Ports(sites)
  }

  predicate RequiresTCPStream(sites: seq<Site>) {
    exists s :: s in sites && (s.tcpOnly || (s.enabled && s.forwards != []))
  }

  predicate IsTCPOnlyState(r: Renderer, c: Content) {
    && c.ports.Some? && c.stream != "" && !r.listensPublicly(c.http)
    && 80 !in c.ports.value && 443 !in c.ports.value
  }

  const TCP_PLACEHOLDER := Site(0, {}, false, true, false, [], "")

  function Sites(list: seq<Rendered>): (sites: seq<Site>)
    ensures |sites| == |list|
  {
    if list == [] then [] else [list[0].site] + Sites(list[1..])
  }

  function Certificates(list: seq<Rendered>): map<Id, string> {
    if list == [] then map[]
    else
      var n := |list| - 1;
      if list[n].bundle.Some? then Certificates(list[..n])[list[n].site.id := list[n].bundle.value]
      else Certificates(list[..n])
  }

  // The content for a node that hosts these sites, in order.
  function Desired(r: Renderer, hosted: seq<Rendered>, node: Node, previous: Option<Content>): Option<Content> {
    if hosted == [] && previous.Some? && IsTCPOnlyState(r, previous.value) then
      ContentFor(r, [TCP_PLACEHOLDER], hosted, node)
    else ContentFor(r, Sites(hosted), hosted, node)
  }

  function ContentFor(r: Renderer, sites: seq<Site>, hosted: seq<Rendered>, node: Node): Option<Content> {
    if RequiresTCPStream(sites) && !node.tcpStream then None
    else
      var cacheBytes, http, stream, capacity := r.cacheBytes(node), r.http(sites, node), r.stream(sites), r.capacity(node);
      if cacheBytes.None? || http.None? || stream.None? || capacity.None? then None
      else
        var fragments := r.fragments(http.value, stream.value);
        if fragments.None? then None
        else Some(Content(http.value, stream.value, capacity.value, fragments.value,
                          Some(RequiredPublicPorts(sites)), cacheBytes.value, Certificates(hosted)))
  }

  // What is rendered for the TCP-only placeholder alone does not listen on the
  // public HTTP ports, and its stream part is not empty.
  predicate IsQuiet(r: Renderer, node: Node) {
    var c := ContentFor(r, [TCP_PLACEHOLDER], [], node);
    c.Some? ==> c.value.stream != "" && !r.listensPublicly(c.value.http)
  }

  ghost predicate QuietPlaceholder(r: Renderer) {
    forall n :: IsQuiet(r, n)
  }

  // Rendering again on top of what was just rendered changes nothing.
  predicate IsStable(r: Renderer, hosted: seq<Rendered>, node: Node, previous: Option<Content>) {
    var c := Desired(r, hosted, node, previous);
    c.Some? ==> Desired(r, hosted, node, c) == c
  }

  lemma PlaceholderHasNoPorts()
    ensures RequiredPublicPorts([TCP_PLACEHOLDER]) == {} && RequiredPublicPorts([]) == {80}
  {
    assert Ports([TCP_PLACEHOLDER]) == {};
    assert TCP_PLACEHOLDER in [TCP_PLACEHOLDER];
  }

  // Although the previous content decides about the placeholder.
  lemma DesiredIsStable(r: Renderer, hosted: seq<Rendered>, node: Node, previous: Option<Content>)
    requires IsQuiet(r, node)
    ensures IsStable(r, hosted, node, previous)
  {
    PlaceholderHasNoPorts();
    assert Sites([]) == [];
  }

  ghost predicate AlwaysStable(r: Renderer, node: Node) {
    forall hosted, previous :: IsStable(r, hosted, node, previous)
  }

  // And it does so only on that condition, if any text at all, like the empty
  // one, does not listen publicly.
  lemma AlwaysStableIff(r: Renderer, node: Node, silent: string)
    requires !r.listensPublicly(silent)
    ensures AlwaysStable(r, node) <==> IsQuiet(r, node)
  {
    if IsQuiet(r, node) {
      forall hosted, previous
        ensures IsStable(r, hosted, node, previous)
      {
        DesiredIsStable(r, hosted, node, previous);
      }
    } else {
      PlaceholderHasNoPorts();
      assert Sites([]) == [];
      var previous := Some(Content(silent, "stream", "", "", Some({}), 0, map[]));
      assert !IsStable(r, [], node, previous);
    }
  }

  // ---------- which publications a node hosts ----------

  lemma HasMinimum(s: set<Id>) returns (m: Id)
    requires s != {}
    ensures m in s && forall i :: i in s ==> m <= i
    decreases s
  {
    var x :| x in s;
    var rest := s - {x};
    m := x;
    if rest != {} {
      var least := HasMinimum(rest);
      m := if x < least then x else least;
    }
    assert forall i :: i in s ==> i == x || i in rest;
  }

  function Min(s: set<Id>): (m: Id)
    requires s != {}
    ensures m in s && forall i :: i in s ==> m <= i
  {
    assert exists m :: m in s && forall i :: i in s ==> m <= i by {
      var m := HasMinimum(s);
    }
    var m :| m in s && forall i :: i in s ==> m <= i;
    m
  }

  // ORDER BY id
  function Ascending(s: set<Id>): seq<Id>
    decreases s
  {
    if s == {} then [] else [Min(s)] + Ascending(s - {Min(s)})
  }

  // publicationMaterials, in the given order.
  function Materials(publications: map<Id, Material>, ids: seq<Id>): seq<Material>
    requires forall i :: i in ids ==> i in publications
  {
    if ids == [] then []
    else (if publications[ids[0]].site.deleting then [] else [publications[ids[0]]]) + Materials(publications, ids[1..])
  }

  // What decryptPublicationMaterials makes of one material. None is an error.
  function Decrypted(r: Renderer, m: Material): Option<Rendered> {
    if !m.site.enabled || !NeedsCertificate(m.site) then Some(Rendered(m.site, None))
    else if m.certificate == "" || r.decrypt(m).None? then None
    else Some(Rendered(m.site, r.decrypt(m)))
  }

  function Hosted(r: Renderer, materials: seq<Material>, n: Id): seq<Rendered> {
    if materials == [] then []
    else
      var rest := Hosted(r, materials[1..], n);
      if n in materials[0].site.nodes && Decrypted(r, materials[0]).Some? then [Decrypted(r, materials[0]).value] + rest
      else rest
  }

  lemma AscendingMembers(s: set<Id>)
    ensures forall i :: i in Ascending(s) <==> i in s
    decreases s
  {
    if s != {} {
      AscendingMembers(s - {Min(s)});
    }
  }

  predicate IsHost(publications: map<Id, Material>, n: Id, i: Id) {
    i in publications && !publications[i].site.deleting && n in publications[i].site.nodes
  }

  lemma HostedStep(r: Renderer, publications: map<Id, Material>, m: Id, rest: seq<Id>, n: Id)
    requires m in publications && forall i :: i in rest ==> i in publications
    ensures Hosted(r, Materials(publications, [m] + rest), n) ==
      (if IsHost(publications, n, m) then Hosted(r, [publications[m]], n) else []) +
      Hosted(r, Materials(publications, rest), n)
  {
    assert ([m] + rest)[1..] == rest;
    var tail := Materials(publications, rest);
    if publications[m].site.deleting {
      assert Materials(publications, [m] + rest) == tail;
    } else {
      assert Materials(publications, [m] + rest) == [publications[m]] + tail;
      assert ([publications[m]] + tail)[1..] == tail;
    }
  }

  ghost function Hosts(publications: map<Id, Material>, ids: set<Id>, n: Id): set<Id> {
    set i | i in ids && IsHost(publications, n, i)
  }

  lemma AscendingCons(s: set<Id>, m: Id)
    requires m in s && forall i :: i in s ==> m <= i
    ensures Ascending(s) == [m] + Ascending(s - {m})
  {
    assert Min(s) == m;
  }

  ghost function HostedOf(r: Renderer, publications: map<Id, Material>, ids: set<Id>, n: Id): seq<Rendered>
    requires ids <= publications.Keys
  {
    AscendingMembers(ids);
    Hosted(r, Materials(publications, Ascending(ids)), n)
  }

  lemma HostedOfCons(r: Renderer, publications: map<Id, Material>, ids: set<Id>, m: Id, n: Id)
    requires ids <= publications.Keys && m in ids && forall i :: i in ids ==> m <= i
    ensures HostedOf(r, publications, ids, n) ==
      (if IsHost(publications, n, m) then Hosted(r, [publications[m]], n) else []) +
      HostedOf(r, publications, ids - {m}, n)
  {
    AscendingCons(ids, m);
    AscendingMembers(ids - {m});
    HostedStep(r, publications, m, Ascending(ids - {m}), n);
  }

  // Only the publications that a node hosts matter to it.
  lemma {:induction false} OnlyHostedMatter(r: Renderer, publications: map<Id, Material>, ids: set<Id>, n: Id)
    requires ids <= publications.Keys
    ensures HostedOf(r, publications, ids, n) == HostedOf(r, publications, Hosts(publications, ids, n), n)
    decreases ids
  {
    var hosts := Hosts(publications, ids, n);
    if ids != {} {
      var m := Min(ids);
      var rest := ids - {m};
      var restHosts := Hosts(publications, rest, n);
      HostedOfCons(r, publications, ids, m, n);
      OnlyHostedMatter(r, publications, rest, n);
      if IsHost(publications, n, m) {
        assert hosts - {m} == restHosts;
        HostedOfCons(r, publications, hosts, m, n);
      } else {
        assert hosts == restHosts;
        assert [] + HostedOf(r, publications, rest, n) == HostedOf(r, publications, rest, n);
      }
    } else {
      assert hosts == {};
    }
  }

  // Two snapshots that agree on the sites of a node give it the same sites.
  lemma {:induction false} SameHosted(r: Renderer, a: map<Id, Material>, b: map<Id, Material>, ids: set<Id>, n: Id)
    requires ids <= a.Keys && ids <= b.Keys && forall i :: i in ids ==> a[i] == b[i]
    ensures HostedOf(r, a, ids, n) == HostedOf(r, b, ids, n)
    decreases ids
  {
    if ids != {} {
      var m := Min(ids);
      HostedOfCons(r, a, ids, m, n);
      HostedOfCons(r, b, ids, m, n);
      SameHosted(r, a, b, ids - {m}, n);
    }
  }

  // The sites that a node gets, in publication order.
  ghost function HostedBy(r: Renderer, publications: map<Id, Material>, n: Id): seq<Rendered> {
    HostedOf(r, publications, publications.Keys, n)
  }

  // Publishing a site leaves the nodes alone that neither its old nor its new
  // version is on.
  lemma OtherNodesKeepTheirSites(r: Renderer, publications: map<Id, Material>, m: Material, n: Id)
    requires n !in m.site.nodes
    requires m.site.id in publications ==> n !in publications[m.site.id].site.nodes
    ensures HostedBy(r, publications[m.site.id := m], n) == HostedBy(r, publications, n)
  {
    var after := publications[m.site.id := m];
    var hosts := Hosts(publications, publications.Keys, n);
    OnlyHostedMatter(r, publications, publications.Keys, n);
    OnlyHostedMatter(r, after, after.Keys, n);
    assert Hosts(after, after.Keys, n) == hosts;
    SameHosted(r, publications, after, hosts, n);
  }
}

// The task of deleting a site: which nodes have to confirm that they have
// dropped it, how their answers are judged, and what they are worth.
module DeletionTasks {
  import opened NodeStatuses
  import opened Options

  type SiteId = string

  type NodeId = string

  type Time = int

  // The desired state of a node, as far as sites go.
  datatype Desired = Desired(version: nat, serves: set<SiteId>)

  datatype Node = Node(status: Status, desired: Option<Desired>, applied: nat)

  type Nodes = map<NodeId, Node>

  datatype Phase = WithdrawingDNS | WaitingForEdges | Finalizing

  datatype TaskStatus = Queued | Dispatching | Applying | Succeeded | Failed | Partial

  datatype Answer = Awaited | Confirmed | Refused | TimedOut

  datatype Target = Target(version: nat, answer: Answer)

  type Targets = map<NodeId, Target>

  datatype Task = Task(site: SiteId, status: TaskStatus, deadline: Time, targets: Targets)

  predicate IsActive(status: TaskStatus) {
    status in {Queued, Dispatching, Applying}
  }

  function Rank(phase: Phase): nat {
    match phase
    case WithdrawingDNS => 0
    case WaitingForEdges => 1
    case Finalizing => 2
  }

  // ---------- who is to confirm ----------

  // A node is told to drop a site if it was told to serve it, or nothing yet.
  predicate Changes(n: Node, site: SiteId) {
    !IsRetired(n.status) && (n.desired.None? || site in n.desired.value.serves)
  }

  function Without(n: Node, site: SiteId): Desired {
    if n.desired.None? then Desired(1, {}) else Desired(n.desired.value.version + 1, n.desired.value.serves - {site})
  }

  function Told(n: Node, site: SiteId): Node {
    if Changes(n, site) then n.(desired := Some(Without(n, site))) else n
  }

  function NodesWithout(nodes: Nodes, site: SiteId, affected: set<NodeId>): Nodes {
    map n | n in nodes :: if n in affected then Told(nodes[n], site) else nodes[n]
  }

  predicate IsTarget(nodes: Nodes, site: SiteId, affected: set<NodeId>, n: NodeId) {
    n in nodes && n in affected && nodes[n].status == Active && Changes(nodes[n], site)
  }

  function TargetsOf(nodes: Nodes, site: SiteId, affected: set<NodeId>): Targets {
    map n | n in nodes && IsTarget(nodes, site, affected, n) :: Target(Without(nodes[n], site).version, Awaited)
  }

  // A deletion that is tried again after nodes have failed to confirm waits
  // for none of them, whatever they have applied.
  lemma RetryWaitsForNobody(nodes: Nodes, site: SiteId, affected: set<NodeId>)
    ensures TargetsOf(NodesWithout(nodes, site, affected), site, affected) == map[]
  {
    var told := NodesWithout(nodes, site, affected);
    forall n
      ensures !IsTarget(told, site, affected, n)
    {
      if n in nodes && n in affected {
        assert told[n] == Told(nodes[n], site);
      }
    }
  }

  predicate AllConfirmed(targets: Targets) {
    forall n :: n in targets ==> targets[n].answer == Confirmed
  }

  predicate SomeIs(targets: Targets, answer: Answer) {
    exists n :: n in targets && targets[n].answer == answer
  }

  function ConfirmOne(target: Target, applied: nat): Target {
    if target.answer == Awaited && applied >= target.version then target.(answer := Confirmed) else target
  }

  // Nodes that have applied the version have confirmed it.
  function Confirm(targets: Targets, nodes: Nodes): Targets {
    map n | n in targets :: if n in nodes then ConfirmOne(targets[n], nodes[n].applied) else targets[n]
  }

  function TimeOut(targets: Targets): Targets {
    map n | n in targets :: if targets[n].answer == Awaited then targets[n].(answer := TimedOut) else targets[n]
  }

  // ---------- a task on its way ----------

  datatype Work = Work(phase: Phase, task: Task)

  // The answers are counted: the awaited ones may still come, or a missing one
  // has come to nothing, or the nodes are done.
  function Judged(w: Work, nodes: Nodes, now: Time): Work {
    var targets := Confirm(w.task.targets, nodes);
    var final := TimeOut(targets);
    if SomeIs(targets, Awaited) && now < w.task.deadline then
      w.(task := w.task.(targets := targets))
    else if SomeIs(final, Refused) || SomeIs(final, TimedOut) then
      w.(task := w.task.(targets := final, status := if SomeIs(final, Confirmed) then Partial else Failed))
    else
      Work(Finalizing, w.task.(targets := targets, status := Applying))
  }

  function Staged(w: Work, nodes: Nodes, affected: set<NodeId>): Work {
    Work(WaitingForEdges, w.task.(targets := TargetsOf(nodes, w.task.site, affected), status := Applying))
  }

  // Where a task gets to in one call, if nothing fails; from the last phase it
  // goes on to the end of the site.
  function Ahead(w: Work, nodes: Nodes, affected: set<NodeId>, now: Time): Work {
    match w.phase
    case WithdrawingDNS => Judged(Staged(w, nodes, affected), nodes, now)
    case WaitingForEdges => Judged(w, nodes, now)
    case Finalizing => w
  }

  // The nodes that a task waits for, or will.
  function TargetsAt(w: Work, nodes: Nodes, affected: set<NodeId>): Targets {
    if w.phase == WithdrawingDNS then TargetsOf(nodes, w.task.site, affected) else w.task.targets
  }

  lemma JudgedIsOver(w: Work, nodes: Nodes, now: Time)
    requires w.phase == WaitingForEdges
    ensures Judged(w, nodes, now).phase == Finalizing <==> AllConfirmed(Confirm(w.task.targets, nodes))
    ensures Judged(w, nodes, now).phase == Finalizing ==>
      Judged(w, nodes, now).task.targets == Confirm(w.task.targets, nodes)
    ensures Judged(w, nodes, now).phase in {WaitingForEdges, Finalizing}
  {
    var targets := Confirm(w.task.targets, nodes);
    var final := TimeOut(targets);
    if AllConfirmed(targets) {
      assert final == targets;
    } else {
      var n :| n in targets && targets[n].answer != Confirmed;
      assert n in final && final[n].answer in {Refused, TimedOut};
    }
  }

  // Without failures the site goes in a call exactly when all the nodes that
  // its task waits for have confirmed or applied the removal.
  lemma GoneIffConfirmed(w: Work, nodes: Nodes, affected: set<NodeId>, now: Time)
    requires w.phase == Finalizing ==> AllConfirmed(w.task.targets)
    ensures Ahead(w, nodes, affected, now).phase == Finalizing <==>
      AllConfirmed(Confirm(TargetsAt(w, nodes, affected), nodes))
  {
    match w.phase
    case WithdrawingDNS => JudgedIsOver(Staged(w, nodes, affected), nodes, now);
    case WaitingForEdges => JudgedIsOver(w, nodes, now);
    case Finalizing =>
  }

  // ---------- what confirmation is worth ----------

  // An active node of the site has applied the state that it was told last.
  predicate HasDropped(told: Nodes, applied: map<NodeId, nat>, n: NodeId)
    requires n in told
  {
    n in applied && (told[n].desired.Some? ==> applied[n] >= told[n].desired.value.version)
  }

  ghost predicate AllHaveDropped(nodes: Nodes, site: SiteId, affected: set<NodeId>, applied: map<NodeId, nat>) {
    forall n :: n in nodes && n in affected && nodes[n].status == Active ==>
      HasDropped(NodesWithout(nodes, site, affected), applied, n)
  }

  // An active node that is not told to serve the site any more.
  predicate Lacks(n: Node, site: SiteId) {
    n.status == Active && n.desired.Some? && site !in n.desired.value.serves
  }

  // No active node lags behind a state that lacks the site already.
  predicate NoneLags(nodes: Nodes, site: SiteId, affected: set<NodeId>) {
    forall n :: n in nodes && n in affected && Lacks(nodes[n], site) ==> nodes[n].applied >= nodes[n].desired.value.version
  }

  // What the nodes may have applied by the end: no less than at the start,
  // and the targets of the deletion.
  ghost predicate IsLater(nodes: Nodes, targets: Targets, applied: map<NodeId, nat>) {
    && (forall n :: n in nodes ==> n in applied && applied[n] >= nodes[n].applied)
    && (forall n :: n in targets ==> n in applied && applied[n] >= targets[n].version)
  }

  // The confirmation of the targets means that every active node of the site
  // has applied its removal if and only if, when the nodes were told, none
  // lagged behind a state without the site.
  lemma DroppedIffNoneLags(nodes: Nodes, site: SiteId, affected: set<NodeId>)
    ensures (forall applied :: IsLater(nodes, TargetsOf(nodes, site, affected), applied) ==>
               AllHaveDropped(nodes, site, affected, applied))
            <==> NoneLags(nodes, site, affected)
  {
    var targets := TargetsOf(nodes, site, affected);
    if NoneLags(nodes, site, affected) {
      forall applied | IsLater(nodes, targets, applied)
        ensures AllHaveDropped(nodes, site, affected, applied)
      {
        ConfirmedHaveDropped(nodes, site, affected, applied);
      }
    } else {
      var applied := LeastLater(nodes, site, affected);
    }
  }

  lemma ConfirmedHaveDropped(nodes: Nodes, site: SiteId, affected: set<NodeId>, applied: map<NodeId, nat>)
    requires NoneLags(nodes, site, affected) && IsLater(nodes, TargetsOf(nodes, site, affected), applied)
    ensures AllHaveDropped(nodes, site, affected, applied)
  {
    forall n | n in nodes && n in affected && nodes[n].status == Active
      ensures HasDropped(NodesWithout(nodes, site, affected), applied, n)
    {
      assert NodesWithout(nodes, site, affected)[n] == Told(nodes[n], site);
      if Changes(nodes[n], site) {
        assert IsTarget(nodes, site, affected, n);
        assert n in TargetsOf(nodes, site, affected);
      }
    }
  }

  // Only the targets apply anything: then a node that lags goes on lagging.
  lemma LeastLater(nodes: Nodes, site: SiteId, affected: set<NodeId>) returns (applied: map<NodeId, nat>)
    requires !NoneLags(nodes, site, affected)
    ensures IsLater(nodes, TargetsOf(nodes, site, affected), applied)
    ensures !AllHaveDropped(nodes, site, affected, applied)
  {
    var targets := TargetsOf(nodes, site, affected);
    applied := map n | n in nodes ::
      if n in targets && targets[n].version > nodes[n].applied then targets[n].version else nodes[n].applied;
    var n :| n in nodes && n in affected && Lacks(nodes[n], site) && nodes[n].applied < nodes[n].desired.value.version;
    assert !IsTarget(nodes, site, affected, n) && n !in targets;
    assert NodesWithout(nodes, site, affected)[n] == Told(nodes[n], site);
    assert !HasDropped(NodesWithout(nodes, site, affected), applied, n);
  }
}

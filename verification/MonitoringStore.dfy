// The monitoring state of the nodes in the store, against the history of
// rounds, changes of targets and manual changes of status.
module MonitoringStore {
  import opened Options
  import opened Monitoring
  import opened NodeStatuses

  datatype Node = Node(status: Status, autoPaused: bool)

  datatype Monitored = Monitored(consecutive: nat, lastChecked: Time)

  // A reset comes with every change of the targets; the flag tells that none
  // is enabled any more.
  datatype Event =
    | Round(node: NodeId, abnormal: bool, time: Time)
    | Reset(noTargets: bool)
    | SetStatus(node: NodeId, status: Status)

  // ---------- what the history says of one node ----------

  // Abnormal rounds since the last healthy one, reset, or status set by hand,
  // and the last time that was reported since the last reset.
  function Since(log: seq<Event>, node: NodeId): Option<Monitored> {
    if log == [] then None
    else
      var before := Since(log[..|log| - 1], node);
      match log[|log| - 1]
      case Round(n, abnormal, time) =>
        if n != node then before
        else Some(Monitored(if !abnormal then 0 else if before == None then 1 else before.value.consecutive + 1, time))
      case Reset(_) => None
      case SetStatus(n, _) => if n == node && before.Some? then Some(before.value.(consecutive := 0)) else before
  }

  function Streak(log: seq<Event>, node: NodeId): nat {
    match Since(log, node) case None => 0 case Some(m) => m.consecutive
  }

  // Every report is newer than the one before it, up to a reset.
  predicate TimesIncrease(log: seq<Event>, node: NodeId) {
    log != [] ==>
      && TimesIncrease(log[..|log| - 1], node)
      && match log[|log| - 1]
         case Round(n, _, time) =>
           n == node && Since(log[..|log| - 1], node).Some? ==> time > Since(log[..|log| - 1], node).value.lastChecked
         case _ => true
  }

  // The status that was last set by hand.
  function ManualStatus(log: seq<Event>, node: NodeId, initial: Status): Status {
    if log == [] then initial
    else match log[|log| - 1]
         case SetStatus(n, status) => if n == node then status else ManualStatus(log[..|log| - 1], node, initial)
         case _ => ManualStatus(log[..|log| - 1], node, initial)
  }

  // An event that ends an automatic pause.
  predicate Ends(e: Event, node: NodeId) {
    match e
    case Round(n, abnormal, _) => n == node && !abnormal
    case Reset(noTargets) => noTargets
    case SetStatus(n, _) => n == node
  }

  predicate Pauses(log: seq<Event>, node: NodeId) {
    log != [] && log[|log| - 1].Round? && log[|log| - 1].node == node && Streak(log, node) >= AUTO_PAUSE_AFTER
  }

  // Some abnormal round was the fourth or a later one of its streak, and
  // nothing has ended the pause since.
  ghost predicate PausedAt(log: seq<Event>, node: NodeId, k: nat) {
    k <= |log| && Pauses(log[..k], node) && forall i :: k <= i < |log| ==> !Ends(log[i], node)
  }

  ghost predicate IsPaused(log: seq<Event>, node: NodeId) {
    exists k: nat :: PausedAt(log, node, k)
  }

  // What that comes to when one more event happens.
  lemma PausedNext(log: seq<Event>, e: Event, node: NodeId)
    ensures IsPaused(log + [e], node) <==> Pauses(log + [e], node) || (IsPaused(log, node) && !Ends(e, node))
  {
    var next := log + [e];
    if IsPaused(log, node) && !Ends(e, node) {
      var k: nat :| PausedAt(log, node, k);
      assert next[..k] == log[..k];
      assert PausedAt(next, node, k);
    }
    if Pauses(next, node) {
      assert next[..|next|] == next;
      assert PausedAt(next, node, |next|);
    }
    if IsPaused(next, node) && !Pauses(next, node) {
      var k: nat :| PausedAt(next, node, k);
      assert next[..|next|] == next;
      assert k <= |log|;
      assert next[..k] == log[..k];
      assert !Ends(next[|log|], node);
      assert forall i :: k <= i < |log| ==> log[i] == next[i];
      assert PausedAt(log, node, k);
    }
  }

  // An event that ends a streak.
  predicate Breaks(e: Event, node: NodeId) {
    e.Reset? || Ends(e, node)
  }

  // A streak of n is n abnormal rounds of the node since the last event that
  // has ended one.
  lemma {:induction false} StreakIsAbnormal(log: seq<Event>, node: NodeId) returns (from: nat)
    ensures from <= |log| && Count(log, node, from) == Streak(log, node)
    ensures forall i :: from <= i < |log| ==> !Breaks(log[i], node)
    ensures from > 0 ==> Breaks(log[from - 1], node)
  {
    from := 0;
    if log != [] {
      var init, last := log[..|log| - 1], log[|log| - 1];
      if Breaks(last, node) {
        from := |log|;
      } else {
        from := StreakIsAbnormal(init, node);
        assert forall i :: from <= i < |log| - 1 ==> init[i] == log[i];
      }
    }
  }

  // The abnormal rounds of the node from one place on.
  function Count(log: seq<Event>, node: NodeId, from: nat): nat
    requires from <= |log|
  {
    if from == |log| then 0
    else
      Count(log[..|log| - 1], node, from)
      + if log[|log| - 1].Round? && log[|log| - 1].node == node && log[|log| - 1].abnormal then 1 else 0
  }

  // ---------- the store ----------

  // The state of a node that its history calls for.
  ghost predicate Follows(log: seq<Event>, node: NodeId, initial: Status, n: Node, monitored: map<NodeId, Monitored>) {
    && n.autoPaused == (IsPaused(log, node) && ManualStatus(log, node, initial) == Active)
    && n.status == (if n.autoPaused then Draining else ManualStatus(log, node, initial))
    && Since(log, node) == (if node in monitored then Some(monitored[node]) else None)
    && TimesIncrease(log, node)
  }

  function AfterRound(n: Node, consecutive: nat): Node {
    if consecutive >= AUTO_PAUSE_AFTER && n.status == Active then Node(Draining, true)
    else if consecutive == 0 && n.autoPaused && n.status == Draining then Node(Active, false)
    else n
  }

  // A round moves its own node on and no other.
  lemma RoundFollows(log: seq<Event>, node: NodeId, initial: Status, n: Node, monitored: map<NodeId, Monitored>,
                     abnormal: bool, time: Time)
    requires Follows(log, node, initial, n, monitored)
    requires node in monitored ==> time > monitored[node].lastChecked
    ensures var consecutive := if !abnormal then 0 else if node in monitored then monitored[node].consecutive + 1 else 1;
            Follows(log + [Round(node, abnormal, time)], node, initial, AfterRound(n, consecutive),
                    monitored[node := Monitored(consecutive, time)])
  {
    var e := Round(node, abnormal, time);
    PausedNext(log, e, node);
    assert (log + [e])[..|log|] == log;
    assert ManualStatus(log + [e], node, initial) == ManualStatus(log, node, initial);
  }

  lemma OtherFollows(log: seq<Event>, node: NodeId, initial: Status, n: Node, monitored: map<NodeId, Monitored>,
                     e: Event, m: Monitored)
    requires Follows(log, node, initial, n, monitored)
    requires e.Round? && e.node != node
    ensures Follows(log + [e], node, initial, n, monitored[e.node := m])
  {
    PausedNext(log, e, node);
    assert (log + [e])[..|log|] == log;
  }

  ghost predicate AllFollow(log: seq<Event>, nodes: map<NodeId, Node>, initial: map<NodeId, Status>,
                            monitored: map<NodeId, Monitored>)
  {
    nodes.Keys == initial.Keys && forall node :: node in nodes ==> Follows(log, node, initial[node], nodes[node], monitored)
  }

  lemma RoundKeepsAll(log: seq<Event>, nodes: map<NodeId, Node>, initial: map<NodeId, Status>, monitored: map<NodeId,
                      Monitored>,
                      node: NodeId, abnormal: bool, time: Time, consecutive: nat)
    requires AllFollow(log, nodes, initial, monitored) && node in nodes
    requires node in monitored ==> time > monitored[node].lastChecked
    requires consecutive == if !abnormal then 0 else if node in monitored then monitored[node].consecutive + 1 else 1
    ensures AllFollow(log + [Round(node, abnormal, time)], nodes[node := AfterRound(nodes[node], consecutive)], initial,
                      monitored[node := Monitored(consecutive, time)])
  {
    var e := Round(node, abnormal, time);
    RoundFollows(log, node, initial[node], nodes[node], monitored, abnormal, time);
    forall other | other in nodes && other != node
      ensures Follows(log + [e], other, initial[other], nodes[other], monitored[node := Monitored(consecutive, time)])
    {
      OtherFollows(log, other, initial[other], nodes[other], monitored, e, Monitored(consecutive, time));
    }
  }

  function Resumed(n: Node): Node {
    if n.autoPaused then Node(if n.status == Draining then Active else n.status, false) else n
  }

  lemma ResetFollows(log: seq<Event>, node: NodeId, initial: Status, n: Node, monitored: map<NodeId, Monitored>,
                     noTargets: bool)
    requires Follows(log, node, initial, n, monitored)
    ensures Follows(log + [Reset(noTargets)], node, initial, if noTargets then Resumed(n) else n, map[])
  {
    var e := Reset(noTargets);
    PausedNext(log, e, node);
    assert (log + [e])[..|log|] == log;
    assert ManualStatus(log + [e], node, initial) == ManualStatus(log, node, initial);
  }

  // Nodes that are being uninstalled, or were, keep their status.
  predicate MaySet(n: Node, status: Status, uninstalling: bool) {
    && status in {Pending, Active, Draining, Revoked}
    && n.status !in {Uninstalling, Uninstalled}
    && (uninstalling ==> status in {n.status, Revoked})
  }

  function Unbroken(monitored: map<NodeId, Monitored>, node: NodeId): map<NodeId, Monitored> {
    if node in monitored then monitored[node := monitored[node].(consecutive := 0)] else monitored
  }

  // A status set by hand moves its own node on and no other.
  lemma StatusFollows(log: seq<Event>, n: NodeId, initial: Status, was: Node, monitored: map<NodeId, Monitored>,
                      node: NodeId, status: Status)
    requires Follows(log, n, initial, was, monitored)
    ensures Follows(log + [SetStatus(node, status)], n, initial, if n == node then Node(status, false) else was,
                    Unbroken(monitored, node))
  {
    var e := SetStatus(node, status);
    PausedNext(log, e, n);
    assert (log + [e])[..|log|] == log;
  }

  lemma StatusKeepsAll(log: seq<Event>, nodes: map<NodeId, Node>, initial: map<NodeId, Status>,
                       monitored: map<NodeId, Monitored>, node: NodeId, status: Status)
    requires AllFollow(log, nodes, initial, monitored) && node in nodes
    ensures AllFollow(log + [SetStatus(node, status)], nodes[node := Node(status, false)], initial,
                      Unbroken(monitored, node))
  {
    var after := nodes[node := Node(status, false)];
    forall n | n in after
      ensures Follows(log + [SetStatus(node, status)], n, initial[n], after[n], Unbroken(monitored, node))
    {
      StatusFollows(log, n, initial[n], nodes[n], monitored, node, status);
    }
  }

  function ResumedAll(nodes: map<NodeId, Node>, none: bool): map<NodeId, Node> {
    if none then map n | n in nodes :: Resumed(nodes[n]) else nodes
  }

  lemma ResetKeepsAll(log: seq<Event>, nodes: map<NodeId, Node>, initial: map<NodeId, Status>,
                      monitored: map<NodeId, Monitored>, none: bool)
    requires AllFollow(log, nodes, initial, monitored)
    ensures AllFollow(log + [Reset(none)], ResumedAll(nodes, none), initial, map[])
  {
    var after := ResumedAll(nodes, none);
    forall n | n in after
      ensures Follows(log + [Reset(none)], n, initial[n], after[n], map[])
    {
      ResetFollows(log, n, initial[n], nodes[n], monitored, none);
    }
  }

  class Store {
    var nodes: map<NodeId, Node>
    var monitored: map<NodeId, Monitored>
    var targets: set<Target>
    ghost var log: seq<Event>
    ghost const initial: map<NodeId, Status>
    // How many operations of the database have failed.
    ghost var faults: nat

    method Attempt() returns (ok: bool)
      modifies this`faults
      ensures faults == old(faults) + Failures(ok)
    {
      ok := *;
      if !ok {
        faults := faults + 1;
      }
    }

    ghost predicate Valid()
      reads this
    {
      AllFollow(log, nodes, initial, monitored)
    }

    constructor (statuses: map<NodeId, Status>, targets: set<Target>)
      ensures Valid() && log == [] && initial == statuses
    {
      nodes := map node | node in statuses :: Node(statuses[node], false);
      monitored, log, initial, this.targets := map[], [], statuses, targets;
    }

    // The nodes by other means: setting a status takes any pause and streak
    // with it. `uninstalling` tells that an uninstall job of the node is active.
    method SetNodeStatus(node: NodeId, status: Status, uninstalling: bool) returns (ok: bool)
      requires Valid()
      modifies this`nodes, this`monitored, this`log, this`faults
      ensures Valid()
      ensures ok ==> node in old(nodes) && MaySet(old(nodes)[node], status, uninstalling)
      ensures node in old(nodes) && MaySet(old(nodes)[node], status, uninstalling) ==>
        faults == old(faults) + Failures(ok)
      ensures log == if ok then old(log) + [SetStatus(node, status)] else old(log)
      ensures nodes == if ok then old(nodes)[node := Node(status, false)] else old(nodes)
      ensures monitored == if ok then Unbroken(old(monitored), node) else old(monitored)
    {
      if node !in nodes || !MaySet(nodes[node], status, uninstalling) {
        return false;
      }
      ok := Attempt();
      if !ok {
        return;
      }
      StatusKeepsAll(log, nodes, initial, monitored, node, status);
      nodes, monitored := nodes[node := Node(status, false)], Unbroken(monitored, node);
      log := log + [SetStatus(node, status)];
    }

    // Creating, changing or deleting a target resets all monitoring.
    method ChangeTargets(enabled: set<Target>) returns (ok: bool)
      requires Valid()
      modifies this
      ensures Valid()
      ensures faults == old(faults) + Failures(ok)
      ensures log == if ok then old(log) + [Reset(enabled == {})] else old(log)
      ensures ok ==> targets == enabled && monitored == map[]
      ensures !ok ==> targets == old(targets) && monitored == old(monitored)
      ensures enabled != {} || !ok ==> nodes == old(nodes)
    {
      ok := Attempt();
      if !ok {
        return;
      }
      ResetKeepsAll(log, nodes, initial, monitored, enabled == {});
      targets, monitored, nodes := enabled, map[], ResumedAll(nodes, enabled == {});
      log := log + [Reset(enabled == {})];
    }

    // A sound report on every enabled target, newer than the last one of the
    // node.
    ghost predicate Accepts(node: NodeId, probes: seq<Probe>)
      reads this
    {
      && AllValid(probes) && targets != {} && AreForTargets(probes, targets) && node in nodes
      && (node in monitored ==> forall time :: IsLatest(time, probes) ==> time > monitored[node].lastChecked)
    }

    // The checks of a report that do not concern its node.
    method CheckReport(probes: seq<Probe>) returns (ok: bool, abnormal: bool, time: Time)
      ensures ok <==> AllValid(probes) && targets != {} && AreForTargets(probes, targets)
      ensures ok ==> abnormal == IsAbnormal(probes) && IsLatest(time, probes)
    {
      var matching := MatchTargets(probes, targets);
      if !AllValid(probes) || targets == {} || !matching {
        return false, false, 0;
      }
      var score;
      score, time := ScoreRound(probes);
      return true, score < HEALTHY_SCORE, time;
    }

    method RecordMonitoringRound(node: NodeId, probes: seq<Probe>) returns (ok: bool)
      requires Valid()
      modifies this`nodes, this`monitored, this`log, this`faults
      ensures Valid()
      ensures ok ==> old(Accepts(node, probes))
      ensures old(Accepts(node, probes)) ==> faults == old(faults) + Failures(ok)
      ensures ok ==> exists time :: IsLatest(time, probes) && log == old(log) + [Round(node, IsAbnormal(probes), time)]
      ensures !ok ==> log == old(log) && nodes == old(nodes) && monitored == old(monitored)
      ensures forall n :: n in nodes && n != node ==> nodes[n] == old(nodes)[n]
    {
      var abnormal, time;
      ok, abnormal, time := CheckReport(probes);
      if !ok || node !in nodes {
        return false;
      }
      var prior := if node in monitored then monitored[node].consecutive else 0;
      if node in monitored && time <= monitored[node].lastChecked {
        return false;
      }
      var consecutive := if abnormal then prior + 1 else 0;
      var n := AfterRound(nodes[node], consecutive);
      ok := Attempt();
      if !ok {
        return;
      }
      ghost var e := Round(node, abnormal, time);
      RoundKeepsAll(log, nodes, initial, monitored, node, abnormal, time, consecutive);
      nodes, monitored, log := nodes[node := n], monitored[node := Monitored(consecutive, time)], log + [e];
    }
  }

  // One probe for every enabled target and none for any other.
  ghost predicate AreForTargets(probes: seq<Probe>, targets: set<Target>) {
    && (forall t :: t in targets <==> exists p :: p in probes && p.target == t)
    && forall i, j :: 0 <= i < j < |probes| ==> probes[i].target != probes[j].target
  }

  method MatchTargets(probes: seq<Probe>, targets: set<Target>) returns (ok: bool)
    ensures ok <==> AreForTargets(probes, targets)
  {
    var seen: set<Target> := {};
    for i := 0 to |probes|
      invariant forall t :: t in seen <==> exists j :: 0 <= j < i && probes[j].target == t
      invariant seen <= targets
      invariant forall j, k :: 0 <= j < k < i ==> probes[j].target != probes[k].target
    {
      if probes[i].target !in targets || probes[i].target in seen {
        return false;
      }
      seen := seen + {probes[i].target};
    }
    ok := seen == targets;
  }
}

// Deleting a site: its DNS records are withdrawn, the edge nodes drop it, and
// once they have confirmed that, its certificates and the site itself go. The
// phases are kept in the store, so that any later call can go on.
module SiteDeletion {
  import opened DeletionTasks
  import opened NodeStatuses
  import opened Options

  // ---------- the store and what has happened outside of it ----------

  type TaskId = nat

  // `nodes` are those of the draft and of the publication.
  datatype Site = Site(enabled: bool, deleting: bool, nodes: set<NodeId>)

  datatype Job = Job(task: TaskId, phase: Phase)

  datatype Db = Db(sites: map<SiteId, Site>, nodes: Nodes, jobs: map<SiteId, Job>, tasks: map<TaskId, Task>, next: TaskId)

  datatype Staging = Staging(nodes: Nodes, affected: set<NodeId>)

  // The tasks in whose course the DNS was withdrawn or the certificates were
  // deleted, the nodes as a task found them when it told them, the task that
  // removed a site, and the greatest version that a node has said to have
  // applied.
  datatype Log = Log(withdrawn: set<TaskId>, cleaned: set<TaskId>, staged: map<TaskId, Staging>,
                     removed: map<SiteId, TaskId>, proven: map<NodeId, nat>)

  predicate IsProven(log: Log, n: NodeId, version: nat) {
    n in log.proven && log.proven[n] >= version
  }

  predicate AnswersAreTrue(targets: Targets, log: Log) {
    forall n :: n in targets && targets[n].answer == Confirmed ==> IsProven(log, n, targets[n].version)
  }

  // The targets are the active nodes that were told.
  predicate AreTargetsOf(targets: Targets, site: SiteId, s: Staging) {
    && targets.Keys == TargetsOf(s.nodes, site, s.affected).Keys
    && forall n :: n in targets ==> targets[n].version == TargetsOf(s.nodes, site, s.affected)[n].version
  }

  predicate IsTold(t: TaskId, task: Task, log: Log) {
    t in log.withdrawn && t in log.staged && AreTargetsOf(task.targets, task.site, log.staged[t])
  }

  predicate WorkOk(t: TaskId, w: Work, log: Log) {
    && (w.phase == WithdrawingDNS ==> w.task.targets == map[])
    && (w.phase != WithdrawingDNS ==> IsTold(t, w.task, log))
    && (w.phase == Finalizing ==> AllConfirmed(w.task.targets))
  }

  // All that has to come before the end of a site.
  predicate IsDone(t: TaskId, task: Task, log: Log) {
    IsTold(t, task, log) && t in log.cleaned && AllConfirmed(task.targets) && task.status == Succeeded
  }

  predicate HasJob(db: Db, t: TaskId) {
    t in db.tasks && db.tasks[t].site in db.jobs && db.jobs[db.tasks[t].site].task == t
  }

  predicate IsBeingDeleted(db: Db, site: SiteId) {
    && site in db.jobs && db.jobs[site].task in db.tasks && IsActive(db.tasks[db.jobs[site].task].status)
  }

  function WorkOf(db: Db, t: TaskId): Work
    requires HasJob(db, t)
  {
    Work(db.jobs[db.tasks[t].site].phase, db.tasks[t])
  }

  predicate IsTask(db: Db, log: Log, t: TaskId)
    requires t in db.tasks
  {
    t < db.next && AnswersAreTrue(db.tasks[t].targets, log) && (IsActive(db.tasks[t].status) ==> HasJob(db, t))
  }

  predicate IsJob(db: Db, log: Log, site: SiteId)
    requires site in db.jobs
  {
    && site in db.sites && db.jobs[site].task in db.tasks && db.tasks[db.jobs[site].task].site == site
    && WorkOk(db.jobs[site].task, WorkOf(db, db.jobs[site].task), log)
  }

  predicate IsRemoved(db: Db, log: Log, site: SiteId)
    requires site in log.removed
  {
    && site !in db.sites && log.removed[site] in db.tasks
    && db.tasks[log.removed[site]].site == site
    && IsDone(log.removed[site], db.tasks[log.removed[site]], log)
  }

  predicate AreProven(nodes: Nodes, log: Log) {
    forall n :: n in nodes ==> IsProven(log, n, nodes[n].applied)
  }

  ghost predicate Valid(db: Db, log: Log) {
    && (forall t :: t in db.tasks ==> IsTask(db, log, t))
    && (forall s :: s in db.jobs ==> IsJob(db, log, s))
    && (forall s :: s in log.removed ==> IsRemoved(db, log, s))
    && (forall t :: t in log.staged ==> AreProven(log.staged[t].nodes, log))
    && AreProven(db.nodes, log)
  }

  // A site whose deletion has begun has its job until it goes, and it goes only
  // as the log says.
  ghost predicate Proceeds(db: Db, log: Log, db': Db, log': Log) {
    && (forall s :: s in db.sites && s !in db'.sites ==> s in log'.removed)
    && (forall s :: s in db.jobs && s in db.sites && s in db'.sites ==> s in db'.jobs)
    && (forall s :: s in log.removed ==> s in log'.removed)
  }

  // Switched off, and not to be changed.
  function Shut(site: Site): Site {
    site.(enabled := false, deleting := true)
  }

  predicate IsShut(db: Db, site: SiteId)
    requires site in db.sites
  {
    !db.sites[site].enabled && db.sites[site].deleting
  }

  // Sites are as they were or get shut.
  ghost predicate KeepsRows(db: Db, db': Db) {
    forall s :: s in db.sites && s in db'.sites ==> db'.sites[s] == db.sites[s] || db'.sites[s] == Shut(db.sites[s])
  }

  ghost predicate Follows(db: Db, log: Log, db': Db, log': Log) {
    Proceeds(db, log, db', log') && KeepsRows(db, db')
  }

  // What is done for one site is nothing to the others.
  ghost predicate OthersStay(db: Db, db': Db, site: SiteId) {
    && (forall s :: s != site && s in db.jobs ==> s in db'.jobs && db'.jobs[s] == db.jobs[s])
    && (forall t :: t in db.tasks && db.tasks[t].site != site ==> t in db'.tasks && db'.tasks[t] == db.tasks[t])
    && (forall s :: s != site && s in db.sites ==> s in db'.sites && db'.sites[s] == db.sites[s])
  }

  ghost predicate Goes(db: Db, log: Log, db': Db, log': Log, site: SiteId) {
    Valid(db', log') && Follows(db, log, db', log') && OthersStay(db, db', site)
  }

  // Its DNS was withdrawn and its certificates deleted for the task that has
  // ended it, and every active node that was told to drop it has applied that;
  // so has every other active node of it unless one lagged when they were told.
  ghost predicate GoesRightly(log: Log, site: SiteId)
    requires site in log.removed
  {
    var t := log.removed[site];
    && t in log.withdrawn && t in log.cleaned && t in log.staged
    && var s := log.staged[t];
       && IsLater(s.nodes, TargetsOf(s.nodes, site, s.affected), log.proven)
       && (NoneLags(s.nodes, site, s.affected) ==> AllHaveDropped(s.nodes, site, s.affected, log.proven))
  }

  // When a site is gone, all that it takes has come before.
  lemma RemovedHaveDropped(db: Db, log: Log, site: SiteId)
    requires Valid(db, log) && site in log.removed
    ensures GoesRightly(log, site)
  {
    assert IsRemoved(db, log, site);
    var t := log.removed[site];
    var s, task := log.staged[t], db.tasks[t];
    assert IsTask(db, log, t);
    var targets := TargetsOf(s.nodes, site, s.affected);
    forall n | n in targets
      ensures IsProven(log, n, targets[n].version)
    {
      assert n in task.targets && task.targets[n].answer == Confirmed;
    }
    if NoneLags(s.nodes, site, s.affected) {
      ConfirmedHaveDropped(s.nodes, site, s.affected, log.proven);
    }
  }

  // ---------- the transactions ----------

  function Begun(db: Db, site: SiteId, deadline: Time): Db
    requires site in db.sites
  {
    db.(sites := db.sites[site := Shut(db.sites[site])],
        jobs := db.jobs[site := Job(db.next, WithdrawingDNS)],
        tasks := db.tasks[db.next := Task(site, Queued, deadline, map[])],
        next := db.next + 1)
  }

  function Put(db: Db, t: TaskId, w: Work): Db
    requires t in db.tasks
  {
    db.(jobs := db.jobs[db.tasks[t].site := Job(t, w.phase)], tasks := db.tasks[t := w.task])
  }

  function PutStaged(db: Db, t: TaskId): Db
    requires HasJob(db, t) && db.tasks[t].site in db.sites
  {
    var site := db.tasks[t].site;
    var affected := db.sites[site].nodes;
    Put(db, t, Staged(WorkOf(db, t), db.nodes, affected)).(nodes := NodesWithout(db.nodes, site, affected))
  }

  function LogStaged(log: Log, t: TaskId, nodes: Nodes, affected: set<NodeId>): Log {
    log.(staged := log.staged[t := Staging(nodes, affected)])
  }

  function WithoutSite(db: Db, site: SiteId): Db {
    db.(sites := db.sites - {site}, jobs := db.jobs - {site})
  }

  function Completed(db: Db, t: TaskId): Db
    requires HasJob(db, t)
  {
    var w := WorkOf(db, t);
    WithoutSite(Put(db, t, w.(task := w.task.(status := Succeeded))), w.task.site)
  }

  lemma BeginGoes(db: Db, log: Log, site: SiteId, deadline: Time)
    requires Valid(db, log) && site in db.sites
    requires site in db.jobs ==> !IsActive(db.tasks[db.jobs[site].task].status)
    ensures site in db.jobs ==> IsJob(db, log, site)
    ensures Goes(db, log, Begun(db, site, deadline), log, site) && HasJob(Begun(db, site, deadline), db.next)
  {
    assert site in db.jobs ==> IsJob(db, log, site);
    TasksAreThere(db, log, site, deadline);
    JobsAreThere(db, log, site, deadline);
    RemovalsAreThere(db, log, site, deadline);
  }

  lemma RemovalsAreThere(db: Db, log: Log, site: SiteId, deadline: Time)
    requires Valid(db, log) && site in db.sites
    ensures forall s :: s in log.removed ==> IsRemoved(Begun(db, site, deadline), log, s)
  {
    forall s | s in log.removed
      ensures IsRemoved(Begun(db, site, deadline), log, s)
    {
      assert IsRemoved(db, log, s) && IsTask(db, log, log.removed[s]);
    }
  }

  lemma TasksAreThere(db: Db, log: Log, site: SiteId, deadline: Time)
    requires Valid(db, log) && site in db.sites
    requires site in db.jobs ==> IsJob(db, log, site) && !IsActive(db.tasks[db.jobs[site].task].status)
    ensures forall t :: t in Begun(db, site, deadline).tasks ==> IsTask(Begun(db, site, deadline), log, t)
  {
    forall t | t in Begun(db, site, deadline).tasks
      ensures IsTask(Begun(db, site, deadline), log, t)
    {
      if t != db.next {
        assert IsTask(db, log, t);
      }
    }
  }

  lemma JobsAreThere(db: Db, log: Log, site: SiteId, deadline: Time)
    requires Valid(db, log) && site in db.sites
    ensures forall s :: s in Begun(db, site, deadline).jobs ==> IsJob(Begun(db, site, deadline), log, s)
  {
    forall s | s in Begun(db, site, deadline).jobs
      ensures IsJob(Begun(db, site, deadline), log, s)
    {
      if s != site {
        assert IsJob(db, log, s) && IsTask(db, log, db.jobs[s].task);
      }
    }
  }

  lemma PutGoes(db: Db, log: Log, t: TaskId, w: Work)
    requires Valid(db, log) && HasJob(db, t) && w.task.site == db.tasks[t].site
    requires WorkOk(t, w, log) && AnswersAreTrue(w.task.targets, log)
    ensures Goes(db, log, Put(db, t, w), log, w.task.site)
    ensures HasJob(Put(db, t, w), t) && WorkOf(Put(db, t, w), t) == w
  {
    TasksArePut(db, log, t, w);
    JobsArePut(db, log, t, w);
    RemovalsArePut(db, log, t, w);
  }

  lemma TasksArePut(db: Db, log: Log, t: TaskId, w: Work)
    requires Valid(db, log) && HasJob(db, t) && w.task.site == db.tasks[t].site && AnswersAreTrue(w.task.targets, log)
    ensures forall u :: u in Put(db, t, w).tasks ==> IsTask(Put(db, t, w), log, u)
  {
    forall u | u in Put(db, t, w).tasks
      ensures IsTask(Put(db, t, w), log, u)
    {
      assert IsTask(db, log, u);
    }
  }

  lemma JobsArePut(db: Db, log: Log, t: TaskId, w: Work)
    requires Valid(db, log) && HasJob(db, t) && w.task.site == db.tasks[t].site && WorkOk(t, w, log)
    ensures forall s :: s in Put(db, t, w).jobs ==> IsJob(Put(db, t, w), log, s)
  {
    assert IsJob(db, log, w.task.site);
    forall s | s in Put(db, t, w).jobs
      ensures IsJob(Put(db, t, w), log, s)
    {
      assert IsJob(db, log, s);
    }
  }

  lemma RemovalsArePut(db: Db, log: Log, t: TaskId, w: Work)
    requires Valid(db, log) && HasJob(db, t) && w.task.site == db.tasks[t].site
    ensures forall s :: s in log.removed ==> IsRemoved(Put(db, t, w), log, s)
  {
    assert IsJob(db, log, w.task.site);
    forall s | s in log.removed
      ensures IsRemoved(Put(db, t, w), log, s)
    {
      assert IsRemoved(db, log, s);
    }
  }

  lemma StagingGoes(db: Db, log: Log, t: TaskId)
    requires Valid(db, log) && HasJob(db, t) && WorkOf(db, t).phase == WithdrawingDNS && t in log.withdrawn
    ensures db.tasks[t].site in db.sites
    ensures var affected := db.sites[db.tasks[t].site].nodes;
            Goes(db, log, PutStaged(db, t), LogStaged(log, t, db.nodes, affected), db.tasks[t].site)
  {
    var site := db.tasks[t].site;
    assert IsJob(db, log, site);
    var affected := db.sites[site].nodes;
    var log' := LogStaged(log, t, db.nodes, affected);
    StagingIsLogged(db, log, t, affected);
    PutGoes(db, log', t, Staged(WorkOf(db, t), db.nodes, affected));
    NodesGo(Put(db, t, Staged(WorkOf(db, t), db.nodes, affected)), log', NodesWithout(db.nodes, site, affected), site);
  }

  lemma StagingIsLogged(db: Db, log: Log, t: TaskId, affected: set<NodeId>)
    requires Valid(db, log) && HasJob(db, t) && WorkOf(db, t).phase == WithdrawingDNS
    ensures Goes(db, log, db, LogStaged(log, t, db.nodes, affected), db.tasks[t].site)
  {
    var log' := LogStaged(log, t, db.nodes, affected);
    assert IsJob(db, log, db.tasks[t].site);
    forall u | u in db.tasks
      ensures IsTask(db, log', u)
    {
      assert IsTask(db, log, u);
    }
    forall s | s in db.jobs
      ensures IsJob(db, log', s)
    {
      assert IsJob(db, log, s);
    }
    forall s | s in log'.removed
      ensures IsRemoved(db, log', s)
    {
      assert IsRemoved(db, log, s);
    }
  }

  // The log learns more.
  lemma LogGoes(db: Db, log: Log, log': Log, site: SiteId)
    requires Valid(db, log)
    requires log.withdrawn <= log'.withdrawn && log.cleaned <= log'.cleaned && log'.removed == log.removed
    requires forall t :: t in log.staged ==> t in log'.staged && log'.staged[t] == log.staged[t]
    requires forall n :: n in log.proven ==> IsProven(log', n, log.proven[n])
    requires forall t :: t in log'.staged ==> AreProven(log'.staged[t].nodes, log')
    ensures Goes(db, log, db, log', site)
  {
    forall t | t in db.tasks
      ensures IsTask(db, log', t)
    {
      assert IsTask(db, log, t);
    }
    forall s | s in db.jobs
      ensures IsJob(db, log', s)
    {
      assert IsJob(db, log, s);
    }
    forall s | s in log'.removed
      ensures IsRemoved(db, log', s)
    {
      assert IsRemoved(db, log, s);
    }
  }

  lemma NodesGo(db: Db, log: Log, nodes: Nodes, site: SiteId)
    requires Valid(db, log) && AreProven(nodes, log)
    ensures Goes(db, log, db.(nodes := nodes), log, site)
  {
    var db' := db.(nodes := nodes);
    forall t | t in db'.tasks
      ensures IsTask(db', log, t)
    {
      assert IsTask(db, log, t);
    }
    forall s | s in db'.jobs
      ensures IsJob(db', log, s)
    {
      assert IsJob(db, log, s);
    }
    forall s | s in log.removed
      ensures IsRemoved(db', log, s)
    {
      assert IsRemoved(db, log, s);
    }
  }

  function LogRemoved(log: Log, site: SiteId, t: TaskId): Log {
    log.(removed := log.removed[site := t])
  }

  lemma SiteGoes(db: Db, log: Log, site: SiteId)
    requires Valid(db, log) && site in db.jobs && IsJob(db, log, site)
    requires IsDone(db.jobs[site].task, db.tasks[db.jobs[site].task], log)
    ensures Goes(db, log, WithoutSite(db, site), LogRemoved(log, site, db.jobs[site].task), site)
  {
    TasksStay(db, log, site);
    JobsStay(db, log, site);
    RemovalsStay(db, log, site);
  }

  lemma TasksStay(db: Db, log: Log, site: SiteId)
    requires Valid(db, log) && site in db.jobs && IsJob(db, log, site)
    requires !IsActive(db.tasks[db.jobs[site].task].status)
    ensures forall u :: u in db.tasks ==> IsTask(WithoutSite(db, site), LogRemoved(log, site, db.jobs[site].task), u)
  {
    forall u | u in db.tasks
      ensures IsTask(WithoutSite(db, site), LogRemoved(log, site, db.jobs[site].task), u)
    {
      assert IsTask(db, log, u);
    }
  }

  lemma JobsStay(db: Db, log: Log, site: SiteId)
    requires Valid(db, log) && site in db.jobs
    ensures var db', log' := WithoutSite(db, site), LogRemoved(log, site, db.jobs[site].task);
            forall s :: s in db'.jobs ==> IsJob(db', log', s)
  {
    var db', log' := WithoutSite(db, site), LogRemoved(log, site, db.jobs[site].task);
    forall s | s in db'.jobs
      ensures IsJob(db', log', s)
    {
      assert IsJob(db, log, s);
    }
  }

  lemma RemovalsStay(db: Db, log: Log, site: SiteId)
    requires Valid(db, log) && site in db.jobs && IsJob(db, log, site)
    requires IsDone(db.jobs[site].task, db.tasks[db.jobs[site].task], log)
    ensures var log' := LogRemoved(log, site, db.jobs[site].task);
            forall s :: s in log'.removed ==> IsRemoved(WithoutSite(db, site), log', s)
  {
    var log' := LogRemoved(log, site, db.jobs[site].task);
    forall s | s in log'.removed
      ensures IsRemoved(WithoutSite(db, site), log', s)
    {
      if s != site {
        assert IsRemoved(db, log, s);
      }
    }
  }

  lemma CompletionGoes(db: Db, log: Log, t: TaskId)
    requires Valid(db, log) && HasJob(db, t) && WorkOf(db, t).phase == Finalizing && t in log.cleaned
    ensures var site := db.tasks[t].site;
            Goes(db, log, Completed(db, t), LogRemoved(log, site, t), site)
  {
    var w, site := WorkOf(db, t), db.tasks[t].site;
    assert IsJob(db, log, site) && IsTask(db, log, t);
    var done := w.(task := w.task.(status := Succeeded));
    PutGoes(db, log, t, done);
    assert IsJob(Put(db, t, done), log, site);
    SiteGoes(Put(db, t, done), log, site);
    GoesOn(db, log, Put(db, t, done), log, Completed(db, t), LogRemoved(log, site, t), site);
  }

  lemma GoesOn(a: Db, la: Log, b: Db, lb: Log, c: Db, lc: Log, site: SiteId)
    requires Goes(a, la, b, lb, site) && Goes(b, lb, c, lc, site)
    ensures Goes(a, la, c, lc, site)
  {
    FollowsOn(a, la, b, lb, c, lc);
  }

  lemma FollowsOn(a: Db, la: Log, b: Db, lb: Log, c: Db, lc: Log)
    requires Follows(a, la, b, lb) && Follows(b, lb, c, lc) && Valid(c, lc)
    ensures Follows(a, la, c, lc)
  {
    ProceedsOn(a, la, b, lb, c, lc);
  }

  lemma ProceedsOn(a: Db, la: Log, b: Db, lb: Log, c: Db, lc: Log)
    requires Proceeds(a, la, b, lb) && Proceeds(b, lb, c, lc) && Valid(c, lc)
    ensures Proceeds(a, la, c, lc)
    ensures forall s :: s in a.sites && s in c.sites ==> s in b.sites
  {
    forall s | s in a.sites && s in c.sites
      ensures s in b.sites && (s in a.jobs ==> s in c.jobs)
    {
      if s in lc.removed {
        assert IsRemoved(c, lc, s);
      }
    }
  }

  // ---------- drafts that are being saved ----------

  // A save of a draft reads whether the site is being deleted, and writes later.
  type DraftId = nat

  type Drafts = map<DraftId, SiteId>

  predicate IsOpen(drafts: Drafts, d: DraftId, site: SiteId) {
    d in drafts && drafts[d] == site
  }

  ghost predicate NoneWritten(drafts: Drafts, site: SiteId, written: set<DraftId>) {
    forall d :: d in written ==> !IsOpen(drafts, d, site)
  }

  ghost predicate NoneIsNew(drafts: Drafts, drafts': Drafts, site: SiteId) {
    forall d :: IsOpen(drafts', d, site) ==> IsOpen(drafts, d, site)
  }

  lemma KeptStaysShut(db: Db, log: Log, db': Db, log': Log, drafts: Drafts, written: set<DraftId>)
    requires Follows(db, log, db', log')
    ensures AllStayShut(db, drafts, db', drafts, written)
  {
  }

  // What is shut stays so unless a draft is written that was open before.
  ghost predicate StaysShut(db: Db, drafts: Drafts, db': Db, drafts': Drafts, written: set<DraftId>, site: SiteId) {
    site in db.sites && site in db.jobs && IsShut(db, site) && site in db'.sites && NoneWritten(drafts, site, written) ==>
      IsShut(db', site) && NoneIsNew(drafts, drafts', site)
  }

  ghost predicate AllStayShut(db: Db, drafts: Drafts, db': Db, drafts': Drafts, written: set<DraftId>) {
    forall s :: StaysShut(db, drafts, db', drafts', written, s)
  }

  lemma StayShutOn(a: Db, la: Log, open: Drafts, b: Db, lb: Log, open': Drafts, written: set<DraftId>,
                   c: Db, lc: Log, open'': Drafts, written': set<DraftId>)
    requires Proceeds(a, la, b, lb) && Proceeds(b, lb, c, lc) && Valid(c, lc) && written <= written'
    requires AllStayShut(a, open, b, open', written) && AllStayShut(b, open', c, open'', written')
    ensures AllStayShut(a, open, c, open'', written')
  {
    ProceedsOn(a, la, b, lb, c, lc);
    forall s
      ensures StaysShut(a, open, c, open'', written', s)
    {
      assert StaysShut(a, open, b, open', written, s) && StaysShut(b, open', c, open'', written', s);
    }
  }

  // ---------- the calls ----------

  datatype Step = Onward | Stopped | Broken

  datatype Result = Done | Error | NotConverged

  ghost predicate IsStaged(db: Db, db': Db, t: TaskId)
    requires HasJob(db, t)
  {
    var w := WorkOf(db, t);
    && HasJob(db', t) && w.task.site in db.sites
    && WorkOf(db', t) == Staged(w, db.nodes, db.sites[w.task.site].nodes) && db'.sites == db.sites
    && db'.nodes == NodesWithout(db.nodes, w.task.site, db.sites[w.task.site].nodes)
  }

  ghost predicate IsJudged(db: Db, db': Db, t: TaskId, now: Time)
    requires HasJob(db, t)
  {
    var w := WorkOf(db, t);
    && HasJob(db', t) && db'.nodes == db.nodes && db'.sites == db.sites
    && WorkOf(db', t) == if IsActive(w.task.status) then Judged(w, db.nodes, now) else w
  }

  class SiteDeletionManager {
    var db: Db
    ghost var log: Log
    // How many operations have failed.
    ghost var faults: nat
    // The drafts whose save has read the site but not written it yet.
    var drafts: Drafts
    var nextDraft: DraftId
    ghost var written: set<DraftId>

    ghost predicate DraftsOk()
      reads this`drafts, this`nextDraft, this`written
    {
      && (forall d :: d in drafts ==> d < nextDraft && d !in written)
      && (forall d :: d in written ==> d < nextDraft)
    }

    constructor (sites: map<SiteId, Site>, nodes: Nodes)
      ensures Valid(db, log) && db == Db(sites, nodes, map[], map[], 0) && log.removed == map[] && faults == 0
      ensures DraftsOk() && drafts == map[] && nextDraft == 0 && written == {}
    {
      db := Db(sites, nodes, map[], map[], 0);
      drafts, nextDraft, written := map[], 0, {};
      log, faults := Log({}, {}, map[], map[], map n | n in nodes :: nodes[n].applied), 0;
    }

    method Attempt() returns (ok: bool)
      modifies this`faults
      ensures faults == old(faults) + Failures(ok)
    {
      ok := *;
      if !ok {
        faults := faults + 1;
      }
    }

    // A transaction happens as a whole or not at all.
    method Commit(next: Db) returns (ok: bool)
      modifies this`db, this`faults
      ensures faults == old(faults) + Failures(ok)
      ensures db == if ok then next else old(db)
    {
      ok := Attempt();
      if ok {
        db := next;
      }
    }

    // `conflicting` tells that another task of the site is active.
    method BeginSiteDeletion(site: SiteId, deadline: Time, conflicting: bool) returns (task: Option<TaskId>)
      requires Valid(db, log)
      modifies this`db, this`faults
      ensures Goes(old(db), log, db, log, site)
      ensures task.Some? ==> HasJob(db, task.value) && db.tasks[task.value].site == site
      ensures task.Some? ==> IsActive(db.tasks[task.value].status)
      ensures faults >= old(faults)
      ensures site in old(db).sites && (conflicting ==> IsBeingDeleted(old(db), site)) ==>
        faults >= old(faults) + if task.Some? then 0 else 1
      ensures task.Some? ==> site in old(db).sites
      ensures task.Some? && !IsBeingDeleted(old(db), site) ==>
        task.value == old(db).next && db == Begun(old(db), site, deadline)
      ensures task.Some? && IsBeingDeleted(old(db), site) ==> db == old(db)
    {
      var ok := Attempt();
      if !ok || site !in db.sites {
        return None;
      }
      if site in db.jobs {
        assert IsJob(db, log, site);
        if IsActive(db.tasks[db.jobs[site].task].status) {
          return Some(db.jobs[site].task);
        }
      }
      if conflicting {
        return None;
      }
      BeginGoes(db, log, site, deadline);
      var next := db.next;
      ok := Commit(Begun(db, site, deadline));
      return if ok then Some(next) else None;
    }

    // The phase in which the records are withdrawn and the nodes are told.
    method WithdrawAndStage(t: TaskId) returns (ok: bool)
      requires Valid(db, log) && HasJob(db, t) && WorkOf(db, t).phase == WithdrawingDNS
      modifies this`db, this`log, this`faults
      ensures HasJob(db, t) && db.tasks[t].site == old(db).tasks[t].site && Goes(old(db), old(log), db, log, db.tasks[t].site)
      ensures faults >= old(faults) + Failures(ok)
      ensures ok ==> IsStaged(old(db), db, t)
    {
      var site, w := db.tasks[t].site, WorkOf(db, t);
      assert IsJob(db, log, site) && IsTask(db, log, t);
      PutGoes(db, log, t, w.(task := w.task.(status := Dispatching)));
      ok := Commit(Put(db, t, w.(task := w.task.(status := Dispatching))));
      if !ok {
        return;
      }
      ghost var dispatched := db;
      ok := Attempt();
      if !ok {
        return;
      }
      LogGoes(db, log, log.(withdrawn := log.withdrawn + {t}), site);
      GoesOn(old(db), old(log), db, log, db, log.(withdrawn := log.withdrawn + {t}), site);
      log := log.(withdrawn := log.withdrawn + {t});
      ok := Attempt();
      if !ok {
        return;
      }
      StagingGoes(db, log, t);
      GoesOn(old(db), old(log), db, log, PutStaged(db, t), LogStaged(log, t, db.nodes, db.sites[site].nodes), site);
      ok := Commit(PutStaged(db, t));
      if ok {
        log := LogStaged(log, t, dispatched.nodes, dispatched.sites[site].nodes);
      }
    }

    // The answers of the nodes are counted; only active tasks are judged.
    method SiteDeletionReady(t: TaskId, now: Time) returns (ok: bool, ready: bool)
      requires Valid(db, log) && HasJob(db, t) && WorkOf(db, t).phase == WaitingForEdges
      modifies this`db, this`faults
      ensures HasJob(db, t) && db.tasks[t].site == old(db).tasks[t].site && Goes(old(db), log, db, log, db.tasks[t].site)
      ensures faults >= old(faults) + Failures(ok)
      ensures ok ==> IsJudged(old(db), db, t, now)
      ensures ok ==> (ready <==> WorkOf(db, t).phase == Finalizing)
    {
      var w, site := WorkOf(db, t), db.tasks[t].site;
      ready := false;
      ok := Attempt();
      if !ok || !IsActive(w.task.status) {
        return;
      }
      var targets := Confirm(w.task.targets, db.nodes);
      var confirmed := w.(task := w.task.(targets := targets));
      var judged := Judged(w, db.nodes, now);
      ghost var start := db;
      JudgingGoes(db, log, t, now);
      PutSame(db, t);
      ok := PutWork(t, confirmed, start, w);
      if !ok {
        return;
      }
      ok := Attempt();
      if !ok || (SomeIs(targets, Awaited) && now < w.task.deadline) {
        return;
      }
      ghost var current := confirmed;
      if SomeIs(targets, Awaited) {
        ok := PutWork(t, w.(task := w.task.(targets := TimeOut(targets))), start, confirmed);
        if !ok {
          return;
        }
        current := w.(task := w.task.(targets := TimeOut(targets)));
      } else {
        NoneTimesOut(targets);
      }
      ok := PutWork(t, judged, start, current);
      ready := ok && judged.phase == Finalizing;
    }

    // A task moves on, seen from its start.
    method PutWork(t: TaskId, w: Work, ghost start: Db, ghost current: Work) returns (ok: bool)
      requires HasJob(start, t) && current.task.site == start.tasks[t].site && db == Put(start, t, current)
      requires w.task.site == start.tasks[t].site
      modifies this`db, this`faults
      ensures faults == old(faults) + Failures(ok)
      ensures db == if ok then Put(start, t, w) else old(db)
      ensures HasJob(db, t) && WorkOf(db, t) == if ok then w else current
    {
      PutTwice(start, t, current, w);
      ok := Commit(Put(db, t, w));
    }

    // The last phase: the certificates go, then the site.
    method Finish(t: TaskId) returns (ok: bool)
      requires Valid(db, log) && HasJob(db, t) && WorkOf(db, t).phase == Finalizing
      modifies this`db, this`log, this`faults
      ensures Goes(old(db), old(log), db, log, old(db).tasks[t].site)
      ensures faults >= old(faults) + Failures(ok)
      ensures ok ==> db == Completed(old(db), t) && log.removed == old(log).removed[old(db).tasks[t].site := t]
      ensures !ok ==> db == old(db)
    {
      ghost var site := db.tasks[t].site;
      LogGoes(db, log, log, site);
      ok := Attempt();
      if !ok {
        return;
      }
      ghost var cleaned := log.(cleaned := log.cleaned + {t});
      LogGoes(db, log, cleaned, site);
      CompletionGoes(db, cleaned, t);
      GoesOn(db, log, db, cleaned, Completed(db, t), LogRemoved(cleaned, site, t), site);
      log := cleaned;
      ok := Commit(Completed(db, t));
      if ok {
        log := LogRemoved(log, site, t);
      }
    }

    // One turn of the loop in advance.
    method TakeStep(t: TaskId, now: Time) returns (r: Step)
      requires Valid(db, log) && HasJob(db, t)
      modifies this`db, this`log, this`faults
      ensures Goes(old(db), old(log), db, log, old(db).tasks[t].site)
      ensures r != Stopped ==> HasJob(db, t) && db.tasks[t].site == old(db).tasks[t].site
      ensures r == Onward ==> Rank(WorkOf(db, t).phase) > Rank(WorkOf(old(db), t).phase)
      ensures faults >= old(faults) + if r == Broken then 1 else 0
      ensures r == Broken || Turned(old(db), db, t, now, r)
    {
      LogGoes(db, log, log, db.tasks[t].site);
      var readable := Attempt();
      if !readable {
        return Broken;
      }
      var ok;
      match WorkOf(db, t).phase {
        case WithdrawingDNS =>
          ok := WithdrawAndStage(t);
          return if ok then Onward else Broken;
        case WaitingForEdges =>
          var ready;
          ok, ready := SiteDeletionReady(t, now);
          return if !ok then Broken else if ready then Onward else Stopped;
        case Finalizing =>
          ok := Finish(t);
          return if ok then Stopped else Broken;
      }
    }

    // The error of the loop for not getting to an end cannot occur.
    method Advance(t: TaskId, now: Time) returns (r: Result)
      requires Valid(db, log) && HasJob(db, t)
      modifies this`db, this`log, this`faults
      ensures Goes(old(db), old(log), db, log, old(db).tasks[t].site)
      ensures r != NotConverged
      ensures r == Error ==> HasJob(db, t) && db.tasks[t].site == old(db).tasks[t].site
      ensures faults >= old(faults) + if r == Done then 0 else 1
      ensures old(db).tasks[t].site in old(db).sites
      ensures faults == old(faults) && IsActive(old(db).tasks[t].status) ==> ReachesEnd(old(db), db, t, now)
    {
      assert IsJob(db, log, db.tasks[t].site);
      LogGoes(db, log, log, db.tasks[t].site);
      r := NotConverged;
      var i := 0;
      while i < 4
        invariant 0 <= i <= 4 && r == NotConverged && faults >= old(faults)
        invariant IsUnderWay(old(db), old(log), db, log, t, now, faults == old(faults))
        invariant Rank(WorkOf(db, t).phase) >= i
      {
        var step := Turn(t, now, old(db), old(log), faults == old(faults));
        if step == Broken {
          r := Error;
          break;
        }
        if step == Stopped {
          r := Done;
          break;
        }
        i := i + 1;
      }
    }

    // A turn of the loop, seen from its start.
    method Turn(t: TaskId, now: Time, ghost start: Db, ghost startLog: Log, ghost clean: bool) returns (r: Step)
      requires HasJob(start, t) && start.tasks[t].site in start.sites
      requires IsUnderWay(start, startLog, db, log, t, now, clean)
      modifies this`db, this`log, this`faults
      ensures Goes(start, startLog, db, log, start.tasks[t].site)
      ensures faults >= old(faults) + if r == Broken then 1 else 0
      ensures r == Broken ==> HasJob(db, t) && db.tasks[t].site == start.tasks[t].site
      ensures r == Onward ==> IsUnderWay(start, startLog, db, log, t, now, clean && faults == old(faults))
      ensures r == Onward ==> Rank(WorkOf(db, t).phase) > Rank(WorkOf(old(db), t).phase)
      ensures r == Stopped && clean && faults == old(faults) && IsActive(start.tasks[t].status) ==>
        ReachesEnd(start, db, t, now)
    {
      ghost var site := start.tasks[t].site;
      r := TakeStep(t, now);
      GoesOn(start, startLog, old(db), old(log), db, log, site);
      if HasJob(db, t) {
        JobHasSite(db, log, t);
      }
      if r != Broken && clean && IsActive(start.tasks[t].status) {
        TurnLeadsOn(old(db), db, t, now, r);
        EndIsReached(start, startLog, t, now);
      }
    }

    method FailSiteDeletion(t: TaskId)
      requires Valid(db, log) && HasJob(db, t)
      modifies this`db, this`faults
      ensures Goes(old(db), log, db, log, old(db).tasks[t].site)
      ensures faults >= old(faults)
      ensures faults == old(faults) ==> HasJob(db, t) && db.tasks[t] == old(db).tasks[t].(status := Failed)
    {
      var w := WorkOf(db, t);
      assert IsJob(db, log, w.task.site) && IsTask(db, log, t);
      LogGoes(db, log, log, w.task.site);
      PutGoes(db, log, t, w.(task := w.task.(status := Failed)));
      var ok := Commit(Put(db, t, w.(task := w.task.(status := Failed))));
    }

    // Gets on with a task and marks it as failed where that breaks off.
    method AdvanceOrFail(t: TaskId, now: Time) returns (ok: bool)
      requires Valid(db, log) && HasJob(db, t)
      modifies this`db, this`log, this`faults
      ensures Goes(old(db), old(log), db, log, old(db).tasks[t].site)
      ensures faults >= old(faults) + Failures(ok)
      ensures old(db).tasks[t].site in old(db).sites
      ensures faults == old(faults) && IsActive(old(db).tasks[t].status) ==> ReachesEnd(old(db), db, t, now)
    {
      var r := Advance(t, now);
      ok := r == Done;
      if !ok {
        ghost var before, beforeLog := db, log;
        FailSiteDeletion(t);
        GoesOn(old(db), old(log), before, beforeLog, db, log, old(db).tasks[t].site);
      }
    }

    // Until the site is gone, a call of Start can be repeated.
    method Start(site: SiteId, deadline: Time, conflicting: bool, now: Time) returns (ok: bool)
      requires Valid(db, log)
      modifies this`db, this`log, this`faults
      ensures Goes(old(db), old(log), db, log, site)
      ensures faults >= old(faults) && (ok ==> site in old(db).sites)
      ensures site in old(db).sites && (conflicting ==> IsBeingDeleted(old(db), site)) ==>
        faults >= old(faults) + Failures(ok)
      ensures ok && faults == old(faults) && !IsBeingDeleted(old(db), site) ==>
        ReachesEnd(Begun(old(db), site, deadline), db, old(db).next, now)
      // A fresh attempt that nothing hinders ends the site exactly if all the
      // nodes that are told now have applied that already.
      ensures ok && faults == old(faults) && !IsBeingDeleted(old(db), site) ==>
        (site !in db.sites <==> NobodyToWaitFor(old(db), site))
    {
      var task := BeginSiteDeletion(site, deadline, conflicting);
      if task == None {
        return false;
      }
      ghost var begun := db;
      ok := AdvanceOrFail(task.value, now);
      GoesOn(old(db), old(log), begun, old(log), db, log, site);
      if faults == old(faults) && !IsBeingDeleted(old(db), site) {
        FreshEnds(old(db), db, site, deadline, now);
      }
    }

    // All tasks that are under way, up to the first failure. `seen` are the
    // nodes as the tasks have found them.
    method Reconcile(now: Time) returns (ok: bool, ghost seen: map<TaskId, Nodes>)
      requires Valid(db, log)
      modifies this`db, this`log, this`faults
      ensures Valid(db, log) && Follows(old(db), old(log), db, log)
      ensures faults >= old(faults) + Failures(ok)
      ensures faults == old(faults) ==> AllHaveEnded(old(db), db, ActiveTasks(old(db)), seen, now)
    {
      TurnsBegin(db, log, now);
      ok := Attempt();
      if !ok {
        return false, map[];
      }
      ghost var left, done;
      ok, seen, left, done := TakeTurns(ActiveTasks(db), now);
      TurnsAreOver(old(db), old(log), db, log, left, done, seen, now, faults == old(faults));
    }

    method TakeTurns(tasks: set<TaskId>, now: Time)
      returns (ok: bool, ghost seen: map<TaskId, Nodes>, ghost left: set<TaskId>, ghost done: set<TaskId>)
      requires IsInTurn(db, log, db, log, tasks, {}, map[], now, true)
      modifies this`db, this`log, this`faults
      ensures IsInTurn(old(db), old(log), db, log, left, done, seen, now, faults == old(faults))
      ensures faults >= old(faults) + Failures(ok)
      ensures faults == old(faults) ==> done == tasks
    {
      ok, seen, done := true, map[], {};
      var rest := tasks;
      ghost var start, startLog := db, log;
      while ok && rest != {}
        invariant IsInTurn(start, startLog, db, log, rest, done, seen, now, faults == old(faults))
        invariant rest + done == tasks && faults >= old(faults) + Failures(ok)
        decreases ok, rest
      {
        var t :| t in rest;
        ghost var nodes := db.nodes;
        ok := TakeTurn(t, now, start, startLog, rest, done, seen, faults == old(faults));
        rest, done, seen := rest - {t}, done + {t}, seen[t := nodes];
      }
      left := rest;
    }

    method TakeTurn(t: TaskId, now: Time, ghost start: Db, ghost startLog: Log, ghost rest: set<TaskId>,
                    ghost done: set<TaskId>, ghost seen: map<TaskId, Nodes>, ghost clean: bool)
      returns (ok: bool)
      requires IsInTurn(start, startLog, db, log, rest, done, seen, now, clean) && t in rest
      modifies this`db, this`log, this`faults
      ensures IsInTurn(start, startLog, db, log, rest - {t}, done + {t}, seen[t := old(db).nodes], now,
                       clean && faults == old(faults))
      ensures faults >= old(faults) + Failures(ok)
    {
      TurnCanBeTaken(start, startLog, db, log, rest, done, seen, t, now, clean);
      ok := AdvanceOrFail(t, now);
      TurnIsTaken(start, startLog, old(db), old(log), db, log, rest, done, seen, t, now, clean, faults == old(faults));
    }

    method Status(site: SiteId, now: Time) returns (ok: bool)
      requires Valid(db, log)
      modifies this`db, this`log, this`faults
      ensures Goes(old(db), old(log), db, log, site)
      ensures faults >= old(faults) + Failures(ok)
      ensures faults == old(faults) && IsBeingDeleted(old(db), site) ==>
        && HasJob(old(db), old(db).jobs[site].task) && site in old(db).sites
        && ReachesEnd(old(db), db, old(db).jobs[site].task, now)
    {
      LogGoes(db, log, log, site);
      ok := Attempt();
      if ok && site in db.jobs {
        assert IsJob(db, log, site);
        if IsActive(db.tasks[db.jobs[site].task].status) {
          ok := AdvanceOrFail(db.jobs[site].task, now);
        }
      }
    }

    // The outcome of a version is noted for those who wait for it.
    method RecordPublishApply(node: NodeId, report: Report) returns (ok: bool)
      requires Valid(db, log) && (report.succeeded ==> IsProven(log, node, report.version))
      modifies this`db, this`faults
      ensures Valid(db, log) && Follows(old(db), log, db, log)
      ensures faults >= old(faults)
      ensures ok ==> db == old(db).(tasks := db.tasks) && TasksAreAnswered(old(db).tasks, db.tasks, node, Some(report))
      ensures faults == old(faults) ==> (ok <==> report.version > 0)
      ensures !ok ==> db == old(db)
    {
      if report.version == 0 {
        LogGoes(db, log, log, "");
        return false;
      }
      ReportGoes(db, log, node, report);
      ReportAnswers(db, node, report);
      LogGoes(db, log, log, "");
      ok := Commit(Reported(db, node, report));
    }

    // A node reports what it has applied: first the outcome for those who wait
    // for it, then its version.
    method Heartbeat(node: NodeId, applied: nat, report: Option<Report>) returns (ok: bool)
      requires Valid(db, log)
      modifies this`db, this`log, this`faults
      ensures Valid(db, log) && Follows(old(db), old(log), db, log)
      ensures old(log).removed == log.removed && old(log).staged == log.staged
      ensures faults >= old(faults)
      ensures ok ==> IsHeard(old(db), db, node, applied, report)
      ensures faults == old(faults) ==> (ok <==> node in old(db).nodes && (report.Some? ==> report.value.version > 0))
      ensures !ok ==> db.nodes == old(db).nodes
    {
      ghost var reached :=
        if report.Some? && report.value.succeeded && report.value.version > applied then report.value.version else applied;
      HeartbeatGoes(db, log, node, reached);
      log := LogProven(log, node, reached);
      ok := true;
      if report.Some? {
        ok := RecordPublishApply(node, report.value);
      }
      if ok {
        ghost var recorded := db;
        ok := Hear(node, applied);
        FollowsOn(old(db), old(log), recorded, log, db, log);
        if ok {
          HeardOn(old(db), recorded, db, node, applied, report);
        }
      }
    }

    method Hear(node: NodeId, applied: nat) returns (ok: bool)
      requires Valid(db, log) && IsProven(log, node, applied)
      modifies this`db, this`faults
      ensures Valid(db, log) && Follows(old(db), log, db, log)
      ensures faults >= old(faults) && (faults == old(faults) ==> (ok <==> node in old(db).nodes))
      ensures ok ==>
        && node in old(db).nodes
        && db == old(db).(nodes := old(db).nodes[node := Heard(old(db).nodes[node], applied)])
      ensures !ok ==> db == old(db)
    {
      if node !in db.nodes {
        LogGoes(db, log, log, "");
        return false;
      }
      NodesGo(db, log, db.nodes[node := Heard(db.nodes[node], applied)], "");
      LogGoes(db, log, log, "");
      ok := Commit(db.(nodes := db.nodes[node := Heard(db.nodes[node], applied)]));
    }

    // Another publication, upgrade, or enrolment.
    method ChangeNode(node: NodeId, status: Status, desired: Option<Desired>)
      requires Valid(db, log)
      modifies this`db, this`log, this`faults
      ensures Valid(db, log) && Follows(old(db), old(log), db, log)
      ensures node in old(db).nodes ==> db.nodes == old(db).nodes[node := Node(status, desired, old(db).nodes[node].applied)]
    {
      var n := if node in db.nodes then db.nodes[node].(status := status, desired := desired) else Node(status, desired, 0);
      HeartbeatGoes(db, log, node, n.applied);
      log := LogProven(log, node, n.applied);
      NodesGo(db, log, db.nodes[node := n], "");
      FollowsOn(old(db), old(log), old(db), log, db.(nodes := db.nodes[node := n]), log);
      db := db.(nodes := db.nodes[node := n]);
    }

    // The save of a draft begins, which is refused during a deletion.
    method ReadDraft(site: SiteId) returns (ok: bool)
      requires DraftsOk()
      modifies this`drafts, this`nextDraft, this`faults
      ensures DraftsOk() && AllStayShut(db, old(drafts), db, drafts, written)
      ensures faults >= old(faults)
      ensures drafts == if ok then old(drafts)[old(nextDraft) := site] else old(drafts)
      ensures faults == old(faults) ==> (ok <==> site in db.sites && !db.sites[site].deleting)
    {
      ok := Attempt();
      if !ok || site !in db.sites || db.sites[site].deleting {
        return false;
      }
      drafts, nextDraft := drafts[nextDraft := site], nextDraft + 1;
    }

    // It writes the whole site, whatever has become of it: a site that is being
    // deleted is no longer marked so, and enabled if the draft says it.
    method WriteDraft(d: DraftId, enabled: bool, nodes: set<NodeId>) returns (ok: bool)
      requires Valid(db, log) && DraftsOk()
      modifies this`db, this`faults, this`drafts, this`written
      ensures Valid(db, log) && Proceeds(old(db), log, db, log)
      ensures DraftsOk() && old(written) <= written && AllStayShut(old(db), old(drafts), db, drafts, written)
      ensures faults >= old(faults)
      ensures (ok ==> d in old(drafts)) && (faults == old(faults) && d in old(drafts) ==> ok)
      ensures db.jobs == old(db).jobs && db.tasks == old(db).tasks && db.nodes == old(db).nodes
      ensures db.sites ==
        if ok && old(drafts)[d] in old(db).sites then old(db).sites[old(drafts)[d] := Site(enabled, false, nodes)]
        else old(db).sites
    {
      if d !in drafts {
        return false;
      }
      ghost var open := drafts;
      var site := drafts[d];
      drafts := drafts - {d};
      ok := Attempt();
      if ok && site in db.sites {
        SitesGo(db, log, site, Site(enabled, false, nodes));
        db := db.(sites := db.sites[site := Site(enabled, false, nodes)]);
        written := written + {d};
        assert IsOpen(open, d, site);
      }
    }

    // Over any events, with failures anywhere, a site goes only after its DNS
    // was withdrawn, its nodes have confirmed and its certificates were deleted.
    // Its job stays until then, and so does the site as the deletion has left
    // it, unless a draft is written that was read before.
    method Run(events: seq<Event>, now: seq<Time>)
      requires Valid(db, log) && DraftsOk() && |now| == |events|
      modifies this
      ensures Valid(db, log) && DraftsOk()
      ensures forall s :: s in old(db).sites && s !in db.sites ==> s in log.removed && GoesRightly(log, s)
      ensures forall s :: s in old(db).jobs && s in db.sites ==> s in db.jobs
      ensures AllStayShut(old(db), old(drafts), db, drafts, written)
    {
      for k := 0 to |events|
        invariant Valid(db, log) && DraftsOk() && Proceeds(old(db), old(log), db, log)
        invariant AllStayShut(old(db), old(drafts), db, drafts, written) && old(written) <= written
      {
        ghost var before, beforeLog, open, done := db, log, drafts, written;
        Happen(events[k], now[k]);
        StayShutOn(old(db), old(log), old(drafts), before, beforeLog, open, done, db, log, drafts, written);
        ProceedsOn(old(db), old(log), before, beforeLog, db, log);
      }
      forall s | s in log.removed
        ensures GoesRightly(log, s)
      {
        RemovedHaveDropped(db, log, s);
      }
      forall s | s in old(db).jobs
        ensures s in old(db).sites
      {
        assert IsJob(old(db), old(log), s);
      }
    }

    method Happen(e: Event, now: Time)
      requires Valid(db, log) && DraftsOk()
      modifies this
      ensures Valid(db, log) && DraftsOk() && Proceeds(old(db), old(log), db, log)
      ensures old(written) <= written && AllStayShut(old(db), old(drafts), db, drafts, written)
    {
      var ok;
      match e {
        case DraftRead(site) =>
          LogGoes(db, log, log, "");
          ok := ReadDraft(site);
        case DraftWritten(d, enabled, nodes) =>
          ok := WriteDraft(d, enabled, nodes);
        case _ =>
          Go(e, now);
          KeptStaysShut(old(db), old(log), db, log, drafts, written);
      }
    }

    // An event that is no draft.
    method Go(e: Event, now: Time)
      requires Valid(db, log) && !e.DraftRead? && !e.DraftWritten?
      modifies this`db, this`log, this`faults
      ensures Valid(db, log) && Follows(old(db), old(log), db, log)
    {
      var ok;
      match e {
        case Start(site, deadline, conflicting) =>
          ok := Start(site, deadline, conflicting, now);
        case Reconcile =>
          ghost var seen;
          ok, seen := Reconcile(now);
        case Asks(site) =>
          ok := Status(site, now);
        case Heartbeat(node, applied, report) =>
          ok := Heartbeat(node, applied, report);
        case NodeChanges(node, status, desired) =>
          ChangeNode(node, status, desired);
      }
    }
  }

  // What a node reports of a version it was to apply.
  datatype Report = Report(version: nat, succeeded: bool)

  // Anything that may happen to the store in the meantime.
  datatype Event =
    | Start(site: SiteId, deadline: Time, conflicting: bool)
    | Reconcile
    | Asks(site: SiteId)
    | Heartbeat(node: NodeId, applied: nat, report: Option<Report>)
    | NodeChanges(node: NodeId, status: Status, desired: Option<Desired>)
    | DraftRead(site: SiteId)
    | DraftWritten(draft: DraftId, enabled: bool, nodes: set<NodeId>)

  // What a turn of the loop does where nothing fails.
  ghost predicate Turned(db: Db, db': Db, t: TaskId, now: Time, r: Step)
    requires HasJob(db, t)
  {
    var w := WorkOf(db, t);
    match w.phase
    case WithdrawingDNS =>
      r == Onward && IsStaged(db, db', t)
    case WaitingForEdges =>
      && IsJudged(db, db', t, now)
      && r == if WorkOf(db', t).phase == Finalizing then Onward else Stopped
    case Finalizing =>
      r == Stopped && db' == Completed(db, t)
  }

  function AheadIn(db: Db, t: TaskId, now: Time): Work
    requires HasJob(db, t) && db.tasks[t].site in db.sites
  {
    Ahead(WorkOf(db, t), db.nodes, db.sites[db.tasks[t].site].nodes, now)
  }

  // The nodes when nothing fails: a task in its first phase tells them.
  function NodesAhead(db: Db, t: TaskId): Nodes
    requires HasJob(db, t) && db.tasks[t].site in db.sites
  {
    if WorkOf(db, t).phase == WithdrawingDNS then NodesWithout(db.nodes, db.tasks[t].site, db.sites[db.tasks[t].site].nodes)
    else db.nodes
  }

  // Where a call gets to if nothing fails: the site is gone exactly if all the
  // nodes that its task waits for have confirmed or applied its removal.
  ghost predicate ReachesEnd(db: Db, db': Db, t: TaskId, now: Time)
    requires HasJob(db, t) && db.tasks[t].site in db.sites
  {
    var site, w := db.tasks[t].site, WorkOf(db, t);
    && db'.nodes == NodesAhead(db, t)
    && (site !in db'.sites <==> AllConfirmed(Confirm(TargetsAt(w, db.nodes, db.sites[site].nodes), db.nodes)))
    && (site in db'.sites ==>
          HasJob(db', t) && WorkOf(db', t) == AheadIn(db, t, now) && db'.sites[site] == db.sites[site])
  }

  lemma SameApplied(targets: Targets, nodes: Nodes, site: SiteId, affected: set<NodeId>)
    ensures Confirm(targets, NodesWithout(nodes, site, affected)) == Confirm(targets, nodes)
  {
  }

  // From `start` the task has got on; where nothing has failed, towards its end.
  ghost predicate IsUnderWay(start: Db, startLog: Log, db: Db, log: Log, t: TaskId, now: Time, clean: bool)
    requires HasJob(start, t) && start.tasks[t].site in start.sites
  {
    && Goes(start, startLog, db, log, start.tasks[t].site)
    && Valid(start, startLog)
    && HasJob(db, t) && db.tasks[t].site == start.tasks[t].site && db.tasks[t].site in db.sites
    && (clean && IsActive(start.tasks[t].status) ==>
          && IsActive(db.tasks[t].status) && db.sites[db.tasks[t].site] == start.sites[db.tasks[t].site]
          && AheadIn(db, t, now) == AheadIn(start, t, now) && NodesAhead(db, t) == NodesAhead(start, t))
  }

  lemma EndIsReached(db: Db, log: Log, t: TaskId, now: Time)
    requires Valid(db, log) && HasJob(db, t)
    ensures db.tasks[t].site in db.sites
    ensures var w, affected := WorkOf(db, t), db.sites[db.tasks[t].site].nodes;
            AheadIn(db, t, now).phase == Finalizing <==> AllConfirmed(Confirm(TargetsAt(w, db.nodes, affected), db.nodes))
  {
    assert IsJob(db, log, db.tasks[t].site);
    GoneIffConfirmed(WorkOf(db, t), db.nodes, db.sites[db.tasks[t].site].nodes, now);
  }

  // Where a turn of the loop leads to, seen from behind it.
  ghost predicate LeadsOn(db: Db, db': Db, t: TaskId, now: Time, r: Step)
    requires HasJob(db, t) && db.tasks[t].site in db.sites
  {
    && (r == Onward ==>
          && HasJob(db', t) && db'.tasks[t].site == db.tasks[t].site && db'.tasks[t].site in db'.sites
          && IsActive(db'.tasks[t].status) && db'.sites[db.tasks[t].site] == db.sites[db.tasks[t].site]
          && AheadIn(db', t, now) == AheadIn(db, t, now) && NodesAhead(db', t) == NodesAhead(db, t))
    && (r == Stopped ==>
          && db'.nodes == NodesAhead(db, t)
          && (db.tasks[t].site !in db'.sites <==> AheadIn(db, t, now).phase == Finalizing)
          && (db.tasks[t].site in db'.sites ==>
                && HasJob(db', t) && WorkOf(db', t) == AheadIn(db, t, now)
                && db'.sites[db.tasks[t].site] == db.sites[db.tasks[t].site]))
  }

  lemma JobHasSite(db: Db, log: Log, t: TaskId)
    requires Valid(db, log) && HasJob(db, t)
    ensures db.tasks[t].site in db.sites
  {
    assert IsJob(db, log, db.tasks[t].site);
  }

  // A turn of the loop does not change where it ends.
  lemma TurnLeadsOn(db: Db, db': Db, t: TaskId, now: Time, r: Step)
    requires HasJob(db, t) && db.tasks[t].site in db.sites
    requires HasJob(db', t) ==> db'.tasks[t].site in db'.sites
    requires Turned(db, db', t, now, r) && IsActive(db.tasks[t].status)
    ensures LeadsOn(db, db', t, now, r)
  {
    match WorkOf(db, t).phase
    case WithdrawingDNS =>
      WithdrawingLeadsOn(db, db', t, now);
    case WaitingForEdges =>
      WaitingLeadsOn(db, db', t, now, r);
    case Finalizing =>
      FinishingLeadsOn(db, db', t, now);
  }

  lemma FinishingLeadsOn(db: Db, db': Db, t: TaskId, now: Time)
    requires HasJob(db, t) && db.tasks[t].site in db.sites
    requires WorkOf(db, t).phase == Finalizing && db' == Completed(db, t)
    ensures LeadsOn(db, db', t, now, Stopped)
  {
  }

  lemma WithdrawingLeadsOn(db: Db, db': Db, t: TaskId, now: Time)
    requires HasJob(db, t) && db.tasks[t].site in db.sites && db.tasks[t].site in db'.sites
    requires Turned(db, db', t, now, Onward) && WorkOf(db, t).phase == WithdrawingDNS
    ensures LeadsOn(db, db', t, now, Onward)
  {
    var site, w := db.tasks[t].site, WorkOf(db, t);
    SameApplied(Staged(w, db.nodes, db.sites[site].nodes).task.targets, db.nodes, site, db.sites[site].nodes);
  }

  lemma WaitingLeadsOn(db: Db, db': Db, t: TaskId, now: Time, r: Step)
    requires HasJob(db, t) && db.tasks[t].site in db.sites && db.tasks[t].site in db'.sites
    requires Turned(db, db', t, now, r) && WorkOf(db, t).phase == WaitingForEdges && IsActive(db.tasks[t].status)
    ensures LeadsOn(db, db', t, now, r)
  {
    JudgedIsOver(WorkOf(db, t), db.nodes, now);
  }

  // All the nodes that a new deletion would tell have applied that already.
  ghost predicate NobodyToWaitFor(db: Db, site: SiteId)
    requires site in db.sites
  {
    AllConfirmed(Confirm(TargetsOf(db.nodes, site, db.sites[site].nodes), db.nodes))
  }

  lemma FreshEnds(db: Db, db': Db, site: SiteId, deadline: Time, now: Time)
    requires site in db.sites
    requires ReachesEnd(Begun(db, site, deadline), db', db.next, now)
    ensures site !in db'.sites <==> NobodyToWaitFor(db, site)
  {
  }

  function ActiveTasks(db: Db): set<TaskId> {
    set t | t in db.tasks && IsActive(db.tasks[t].status)
  }

  // Nodes that differ at most in what they are told.
  predicate SameNodes(a: Nodes, b: Nodes) {
    a.Keys == b.Keys && forall n :: n in a ==> b[n].applied == a[n].applied && b[n].status == a[n].status
  }

  // A task that has not had its turn yet.
  predicate IsWaiting(start: Db, db: Db, t: TaskId) {
    && HasJob(start, t) && IsActive(start.tasks[t].status) && start.tasks[t].site in start.sites
    && HasJob(db, t) && WorkOf(db, t) == WorkOf(start, t)
    && start.tasks[t].site in db.sites && db.sites[start.tasks[t].site] == start.sites[start.tasks[t].site]
  }

  // A task that has had it, with the nodes that it has found.
  ghost predicate HasEnded(start: Db, db: Db, t: TaskId, nodes: Nodes, now: Time) {
    && HasJob(start, t) && start.tasks[t].site in start.sites && SameNodes(start.nodes, nodes)
    && var w, site := WorkOf(start, t), start.tasks[t].site;
       var affected := start.sites[site].nodes;
       && (site !in db.sites <==> AllConfirmed(Confirm(TargetsAt(w, nodes, affected), nodes)))
       && (site in db.sites ==>
             HasJob(db, t) && db.tasks[t].site == site && WorkOf(db, t) == Ahead(w, nodes, affected, now))
  }

  ghost predicate AllHaveEnded(start: Db, db: Db, done: set<TaskId>, seen: map<TaskId, Nodes>, now: Time) {
    SameNodes(start.nodes, db.nodes) && forall t :: t in done ==> t in seen && HasEnded(start, db, t, seen[t], now)
  }

  lemma HasEndedNow(start: Db, before: Db, db: Db, t: TaskId, now: Time)
    requires IsWaiting(start, before, t) && SameNodes(start.nodes, before.nodes)
    requires ReachesEnd(before, db, t, now)
    ensures HasEnded(start, db, t, before.nodes, now) && SameNodes(start.nodes, db.nodes)
  {
  }

  lemma OthersHaveEnded(start: Db, startLog: Log, before: Db, beforeLog: Log, db: Db, log: Log, t: TaskId,
                        done: set<TaskId>, seen: map<TaskId, Nodes>, now: Time)
    requires HasJob(start, t) && t !in done && AllHaveEnded(start, before, done, seen, now)
    requires Follows(start, startLog, before, beforeLog) && Goes(before, beforeLog, db, log, start.tasks[t].site)
    ensures forall u :: u in done ==> u in seen && HasEnded(start, db, u, seen[u], now)
  {
    forall u | u in done
      ensures HasEnded(start, db, u, seen[u], now)
    {
      assert HasEnded(start, before, u, seen[u], now);
      EndedStays(start, startLog, before, beforeLog, db, log, start.tasks[t].site, u, seen[u], now);
    }
  }

  lemma EndedStays(start: Db, startLog: Log, before: Db, beforeLog: Log, db: Db, log: Log, site: SiteId, u: TaskId,
                   nodes: Nodes, now: Time)
    requires HasEnded(start, before, u, nodes, now) && start.tasks[u].site != site
    requires Follows(start, startLog, before, beforeLog) && Goes(before, beforeLog, db, log, site)
    ensures HasEnded(start, db, u, nodes, now)
  {
    if start.tasks[u].site !in before.sites {
      assert start.tasks[u].site in log.removed && IsRemoved(db, log, start.tasks[u].site);
    }
  }

  // Between two turns.
  ghost predicate IsInTurn(start: Db, startLog: Log, db: Db, log: Log, rest: set<TaskId>, done: set<TaskId>,
                           seen: map<TaskId, Nodes>, now: Time, clean: bool)
  {
    && Valid(db, log) && Follows(start, startLog, db, log)
    && rest !! done && (forall t :: t in rest ==> IsWaiting(start, db, t))
    && (clean ==> AllHaveEnded(start, db, done, seen, now))
  }

  lemma TurnsBegin(db: Db, log: Log, now: Time)
    requires Valid(db, log)
    ensures IsInTurn(db, log, db, log, ActiveTasks(db), {}, map[], now, true) && Follows(db, log, db, log)
  {
    forall t | t in ActiveTasks(db)
      ensures IsWaiting(db, db, t)
    {
      assert IsTask(db, log, t) && IsJob(db, log, db.tasks[t].site);
    }
  }

  lemma TurnsAreOver(start: Db, startLog: Log, db: Db, log: Log, rest: set<TaskId>, done: set<TaskId>,
                     seen: map<TaskId, Nodes>, now: Time, clean: bool)
    requires IsInTurn(start, startLog, db, log, rest, done, seen, now, clean)
    ensures Valid(db, log) && Follows(start, startLog, db, log)
    ensures clean ==> AllHaveEnded(start, db, done, seen, now)
  {
  }

  lemma TurnCanBeTaken(start: Db, startLog: Log, db: Db, log: Log, rest: set<TaskId>, done: set<TaskId>,
                       seen: map<TaskId, Nodes>, t: TaskId, now: Time, clean: bool)
    requires IsInTurn(start, startLog, db, log, rest, done, seen, now, clean) && t in rest
    ensures Valid(db, log) && IsWaiting(start, db, t) && IsActive(db.tasks[t].status)
  {
    assert WorkOf(db, t).task == WorkOf(start, t).task;
  }

  lemma TurnIsTaken(start: Db, startLog: Log, before: Db, beforeLog: Log, db: Db, log: Log, rest: set<TaskId>,
                    done: set<TaskId>, seen: map<TaskId, Nodes>, t: TaskId, now: Time, clean: bool, cleanTurn: bool)
    requires IsInTurn(start, startLog, before, beforeLog, rest, done, seen, now, clean) && t in rest
    requires IsWaiting(start, before, t) && Goes(before, beforeLog, db, log, start.tasks[t].site)
    requires cleanTurn ==> ReachesEnd(before, db, t, now)
    ensures IsInTurn(start, startLog, db, log, rest - {t}, done + {t}, seen[t := before.nodes], now, clean && cleanTurn)
  {
    FollowsOn(start, startLog, before, beforeLog, db, log);
    OthersWait(start, before, db, rest, t);
    if clean && cleanTurn {
      OthersHaveEnded(start, startLog, before, beforeLog, db, log, t, done, seen, now);
      HasEndedNow(start, before, db, t, now);
      OneMoreHasEnded(start, db, done, seen, t, before.nodes, now);
    }
  }

  lemma OneMoreHasEnded(start: Db, db: Db, done: set<TaskId>, seen: map<TaskId, Nodes>, t: TaskId, nodes: Nodes,
                        now: Time)
    requires SameNodes(start.nodes, db.nodes) && HasEnded(start, db, t, nodes, now) && t !in done
    requires forall u :: u in done ==> u in seen && HasEnded(start, db, u, seen[u], now)
    ensures AllHaveEnded(start, db, done + {t}, seen[t := nodes], now)
  {
  }

  lemma OthersWait(start: Db, before: Db, db: Db, rest: set<TaskId>, t: TaskId)
    requires IsWaiting(start, before, t) && forall u :: u in rest ==> IsWaiting(start, before, u)
    requires OthersStay(before, db, start.tasks[t].site)
    ensures forall u :: u in rest - {t} ==> IsWaiting(start, db, u)
  {
    forall u | u in rest - {t}
      ensures IsWaiting(start, db, u)
    {
      assert start.tasks[u].site != start.tasks[t].site;
    }
  }

  lemma SitesGo(db: Db, log: Log, site: SiteId, draft: Site)
    requires Valid(db, log) && site in db.sites
    ensures Valid(db.(sites := db.sites[site := draft]), log)
    ensures Proceeds(db, log, db.(sites := db.sites[site := draft]), log)
  {
    var db' := db.(sites := db.sites[site := draft]);
    forall t | t in db'.tasks
      ensures IsTask(db', log, t)
    {
      assert IsTask(db, log, t);
    }
    forall s | s in db'.jobs
      ensures IsJob(db', log, s)
    {
      assert IsJob(db, log, s);
    }
    forall s | s in log.removed
      ensures IsRemoved(db', log, s)
    {
      assert IsRemoved(db, log, s);
    }
  }

  function LogProven(log: Log, node: NodeId, version: nat): Log {
    if IsProven(log, node, version) then log else log.(proven := log.proven[node := version])
  }

  lemma HeartbeatGoes(db: Db, log: Log, node: NodeId, version: nat)
    requires Valid(db, log)
    ensures Valid(db, LogProven(log, node, version)) && Follows(db, log, db, LogProven(log, node, version))
    ensures IsProven(LogProven(log, node, version), node, version)
  {
    LogGoes(db, log, LogProven(log, node, version), "");
  }

  function Heard(n: Node, applied: nat): Node {
    n.(applied := if applied > n.applied then applied else n.applied,
       status := if n.status == Pending then Active else n.status)
  }

  // The target of a node has its answer now, if the report is one.
  predicate IsAnswered(target: Target, target': Target, report: Option<Report>) {
    && target'.version == target.version
    && target'.answer ==
       if report.None? || target.answer != Awaited || target.version > report.value.version then target.answer
       else if report.value.succeeded then Confirmed
       else Refused
  }

  predicate AreAnswered(task: Task, task': Task, node: NodeId, report: Option<Report>) {
    && task'.targets.Keys == task.targets.Keys && task' == task.(targets := task'.targets)
    && (forall n :: n in task.targets && n != node ==> task'.targets[n] == task.targets[n])
    && (node in task.targets ==> IsAnswered(task.targets[node], task'.targets[node], report))
  }

  // The node has applied no less than it says, and it has answered all active
  // tasks that have waited for it; nothing else has changed.
  ghost predicate IsHeard(db: Db, db': Db, node: NodeId, applied: nat, report: Option<Report>) {
    && node in db.nodes && db' == db.(nodes := db.nodes[node := Heard(db.nodes[node], applied)], tasks := db'.tasks)
    && TasksAreAnswered(db.tasks, db'.tasks, node, report)
  }

  ghost predicate TasksAreAnswered(tasks: map<TaskId, Task>, tasks': map<TaskId, Task>, node: NodeId,
                                   report: Option<Report>)
  {
    && tasks'.Keys == tasks.Keys
    && forall t :: t in tasks ==>
      if IsActive(tasks[t].status) then AreAnswered(tasks[t], tasks'[t], node, report) else tasks'[t] == tasks[t]
  }

  lemma HeardOn(a: Db, b: Db, c: Db, node: NodeId, applied: nat, report: Option<Report>)
    requires if report.None? then b == a else b == a.(tasks := b.tasks) && TasksAreAnswered(a.tasks, b.tasks, node, report)
    requires node in b.nodes && c == b.(nodes := b.nodes[node := Heard(b.nodes[node], applied)])
    ensures IsHeard(a, c, node, applied, report)
  {
  }

  lemma ReportAnswers(db: Db, node: NodeId, report: Report)
    ensures TasksAreAnswered(db.tasks, Reported(db, node, report).tasks, node, Some(report))
  {
  }

  // A report answers for every version up to its own.
  function Answered(target: Target, report: Report): Target {
    if target.answer == Awaited && target.version <= report.version
    then target.(answer := if report.succeeded then Confirmed else Refused)
    else target
  }

  function AnsweredBy(targets: Targets, node: NodeId, report: Report): Targets {
    map n | n in targets :: if n == node then Answered(targets[n], report) else targets[n]
  }

  function Reported(db: Db, node: NodeId, report: Report): Db {
    db.(tasks := map t | t in db.tasks ::
          if IsActive(db.tasks[t].status)
          then db.tasks[t].(targets := AnsweredBy(db.tasks[t].targets, node, report)) else db.tasks[t])
  }

  lemma ReportGoes(db: Db, log: Log, node: NodeId, report: Report)
    requires Valid(db, log) && (report.succeeded ==> IsProven(log, node, report.version))
    ensures Valid(Reported(db, node, report), log) && Follows(db, log, Reported(db, node, report), log)
  {
    TasksAnswer(db, log, node, report);
    JobsAnswer(db, log, node, report);
    var db' := Reported(db, node, report);
    forall s | s in log.removed
      ensures IsRemoved(db', log, s)
    {
      assert IsRemoved(db, log, s);
    }
  }

  lemma TasksAnswer(db: Db, log: Log, node: NodeId, report: Report)
    requires Valid(db, log) && (report.succeeded ==> IsProven(log, node, report.version))
    ensures forall t :: t in db.tasks ==> IsTask(Reported(db, node, report), log, t)
  {
    forall t | t in db.tasks
      ensures IsTask(Reported(db, node, report), log, t)
    {
      assert IsTask(db, log, t);
    }
  }

  lemma JobsAnswer(db: Db, log: Log, node: NodeId, report: Report)
    requires Valid(db, log)
    ensures forall s :: s in db.jobs ==> IsJob(Reported(db, node, report), log, s)
  {
    forall s | s in db.jobs
      ensures IsJob(Reported(db, node, report), log, s)
    {
      assert IsJob(db, log, s);
      var t := db.jobs[s].task;
      WorkAnswers(t, WorkOf(db, t), Reported(db, node, report).tasks[t], node, report, log);
    }
  }

  // What has been told and what has been confirmed is not changed by answers.
  lemma WorkAnswers(t: TaskId, w: Work, task: Task, node: NodeId, report: Report, log: Log)
    requires WorkOk(t, w, log)
    requires task == w.task || task == w.task.(targets := AnsweredBy(w.task.targets, node, report))
    ensures WorkOk(t, w.(task := task), log)
  {
  }

  lemma PutTwice(db: Db, t: TaskId, v: Work, w: Work)
    requires HasJob(db, t) && v.task.site == db.tasks[t].site
    ensures HasJob(Put(db, t, v), t) && WorkOf(Put(db, t, v), t) == v && Put(Put(db, t, v), t, w) == Put(db, t, w)
  {
  }

  lemma PutSame(db: Db, t: TaskId)
    requires HasJob(db, t)
    ensures Put(db, t, WorkOf(db, t)) == db
  {
    assert db.jobs[db.tasks[t].site := Job(t, WorkOf(db, t).phase)] == db.jobs;
    assert db.tasks[t := db.tasks[t]] == db.tasks;
  }

  lemma NoneTimesOut(targets: Targets)
    requires !SomeIs(targets, Awaited)
    ensures TimeOut(targets) == targets
  {
  }

  // What a task may become while its nodes answer.
  predicate IsFit(t: TaskId, w: Work, site: SiteId, log: Log) {
    w.task.site == site && WorkOk(t, w, log) && AnswersAreTrue(w.task.targets, log)
  }

  lemma JudgingIsFit(t: TaskId, w: Work, nodes: Nodes, now: Time, log: Log)
    requires IsFit(t, w, w.task.site, log) && w.phase == WaitingForEdges && AreProven(nodes, log)
    ensures var targets := Confirm(w.task.targets, nodes);
            && IsFit(t, w.(task := w.task.(targets := targets)), w.task.site, log)
            && IsFit(t, w.(task := w.task.(targets := TimeOut(targets))), w.task.site, log)
            && IsFit(t, Judged(w, nodes, now), w.task.site, log)
  {
    ConfirmingIsTrue(w.task.targets, nodes, log);
    JudgedIsOver(w, nodes, now);
  }

  lemma FitGoes(db: Db, log: Log, t: TaskId, w: Work)
    requires Valid(db, log) && HasJob(db, t) && IsFit(t, w, db.tasks[t].site, log)
    ensures Goes(db, log, Put(db, t, w), log, db.tasks[t].site)
  {
    PutGoes(db, log, t, w);
  }

  lemma JudgingGoes(db: Db, log: Log, t: TaskId, now: Time)
    requires Valid(db, log) && HasJob(db, t) && WorkOf(db, t).phase == WaitingForEdges
    ensures var w, site := WorkOf(db, t), db.tasks[t].site;
            var targets := Confirm(w.task.targets, db.nodes);
            && Goes(db, log, db, log, site)
            && Goes(db, log, Put(db, t, w.(task := w.task.(targets := targets))), log, site)
            && Goes(db, log, Put(db, t, w.(task := w.task.(targets := TimeOut(targets)))), log, site)
            && Goes(db, log, Put(db, t, Judged(w, db.nodes, now)), log, site)
  {
    var w := WorkOf(db, t);
    var targets := Confirm(w.task.targets, db.nodes);
    assert IsJob(db, log, w.task.site) && IsTask(db, log, t);
    JudgingIsFit(t, w, db.nodes, now, log);
    LogGoes(db, log, log, w.task.site);
    FitGoes(db, log, t, w.(task := w.task.(targets := targets)));
    FitGoes(db, log, t, w.(task := w.task.(targets := TimeOut(targets))));
    FitGoes(db, log, t, Judged(w, db.nodes, now));
  }

  lemma ConfirmingIsTrue(targets: Targets, nodes: Nodes, log: Log)
    requires AnswersAreTrue(targets, log) && AreProven(nodes, log)
    ensures AnswersAreTrue(Confirm(targets, nodes), log) && AnswersAreTrue(TimeOut(Confirm(targets, nodes)), log)
  {
  }

  // ---------- a node that is overlooked ----------

  // A node that is told and does not answer times out at the deadline.
  lemma SilenceTimesOut(w: Work, nodes: Nodes, affected: set<NodeId>, n: NodeId, now: Time)
    requires w.phase == WithdrawingDNS && IsTarget(nodes, w.task.site, affected, n)
    requires nodes[n].applied < Without(nodes[n], w.task.site).version
    requires now < w.task.deadline
    ensures var ahead := Ahead(w, nodes, affected, now);
            && ahead.phase == WaitingForEdges && IsActive(ahead.task.status) && ahead.task.deadline == w.task.deadline
            && n in ahead.task.targets
            && ahead.task.targets[n] == Target(Without(nodes[n], w.task.site).version, Awaited)
  {
    var targets := TargetsOf(nodes, w.task.site, affected);
    assert n in targets && Confirm(targets, nodes)[n] == targets[n];
  }

  lemma DeadlineFails(w: Work, nodes: Nodes, n: NodeId, now: Time)
    requires w.phase == WaitingForEdges && n in w.task.targets && w.task.targets[n].answer == Awaited
    requires n in nodes && nodes[n].applied < w.task.targets[n].version && now >= w.task.deadline
    ensures !IsActive(Judged(w, nodes, now).task.status) && Judged(w, nodes, now).phase == WaitingForEdges
    ensures !AllConfirmed(Confirm(w.task.targets, nodes))
  {
    var targets := Confirm(w.task.targets, nodes);
    assert n in targets && targets[n].answer == Awaited;
    assert n in TimeOut(targets) && TimeOut(targets)[n].answer == TimedOut;
  }

  function Overlooked(version: nat, serves: set<SiteId>): Node {
    Node(Active, Some(Desired(version, serves)), 1)
  }

  // The site is still there and so is its node, told but silent.
  ghost predicate IsSilent(db: Db, site: SiteId, node: NodeId) {
    && db.nodes == map[node := Overlooked(2, {})]
    && site in db.sites && db.sites[site].nodes == {node}
  }

  ghost predicate AwaitsNode(db: Db, site: SiteId, node: NodeId, deadline: Time) {
    && IsSilent(db, site, node) && IsBeingDeleted(db, site) && db.tasks[db.jobs[site].task].site == site
    && var w := Work(db.jobs[site].phase, db.tasks[db.jobs[site].task]);
       && w.phase == WaitingForEdges && w.task.deadline == deadline
       && node in w.task.targets && w.task.targets[node] == Target(2, Awaited)
  }

  lemma FirstAttempt(db: Db, db': Db, site: SiteId, node: NodeId, deadline: Time, now: Time)
    requires db.nodes == map[node := Overlooked(1, {site})] && now < deadline
    requires site in db.sites && db.sites[site].nodes == {node}
    requires ReachesEnd(Begun(db, site, deadline), db', db.next, now)
    ensures AwaitsNode(db', site, node, deadline)
  {
    var begun := Begun(db, site, deadline);
    var w := WorkOf(begun, db.next);
    assert IsTarget(db.nodes, site, {node}, node);
    SilenceTimesOut(w, db.nodes, {node}, node, now);
    GoneIffConfirmed(w, db.nodes, {node}, now);
    assert {site} - {site} == {};
    assert Told(db.nodes[node], site) == Overlooked(2, {});
  }

  lemma Deadline(db: Db, db': Db, site: SiteId, node: NodeId, deadline: Time, now: Time)
    requires AwaitsNode(db, site, node, deadline) && now >= deadline
    requires ReachesEnd(db, db', db.jobs[site].task, now)
    ensures IsSilent(db', site, node) && !IsBeingDeleted(db', site)
  {
    DeadlineFails(WorkOf(db, db.jobs[site].task), db.nodes, node, now);
  }

  lemma SecondAttempt(db: Db, db': Db, site: SiteId, node: NodeId, deadline: Time, now: Time)
    requires IsSilent(db, site, node) && ReachesEnd(Begun(db, site, deadline), db', db.next, now)
    ensures site !in db'.sites && db'.nodes == db.nodes
  {
    assert !IsTarget(db.nodes, site, {node}, node);
    assert TargetsOf(db.nodes, site, {node}) == map[];
    assert NodesWithout(db.nodes, site, {node}) == db.nodes;
  }

  // It can happen without any failure: a node misses the deadline, the
  // deletion is tried again, and the site goes while that node still runs it.
  method RetryOverlooksNode(site: SiteId, node: NodeId) returns (m: SiteDeletionManager)
    ensures fresh(m) && Valid(m.db, m.log)
    ensures m.faults == 0 ==>
      && site !in m.db.sites && node in m.db.nodes && m.db.nodes[node].status == Active
      && m.db.nodes[node].applied == 1 && m.db.nodes[node].desired == Some(Desired(2, {}))
  {
    m := new SiteDeletionManager(map[site := Site(true, false, {node})], map[node := Overlooked(1, {site})]);
    ghost var db := m.db;
    var ok := m.Start(site, 90, false, 0);
    if m.faults == 0 {
      FirstAttempt(db, m.db, site, node, 90, 0);
    }
    db := m.db;
    ok := m.Status(site, 100);
    if m.faults == 0 {
      Deadline(db, m.db, site, node, 90, 100);
    }
    db := m.db;
    ok := m.Start(site, 190, false, 100);
    if m.faults == 0 {
      SecondAttempt(db, m.db, site, node, 190, 100);
    }
  }

  // ---------- a draft that comes late ----------

  // It can happen without any failure: the save of a draft reads the site, its
  // deletion begins, and the save enables it again with that under way.
  method LateDraftReenables(site: SiteId, node: NodeId) returns (m: SiteDeletionManager)
    ensures fresh(m) && Valid(m.db, m.log)
    ensures m.faults == 0 ==>
      && site in m.db.sites && m.db.sites[site] == Site(true, false, {node})
      && IsBeingDeleted(m.db, site)
  {
    m := new SiteDeletionManager(map[site := Site(true, false, {node})], map[node := Overlooked(1, {site})]);
    ghost var db := m.db;
    var ok := m.ReadDraft(site);
    ok := m.Start(site, 90, false, 0);
    if m.faults == 0 {
      FirstAttempt(db, m.db, site, node, 90, 0);
    }
    ok := m.WriteDraft(0, true, {node});
  }
}

# Verified model of the CDN control plane and edge agent

The repository is a self-hosted CDN: a control plane in Go and an agent on every
edge node. Its risky parts are small protocols on files, databases, queues and
remote APIs, in which every step can fail, take effect without a reply, or be the
last one before a crash. This project models those protocols in Dafny, in the
form that the Go code has (objects whose methods update fields and disks, loops
with early returns), and proves what they promise over every run.

A failing operation is a nondeterministic choice in the method that stands for
it (`Disk`, `ClickHouse`, `Zone`, `Host` and the like). A crash is the run in
which every later operation fails, or a stop that a method may make by itself,
so a statement about all patterns of failures is one about all crash points.
A ghost field `faults` counts the failures, so that contracts can say what needs
one to go wrong, and what survives a single one.

| files | protocol |
|---|---|
| `RestoreDisk`, `PathSwap`, `TlsCutover`, `RestoreDatabases`, `RestoreCutover` | online-restore cutover of files, TLS directory and ClickHouse |
| `LogLines`, `LogQueue`, `LogPipeline` | access-log collection, on-disk queue, batching, acknowledgement |
| `Publication`, `Publisher` | incremental publication against a full rebuild |
| `DnsRecords`, `DnsReconcile`, `DnsSites` | DNS reconciliation and the rounds that drive it |
| `EdgeHost`, `EdgeApply` | applying a desired state on an edge node |
| `RateLimit`, `RateEscalation` | the sliding-window limiter and its bans |
| `ConfigFragments`, `HttpConfig`, `StreamConfig` | printing, rendering and cutting Nginx configuration |
| `LocalBans`, `BanSync` | bans of a node, merged and kept in the firewall |
| `Monitoring`, `MonitoringStore` | scoring of monitoring rounds and automatic pausing |
| `DeletionTasks`, `SiteDeletion` | the phases of a site deletion and their confirmation by the nodes |
| `TargetNames` | unique-name migration |
| `Strings`, `Options`, `NodeStatuses` | shared |

## Where a promise does not hold

Each of these has a lemma that shows it, or an if-and-only-if that gives the exact
condition.

- ClickHouse after a crash between the two renames: the next process fails with an
  ordinary error, its rollback has nothing to undo, the temporary database is
  dropped and the job reads "rolled back", while nothing is left under the current
  name (`RestoreDatabases.CrashBetweenRenames`, `RestoreDatabases.FailureAfterCrash`).
- TLS cutover: a staged entry whose name starts with `before-restore-` takes the
  place of an entry that stays in the root, and no rollback brings that one back
  (`TlsCutover.RollbackRestoresIff`, `TlsCutover.CollisionLosesAnEntry`).
- WAL and SHM swaps have no staged copy: they cannot be applied again after a crash
  (`PathSwap.ReapplyWithoutCopy`).
- Log records over 2 MiB are written to the queue but skipped when it is read
  (`LogLines.ReadBackIff`); the pipeline theorems say so of every run, and
  `LogLines.AllLast` when nothing is lost in this way.
- DNS: of two owned records with one key only one is managed, so a successful run
  converges exactly when keys were distinct (`DnsReconcile.FinishedIsConverged`).
- DNS: a run that is refused has made the calls for the keys before the first conflict
  (`DnsReconcile.ReconcileWanted`). It is sure to have made none if and only if every
  wanted key is in conflict or held by its owner with the wanted settings
  (`DnsReconcile.NoCallsIff`); `DnsReconcile.RefusedAfterCreate` is a run that has.
- The limiter admits more than its limit in a second that starts at fraction f exactly
  where f times the limit is over 1 (`RateLimit.LimitHoldsIff`), but at most (1 + f)
  times the limit; `RateLimit.ExceedLimit` is a run with one more than the limit.
- A synchronisation of bans that is skipped leaves the firewall out of step exactly if
  it was so before (`BanSync.SecurityManager.SyncBans`); with files that can be written
  that never happens (`BanSync.Run`), and after a failed write of the log offset it can
  (`BanSync.LaggingIsOverlooked`).
- A site deletion that is tried again after a timeout waits for no node that was told
  before, so the site can go while an active node still runs it
  (`SiteDeletion.RetryOverlooksNode`); its confirmations are complete exactly when no
  node lagged as they were told (`DeletionTasks.DroppedIffNoneLags`).
- The save of a draft that has read the site before its deletion began, and writes it
  afterwards, takes the mark off and can enable the site again with its deletion under
  way (`SiteDeletion.LateDraftReenables`, `SiteDeletion.SiteDeletionManager.WriteDraft`).
  Only such a write does that (`SiteDeletion.SiteDeletionManager.Run`).
- A collection of the log whose saved offset cannot be read starts over: a lapse, after
  which events can be there twice (`LogPipeline.Collect`, `LogPipeline.CollectsAgain`).
- Publishing twice gives the same state for every previous one if and only if the
  TCP-only placeholder is rendered without the words `listen 80` and `listen 443`, which
  policy text could bring in (`Publication.AlwaysStableIff`).
- A directory of fragments that a failed removal has left empty is in the way of the
  state that it was for (`EdgeApply.EmptyIsInTheWay`).
- A failure to write `applied-version` reports a failed apply but keeps the new
  state (`EdgeApply.Apply`).

## Model

| member | source | states |
|---|---|---|
| PathSwap.RestorePathSwap.Apply | internal/control/online_restore_apply.go:338-419 | with failures anywhere, apply ends on a snapshot of its uninterrupted run; it is refused exactly in the states that ask for a manual rollback, succeeds without failures otherwise, and no rename destroys anything |
| PathSwap.RestorePathSwap.Resume | internal/control/online_restore_apply.go:363-396 | the branch for data that an earlier process put aside: equal live and staged data are accepted, different ones refused, missing ones refused |
| PathSwap.RestorePathSwap.Begin | internal/control/online_restore_apply.go:397-418 | the branch of a fresh start, one snapshot after the other |
| PathSwap.RestorePathSwap.Equivalent | internal/control/online_restore_apply.go:374-380 | live and staged data are compared, and a failure to compare is told apart from a difference |
| PathSwap.RestorePathSwap.Rollback | internal/control/online_restore_apply.go:421-436 | a rollback of flags that tell the truth goes through its trace and, without an error, to its end, without destroying anything; with a free way back it errs only where an operation fails |
| PathSwap.ApplyLeavesUndoable | internal/control/online_restore_apply.go:368-391 | wherever apply stops, its flags are fit for a rollback |
| PathSwap.RollbackUndoesApply | internal/control/online_restore_apply.go:338-436 | from a fresh start a rollback after apply stopped anywhere brings back live, staged, backup and marker paths |
| PathSwap.ApplyKeepsSafe | internal/control/online_restore_apply.go:338-436 | no stop of apply, nor of a rollback after it, leaves the original in neither place |
| PathSwap.NextKeepsSafe | internal/control/online_restore_apply.go:112-131 | the same for one event of a run, staging again included |
| PathSwap.OriginalSurvivesEveryRun | internal/control/online_restore_apply.go:338-436 | over any run of crashing, failing, rolling back and newly staging processes the original is live, in the backup, or marked as absent |
| PathSwap.ReapplyConverges | internal/control/online_restore_apply.go:363-396 | after any such run, staging the copy again and applying it ends as one uninterrupted apply does |
| PathSwap.ReapplyWithoutCopy | internal/control/online_restore_apply.go:364-366 | without a staged copy (WAL and SHM) the next apply is refused exactly when the original is still put aside |
| TlsCutover.RestoreTLSCutover.Begin | internal/control/online_restore_apply.go:469-499 | the renames done so far are exactly those recorded, wherever the two loops stop; without an error all of them are done, and an error means a failed operation unless a staged name is taken in the root |
| TlsCutover.BackUpIsFree | internal/control/online_restore_apply.go:480-486 | no rename to the backup directory meets an entry there |
| TlsCutover.RootIsFree | internal/control/online_restore_apply.go:488-499 | no rename from the stage meets an entry in the root, where no staged name is kept there |
| TlsCutover.RestoreTLSCutover.InstallStaged | internal/control/online_restore_apply.go:488-499 | the second loop, on top of a root that is backed up completely |
| TlsCutover.RestoreTLSCutover.Apply | internal/control/online_restore_apply.go:438-500 | which branch runs, and what either one leaves |
| TlsCutover.RestoreTLSCutover.Resume | internal/control/online_restore_apply.go:439-465 | an existing backup directory is accepted exactly when the stage is empty or equals what is live, with nothing changed otherwise; wherever the removal of duplicates stops, the names for a rollback are known |
| TlsCutover.RestoreTLSCutover.CaptureAppliedState | internal/control/online_restore_apply.go:502-524 | the names for a rollback are read off the directories |
| TlsCutover.RestoreTLSCutover.LiveMatchesStage | internal/control/online_restore_apply.go:526-557 | tells whether the live entries are exactly the staged ones |
| TlsCutover.RestoreTLSCutover.Rollback | internal/control/online_restore_apply.go:559-577 | a rollback without an error moves every recorded name back, also with duplicates left in the stage; without any left it errs only where an operation fails; former entries survive in any case |
| TlsCutover.RestoreTLSCutover.ReturnStaged | internal/control/online_restore_apply.go:561-566 | the installed entries go back to the stage, last one first, whatever a resume has left there; without duplicates each place there is free |
| TlsCutover.RestoreTLSCutover.ReturnOne | internal/control/online_restore_apply.go:561-566 | one of these renames puts one name back |
| TlsCutover.RestoreTLSCutover.ReturnFormer | internal/control/online_restore_apply.go:567-576 | the former entries go back to the root; the backup directory goes only if nothing failed |
| TlsCutover.CompleteCutover | internal/control/online_restore_apply.go:478-499 | on success the root holds exactly the staged entries and the backup exactly the former ones |
| TlsCutover.RollbackRestores | internal/control/online_restore_apply.go:559-577 | after a rollback of any part root and stage are as before, entry for entry, if and only if no installed entry took the place of one that the cutover leaves in the root |
| TlsCutover.RollbackRestoresIff | internal/control/online_restore_apply.go:438-577 | a finished cutover that is rolled back restores what it found if and only if no staged entry has the name of one that stays in the root |
| TlsCutover.CollisionLosesAnEntry | internal/control/online_restore_apply.go:480-498 | the input that shows the exception, with the names of a job: a staged entry named like a retained older backup |
| TlsCutover.ResumedCutoverIsRecorded | internal/control/online_restore_apply.go:444-465 | a resumed cutover knows the names that its rollback needs, also where the removal of duplicates stops |
| RestoreDatabases.ClickHouse.RenameObserved | internal/control/online_restore_apply.go:301-318 | a lost reply is made up for: success means renamed, an ordinary error means not renamed, and one failure alone never asks for a manual rollback |
| RestoreDatabases.ClickHouse.Promote | internal/control/online_restore_apply.go:255-299 | what the catalog and the two flags are for every outcome; it succeeds unless an operation fails, and it takes two failures for it to ask for a manual rollback |
| RestoreDatabases.ClickHouse.RollbackPromotion | internal/control/online_restore_apply.go:320-336 | the renames that are undone, that no error means all that were due, and that an error means a failed operation |
| RestoreDatabases.PromotionCanBeRolledBack | internal/control/online_restore_apply.go:320-336 | after a first promotion the names of a rollback are free, unless a manual one was asked for |
| RestoreDatabases.FailedPromotionIsUndone | internal/control/online_restore_apply.go:133-141 | a first promotion that fails without asking for a manual rollback, and a rollback without an error, leave all three names as they were |
| RestoreDatabases.SuccessfulPromotionCanBeUndone | internal/control/online_restore_apply.go:198-201 | so does a rollback after a promotion that succeeded |
| RestoreDatabases.NothingIsDropped | internal/control/online_restore_apply.go:255-336 | in every outcome the old and the restored contents each survive under some name |
| RestoreDatabases.FailureAfterCrash | internal/control/online_restore_apply.go:269-280 | in a process started after a crash, a failed promotion and its rollback restore the names if and only if it still finds the temporary database and no rollback database |
| RestoreDatabases.CrashBetweenRenames | internal/control/online_restore_apply.go:278-280 | the input that shows the exception: after a crash between the renames promotion fails and nothing is left under the current name |
| RestoreCutover.UndoOne | internal/control/online_restore_apply.go:421-436 | one swap, stopped anywhere, is undone by its own rollback |
| RestoreCutover.ApplyOne | internal/control/online_restore_apply.go:192-204 | a swap that fails is rolled back at once; that takes one failed operation, and another one for the swap not to be undone |
| RestoreCutover.ApplyNext | internal/control/online_restore_apply.go:192-204 | one more swap of the list arrives, or none of the later ones is touched |
| RestoreCutover.ApplySwaps | internal/control/online_restore_apply.go:192-204 | the completed swaps have arrived, the failed one is undone, the rest is untouched, for any number of disjoint swaps |
| RestoreCutover.RollbackSwaps | internal/control/online_restore_apply.go:185-189 | undoing the completed swaps in reverse order restores each of them |
| RestoreCutover.RollbackFiles | internal/control/online_restore_apply.go:180-191 | TLS first, then the swaps: without an error, which needs a failed operation, every path but the backup directory is as at the start, and the originals survive in any case |
| RestoreCutover.CommittedByParts | internal/control/online_restore_apply.go:192-218 | without a failure every swap and the TLS directory hold what was staged, and the originals are put aside |
| RestoreCutover.ApplyFiles | internal/control/online_restore_apply.go:192-218 | the files are all committed, or all restored if the rollback had no error |
| RestoreCutover.ApplyTls | internal/control/online_restore_apply.go:205-218 | once the swaps are done: the TLS directory and the check of the configuration complete the commitment, or all is taken back |
| RestoreCutover.FailPending | internal/control/online_restore_apply.go:669-691 | the temporary database is dropped only after a complete rollback |
| RestoreCutover.ApplyPending | internal/control/online_restore_apply.go:133-235 | from a fresh start the cutover ends committed in files and databases, or with everything restored, or says that the rollback is incomplete; it completes if nothing fails, one failed operation at any place never leaves it incomplete, and the originals survive in every ending |
| LogLines.DecodedConcat | internal/edge/logs.go:219-224 | reading can stop after any complete line and go on later |
| LogLines.ReadBackIff | internal/edge/log_queue.go:111-142 | a queued record is read back if and only if it is within the record limit; a longer one is lost |
| LogLines.AllLast | internal/edge/log_queue.go:111-142 | nothing is lost of a log whose events all have records within the limit |
| LogLines.InOrderTransitive | internal/edge/log_queue.go:37-109 | being contained in order carries over, for the at-least-once statement |
| LogQueue.QueueAppender.constructor | internal/edge/log_queue.go:336-367 | the appender knows the size of the queue, the next number and the newest segment with room |
| LogQueue.QueueAppender.NextFree | internal/edge/log_queue.go:420-437 | the loop for an unused segment number ends with the next one if none is in the way, and fails only at the last number |
| LogQueue.SortedBelowLast | internal/edge/log_queue.go:345-361 | the newest segment has the greatest number, so that the next one is free |
| LogQueue.QueueAppender.OpenFile | internal/edge/log_queue.go:411-438 | a new empty segment changes nothing that is still to be read |
| LogQueue.QueueAppender.Write | internal/edge/log_queue.go:399-408 | a written record is at the end of what is still to be read, a failed one nowhere |
| LogQueue.QueueAppender.Prepare | internal/edge/log_queue.go:387-398 | a segment is closed before a record would take it over its limit |
| LogQueue.QueueAppender.Append | internal/edge/log_queue.go:383-409 | full is answered exactly when the record would exceed the queue limit, and then nothing changes; a segment stays within its limit or is a single record; an error means a failed operation or that segment numbers are used up |
| LogQueue.GrowRest | internal/edge/log_queue.go:399-408 | growing the newest segment appends to the queue as one text |
| LogQueue.OpenRest | internal/edge/log_queue.go:424-436 | so does opening an empty one, with nothing |
| LogPipeline.AppendEvent | internal/edge/logs.go:181-195 | the pending events grow by this event, exactly when it was written and its record can be read back; there is no room exactly when its record would exceed the queue limit |
| LogPipeline.ScanLine | internal/edge/logs.go:166-173 | a line is found exactly when complete and within the scanner's buffer |
| LogPipeline.CollectLine | internal/edge/logs.go:173-197 | an undecodable line is skipped, a decodable one is queued once |
| LogPipeline.CollectRound | internal/edge/logs.go:173-198 | position and pending events advance together by one line, or there is a reason to stop |
| LogPipeline.Collect | internal/edge/logs.go:138-217 | the pending events become what they were followed by the decoded lines from the saved offset, or from the start of the log if that cannot be read, up to the position reached; the saved offset moves there or, after a failure, stays; where nothing fails it stops only at the end of the complete lines, at an event that has no room, at a line that is too long, or with the segment numbers used up |
| LogPipeline.CollectLines | internal/edge/logs.go:162-198 | the loop goes on line by line until there is a reason to stop, or a crash |
| LogPipeline.SaveOffset | internal/edge/logs.go:202-209 | the offset is saved last, and only if the queue was closed without an error |
| LogPipeline.ReadRecord | internal/edge/log_queue.go:111-142 | chunked reading yields the whole record, or an empty line for one over the limit, and how far it reached |
| LogPipeline.ReadBatch | internal/edge/log_queue.go:75-108 | a batch is a whole number of records with all their events, at most 4 MiB and the record limit, and always gets ahead if something is left |
| LogPipeline.TakeRecord | internal/edge/log_queue.go:75-108 | one record more is read, unless there is none or its event would exceed 4 MiB |
| LogPipeline.NextBatch | internal/edge/log_queue.go:37-109 | on a well-formed queue a batch is read from the oldest segment, and neither a cursor ahead of it nor an offset outside of it can occur; the error for no read progress has no case |
| LogPipeline.CursorMoves | internal/edge/log_queue.go:152-159 | moving the cursor over a batch takes exactly its events off the pending ones |
| LogPipeline.OldestGoes | internal/edge/log_queue.go:163-169 | removing a segment that was read to its end changes nothing pending |
| LogPipeline.AckBatch | internal/edge/log_queue.go:144-170 | with a failure at any operation the batch is off the queue or the queue is as it was |
| LogPipeline.FlushBatch | internal/edge/logs.go:254-290 | what passed the cursor was taken by the server; an error means that something failed, and after the upload the batch may still be pending |
| LogPipeline.Drain | internal/edge/logs.go:231-252 | the loop ends without its deadline; what it moved over was sent, in order; if nothing fails in time, all that was pending is sent and the queue is empty |
| LogPipeline.CollectDelivers | internal/edge/logs.go:199-209 | a collection that saves its offset keeps acknowledged plus pending equal to the decoded lines; one that does not keeps them contained in order |
| LogPipeline.CollectsAgain | internal/edge/logs.go:292-299 | one that starts over, as its offset could not be read, keeps them contained in order too |
| LogPipeline.CollectStep | internal/edge/logs.go:138-217 | a collecting step of a run, crashed or not |
| LogPipeline.DrainStep | internal/edge/logs.go:231-290 | a delivering step of a run, crashed or not |
| LogPipeline.Run | internal/edge/logs.go:138-290 | for any codec, over any run, the events of every line before the saved offset, but for those whose record is too long to be read back, are in order among what the server took and what is pending; exactly once when no step lapsed; if nothing failed the server has exactly those; the queue stays within its limit |
| Publication.DesiredIsStable | internal/control/publisher.go:287-289 | rendering again on top of what was rendered gives the same, although the previous state decides about the TCP-only placeholder |
| Publication.AlwaysStableIff | internal/control/publisher.go:287-289 | it does so for all sites and previous states of a node if and only if the placeholder, where it can be rendered, has a stream part and does not listen on the public HTTP ports |
| Publication.OnlyHostedMatter | internal/control/publisher.go:272-282 | only the publications on a node matter to its state |
| Publication.SameHosted | internal/control/publisher.go:272-282 | two snapshots that agree on a node's sites give it the same sites in the same order |
| Publication.OtherNodesKeepTheirSites | internal/control/publisher.go:181-222 | publishing a site changes nothing for nodes that neither its old nor its new version is on |
| Publisher.RebuiltIsSettled | internal/control/publisher.go:287-326 | after a rebuild the node's state is what a rebuild would give |
| Publisher.SettledIsNotUpdated | internal/control/publisher.go:320-326 | such a node gets no update |
| Publisher.RebuildVersions | internal/control/publisher.go:320-327 | a version rises by one exactly when the content changes |
| Publisher.RebuildSettles | internal/control/publisher.go:235-342 | saving the updates settles the affected nodes and leaves settled ones settled |
| Publisher.SettledMeansNoUpdates | internal/control/publisher.go:320-326 | a rebuild of settled nodes has no updates |
| Publisher.RebuildInPlace | internal/control/publisher.go:63-108 | what saving a rebuild of the stored snapshot does, on all nodes or on some |
| Publisher.SitePublisher.DecryptMaterials | internal/control/publisher.go:358-394 | fails exactly when a site on an affected node lacks a usable certificate; otherwise every affected node gets its sites in order |
| Publisher.SitePublisher.RenderUpdates | internal/control/publisher.go:235-342 | every affected, live node is updated to its desired content or has it already; no other node is updated |
| Publisher.SitePublisher.Rebuild | internal/control/publisher.go:235-342 | the same on a snapshot of publications |
| Publisher.SitePublisher.PublishAll | internal/control/publisher.go:63-86 | success settles all nodes; on settled ones nothing changes |
| Publisher.SitePublisher.PublishNode | internal/control/publisher.go:90-108 | success settles the node, others are untouched |
| Publisher.SitePublisher.PrepareSite | internal/control/publisher.go:158-233 | the updates are those of a rebuild with the draft in place, on the nodes of the old and the new version, or on all after a migration |
| Publisher.SitePublisher.PublishSite | internal/store/publication.go:121-173 | snapshot and node states change together or not at all, and settled nodes stay settled |
| Publisher.SitePublisher.StageSiteRemoval | internal/control/publisher.go:148-156 | the nodes of the site are rebuilt without it, the others stay settled for that snapshot |
| Publisher.RemovalKeepsOthers | internal/control/publisher.go:195-199 | leaving out a site changes nothing for nodes it is not on |
| Publisher.PublishedSettles | internal/store/publication.go:121-173 | the incremental update is as good as a full one |
| Publisher.StillDecrypts | internal/control/publisher.go:358-394 | a publication leaves no site that would make a full rebuild fail for its certificate |
| Publisher.Run | internal/control/publisher.go:28-108 | after a full publication any sequence of successful publications leaves states on which another full publication changes nothing and can only fail if the store does |
| DnsRecords.KeyIsInjective | internal/integrations/cloudflare.go:248-254 | keys tell records apart that differ in canonical name, content or comment |
| DnsRecords.OwnerIsUnique | internal/integrations/cloudflare.go:130-134 | no record belongs to two owners |
| DnsReconcile.BuildManaged | internal/integrations/cloudflare.go:129-135 | every owned key has one of its records in the map |
| DnsReconcile.PlaceOne | internal/integrations/cloudflare.go:136-153 | one wanted key is refused, already there, updated or created, with its effect on the zone and one call exactly for the latter two; it is refused only for a conflict or a failed call |
| DnsReconcile.PlacingOne | internal/integrations/cloudflare.go:142-152 | a write for one key leaves the keys before it as they were placed |
| DnsReconcile.PlaceAll | internal/integrations/cloudflare.go:136-153 | the same for all wanted keys, in the order of the range over them; the calls are those for the keys before the first conflict, all of them unless one fails |
| DnsReconcile.NoCallsIff | internal/integrations/cloudflare.go:136-153 | whatever the order of the range and the choice among records of one key, no call is made for a wanted key, if and only if each of them is in conflict or held as wanted |
| DnsReconcile.IdleMeansNoCalls | internal/integrations/cloudflare.go:136-153 | the one half of it, for any order |
| DnsReconcile.BusyKeyGetsCall | internal/integrations/cloudflare.go:136-153 | the order and the choice that show the other half |
| DnsReconcile.PruneOne | internal/integrations/cloudflare.go:154-161 | one managed record goes if its key is not wanted, unless the call fails |
| DnsReconcile.PruneAll | internal/integrations/cloudflare.go:154-161 | exactly the managed records of unwanted keys go |
| DnsReconcile.ReconcilingLeavesOthers | internal/integrations/cloudflare.go:136-161 | no state of a run differs in a record of another owner |
| DnsReconcile.ReconcilingKeepsNames | internal/integrations/cloudflare.go:136-161 | in no state of a run is a wanted name without a managed record if it had one |
| DnsReconcile.FinishedIsConverged | internal/integrations/cloudflare.go:136-162 | after a run without an error the owned records are the wanted ones, if and only if no key was held twice before |
| DnsReconcile.TwiceStaysTwice | internal/integrations/cloudflare.go:129-135 | of two owned records with one key the one that is not in the map stays |
| DnsReconcile.ConvergedNeedsNothing | internal/integrations/cloudflare.go:142-157 | on a converged zone there is nothing to write |
| DnsReconcile.ReconcileWanted | internal/integrations/cloudflare.go:129-162 | every API call leaves a state between the two loops; a converged zone gets no call; no error means that no name was held by others, and an error that one was or that a call failed; a list in conflict gets exactly the calls for the keys before the first conflict, and none if every key is in conflict or held as wanted |
| DnsReconcile.RefusedAfterCreate | internal/integrations/cloudflare.go:136-153 | the run that is refused after it has created a record, on any zone where one wanted key is new and another in conflict |
| DnsSites.ScopeIsFaithful | internal/integrations/cloudflare.go:248-258 | the records of Cloudflare meet what the loops rely on |
| DnsSites.WantedComesFromDesired | internal/integrations/cloudflare.go:118-128 | every wanted record is a desired one, normalised, and every desired key is wanted |
| DnsSites.BuildWanted | internal/integrations/cloudflare.go:118-128 | accepts exactly lists of valid records |
| DnsSites.Reconcile | internal/integrations/cloudflare.go:100-163 | all of the above for a list of desired records; unnamed zones and invalid records are refused before any call, and nothing is refused for another reason than these, a conflict or a failed call; a list in conflict that asks for no call gets none |
| DnsSites.Classify | internal/control/health.go:511-572 | which assigned nodes are healthy, active or converging; it fails only where a read of the store does |
| DnsSites.BuildDesired | internal/control/health.go:589-603 | one record for every healthy node and name, and no other |
| DnsSites.CallIsHarmless | internal/control/health.go:589-609 | no call of a round touches another owner, nor empties a name while a node is healthy |
| DnsSites.ConvergedPointsToHealthy | internal/control/health.go:589-603 | converged records are those of the healthy nodes, for every name |
| DnsSites.PointTo | internal/control/health.go:604-609 | a reconciliation towards the healthy nodes, with all its calls; with valid entries and names that no one else holds it fails only where a call does |
| DnsSites.CanPointIsEnough | internal/control/health.go:589-603 | valid entries of the healthy nodes under free names make a list that is not refused |
| DnsSites.ReconcileSite | internal/control/health.go:502-611 | converging nodes, or only unfit ones, defer every call, and the latter are reported; success points the names to exactly the healthy nodes, and with nothing in its way a round fails only where an operation does |
| DnsSites.Run | internal/control/health.go:502-611 | over any rounds that each have an active node, interleaved with changes by others and failures at any call, no call leaves a site name empty that had a managed record |
| DnsSites.OwnerIsForSite | internal/control/health.go:598-607 | the records of a site carry the prefix of its owner |
| DnsSites.PointsToAddress | internal/control/health.go:598-601 | such a record holds the node's address under the name |
| EdgeHost.Restore | internal/edge/agent.go:852-860 | without a failure every file of a backup holds what was backed up, and nothing else is touched |
| EdgeApply.BackUp | internal/edge/agent.go:885-899 | the backups are what the files hold |
| EdgeApply.StageCertificates | internal/edge/agent.go:862-919 | success leaves exactly the desired managed certificates; a failure whose restoring succeeds leaves every file as it was |
| EdgeApply.InstallCertificates | internal/edge/agent.go:900-917 | the desired certificates are written and the stale ones removed; nothing else changes |
| EdgeApply.CertificatesAreInstalled | internal/edge/agent.go:900-917 | writing the desired and removing the stale files installs the certificates |
| EdgeApply.EntriesAre | internal/edge/agent.go:573-591 | a directory of fragments has one file for the base and one for every site |
| EdgeApply.CollectEntries | internal/edge/agent.go:554-563 | accepts exactly valid, non-empty and distinct fragments |
| EdgeApply.DirectoryMatches | internal/edge/agent.go:573-609 | a directory is absent, holds exactly the fragments, or cannot be used, as one that is there and empty |
| EdgeApply.CreateDirectory | internal/edge/agent.go:543-570 | a directory appears complete or not at all |
| EdgeApply.StageDirectory | internal/edge/agent.go:528-571 | success leaves the directory with exactly the fragments, and says whether it is new; it needs sound fragments and no other directory in the way, be it an empty one, and fails otherwise only where an operation does |
| EdgeApply.EmptyIsInTheWay | internal/edge/agent.go:573-609 | a directory that is there and empty, as a failed removal can leave it, cannot be staged |
| EdgeApply.RemoveCreated | internal/edge/agent.go:405-412 | removing the new directories leaves the files as they were before |
| EdgeApply.StageFragments | internal/edge/agent.go:500-526 | both directories hold their fragments, or nothing has changed; two failures are needed for new directories to stay behind |
| EdgeApply.AddFragmentBackups | internal/edge/agent.go:708-741 | succeeds, if nothing fails, exactly when the index can be followed to a directory with files, all of which are backed up |
| EdgeApply.BackUpConfiguration | internal/edge/agent.go:378-388 | the four files and the active fragments are backed up |
| EdgeApply.WriteConfiguration | internal/edge/agent.go:420-446 | only the four files change, to what the state says |
| EdgeApply.TakeBack | internal/edge/agent.go:743-748 | without a failure all files are as before, and a reload, after a test, makes Nginx run them again |
| EdgeApply.BackLoadsTheSame | internal/edge/agent.go:743-748 | new directories that are still there do not change what Nginx loads |
| EdgeApply.Stage | internal/edge/agent.go:396-422 | certificates and fragments are staged, or all files are as before |
| EdgeApply.CertifiedStages | internal/edge/agent.go:396-422 | staging certificates does not change whether the fragments can be staged |
| EdgeApply.Activate | internal/edge/agent.go:423-482 | any failure from the first configuration file to the listener check takes everything back; success means that Nginx was tested, loaded and seen to listen with these files |
| EdgeApply.OutsideConfiguration | internal/edge/agent.go:420-446 | writing the configuration leaves the directories of fragments alone |
| EdgeApply.CleanUp | internal/edge/agent.go:629-651 | only directories of fragments that are not active go |
| EdgeApply.StaysInstalled | internal/edge/agent.go:488-491 | recording the version and cleaning up change nothing that is installed or loaded |
| EdgeApply.Record | internal/edge/agent.go:483-498 | a version that cannot be written is reported, with the new state kept |
| EdgeApply.Apply | internal/edge/agent.go:373-498 | a state is applied exactly when it has its ports, the active indexes can be followed and its fragments can be staged, unless an operation fails; a failure before the listeners are confirmed leaves the files, and Nginx, as they were, unless a second one hits the taking back; success, and a failure to record the version, leave the desired state installed, running and confirmed; applied-version changes exactly on success |
| RateLimit.WindowBound | internal/nginx/render.go:804-818 | of the counted requests of a client at most (1 + f) times the limit pass in a second that starts at fraction f |
| RateLimit.Limiter.RequestBound | internal/nginx/render.go:866-887 | the same for the limiter as it stands after any requests and responses |
| RateLimit.LimitIsExceeded | internal/nginx/render.go:804-818 | wherever limit times f is over 1, a history of the rate in which one more than the limit passes in a second that starts at f |
| RateLimit.ExceedLimit | internal/nginx/render.go:866-887 | requests through the limiter that make it so: unless memory runs out, one more of them is admitted than the limit |
| RateLimit.LimitHoldsIff | internal/nginx/render.go:804-818 | the limit bounds every second that starts at fraction f if and only if limit times f is at most 1 |
| RateLimit.LimitHolds | internal/nginx/render.go:804-818 | the one half of it, for any history |
| RateLimit.SmallFraction | internal/nginx/render.go:817-817 | the arithmetic of the exact bound |
| RateLimit.LastPassed | internal/nginx/render.go:876-881 | the last request to pass in a second was within the rate at its own fraction |
| RateLimit.SecondBound | internal/nginx/render.go:804-818 | in one calendar second the limit is a bound |
| RateLimit.NextSecondBound | internal/nginx/render.go:804-818 | what passed so far in a second and the uncovered part of the one before are together within the limit |
| RateLimit.TwoParts | internal/nginx/render.go:817-817 | the arithmetic of the two buckets |
| RateLimit.Limiter.Increment | internal/nginx/render.go:808-812 | a live bucket grows and keeps its expiry, a new one starts at one with three seconds to live |
| RateLimit.Limiter.Count | internal/nginx/render.go:808-816 | a counted request or response joins the history, and the count read is that of its second |
| RateLimit.Limiter.CheckPolicy | internal/nginx/render.go:876-886 | the buckets stay equal to the history of counted requests although they expire; a request is rejected exactly when the rate of that history is over the limit, or at it for policies that count responses |
| RateLimit.Limiter.CheckNext | internal/nginx/render.go:876-886 | one policy more: a request that gets on has passed it and all before it |
| RateLimit.OneMorePassed | internal/nginx/render.go:876-886 | counting for one policy leaves what the others have seen |
| RateLimit.Limiter.Access | internal/nginx/render.go:866-887 | the first policy whose rate is exceeded rejects; an admitted request has passed every policy, unless memory ran out, and the counting policies up to the deciding one have counted it, each once |
| RateLimit.CountedOneMore | internal/nginx/render.go:866-887 | one policy more has counted the request, as passed or rejected, if it counts requests |
| RateLimit.Limiter.Response | internal/nginx/render.go:889-905 | the response is counted by exactly the policies for the class of its status, in order and once each, but for as many as had no memory for it |
| RateLimit.Run | internal/nginx/render.go:866-905 | over any requests and replies, while there is memory for buckets, at most (1 + f) times the limit of a client's requests are admitted in a second that starts at fraction f, for every policy that counts requests |
| RateLimit.AdmissionIsCounted | internal/nginx/render.go:866-887 | an admitted request has been counted as passed by every such policy |
| RateLimit.OneMoreChecked | internal/nginx/render.go:876-886 | a policy that rejects leaves what those before it have let pass |
| RateLimit.RepliesOneMore | internal/nginx/render.go:900-904 | one policy more has counted the response if it is for its class |
| RateLimit.ConsistentAfter | internal/nginx/render.go:804-818 | the state of all policies after one counted request |
| RateEscalation.UnbrokenIsClose | internal/nginx/render.go:841-845 | strikes of a streak follow each other within the time to live, with no ban in between |
| RateEscalation.Escalation.RecordRejection | internal/nginx/render.go:831-856 | a ban is recorded exactly with the configured number of unbroken strikes, where the dictionary has room; none is counted while a ban lasts |
| RateEscalation.Escalation.ResetStreak | internal/nginx/render.go:824-829 | an admitted request clears the strikes |
| ConfigFragments.FoundAfter | internal/nginx/render.go:613-618 | after text that is free of the marker, a line that starts with it is found first |
| ConfigFragments.ParseJoins | internal/nginx/render.go:612-644 | on every accepted text base pieces and fragments, put in turn, are that text |
| ConfigFragments.FirstBlock | internal/nginx/render.go:613-642 | the first block of a printed text is found with both its ends |
| ConfigFragments.ParsePrint | internal/nginx/render.go:607-646 | cutting inverts printing |
| ConfigFragments.NamesAreDistinct | internal/nginx/render.go:662-673 | ids of name characters have files of their own |
| ConfigFragments.NamesCanMeet | internal/nginx/render.go:662-673 | other ids can share a file name |
| HttpConfig.SplitHTTPConfig | internal/nginx/render.go:607-646 | the loop returns exactly the base text and the fragments of the cut, in order, or fails with it |
| ConfigFragments.LeftPastFragment | internal/nginx/render.go:615-645 | a turn that finds a marker, here or in the stream part, keeps what is cut so far and what is left in line with the whole cut |
| HttpConfig.MarkerIsMarker | internal/nginx/render.go:608-612 | the marker of the code starts a line and is one that the cut can find |
| HttpConfig.LineIsUnderstood | internal/nginx/render.go:624-632 | a begin line is read as the site it was printed for |
| HttpConfig.PrintedIsSplit | internal/nginx/render.go:607-646 | what is printed for the sites comes back: all base text, and each site's lines, in order |
| StreamConfig.FieldsOfSpaced | internal/nginx/stream.go:127-127 | words between single spaces are the fields of the line |
| StreamConfig.StreamIsPrefix | internal/nginx/stream.go:110-112 | so is the one of stream configurations |
| StreamConfig.LineIsUnderstood | internal/nginx/stream.go:126-133 | a begin line is read as the site and port it was printed for |
| StreamConfig.CollectItems | internal/nginx/stream.go:29-58 | fails exactly when two forwards of enabled sites share a listen port |
| StreamConfig.SortByPort | internal/nginx/stream.go:65-65 | the items come in the order of their ports, none lost or added |
| StreamConfig.RenderStream | internal/nginx/stream.go:25-107 | succeeds exactly when ports are distinct and TCP-only sites are alone; the text is head and blocks in port order |
| StreamConfig.SplitStreamConfig | internal/nginx/stream.go:109-158 | the loop returns the base text and, for every file name, its fragments in order |
| StreamConfig.GroupIsText | internal/nginx/stream.go:143-149 | one file holds exactly the fragments of its site |
| StreamConfig.RenderedIsSplit | internal/nginx/stream.go:25-158 | cutting what was rendered gives one file for every site with forwards, with exactly its blocks in port order |
| StreamConfig.PlainIdsAreToldApart | internal/nginx/render.go:662-673 | sites with ids of name characters do not share a file |
| LocalBans.Limit | internal/edge/security.go:563-579 | of too many bans those are kept that last longest, then those updated last |
| LocalBans.MapValues | internal/edge/security.go:554-561 | the bans of a map in the order of their addresses |
| LocalBans.LatestIsMaximum | internal/edge/security.go:356-370 | the expiry kept for an address is the maximum of its expiries, and one of them |
| LocalBans.AddEvents | internal/edge/security.go:352-370 | every address ends with that expiry; addresses of events are pending, others are untouched |
| LocalBans.Merge | internal/edge/security.go:507-519 | pending bans of the node override the public unexpired ones of the control plane |
| LocalBans.MergedIsUnexpired | internal/edge/security.go:502-519 | nothing that is merged has expired |
| LocalBans.NoneDropped | internal/edge/security.go:521-521 | as many bans as were saved means that none expired or was cut off |
| LocalBans.EquivalentHaveSettings | internal/edge/security.go:581-592 | lists that are equivalent hold the same addresses, expiries and marks |
| BanSync.SecurityManager.Initialize | internal/edge/security.go:196-209 | after a start without an error the firewall holds the saved, unexpired bans; one that fails leaves it behind only if the saved bans could not be read or written |
| BanSync.Trim | internal/edge/security.go:530-579 | the list of the first unexpired bans |
| BanSync.Extend | internal/edge/security.go:346-376 | the same with the bans of events |
| BanSync.SecurityManager.CollectBans | internal/edge/security.go:211-254 | bans of the events are merged and saved, and with them, or for a retry, success means that the firewall holds the saved bans; only a failed write of the log offset leaves the firewall behind without the retry mark |
| BanSync.SecurityManager.SaveBans | internal/edge/security.go:346-376 | the saved bans become those of the saved ones and the events, up to the limit |
| BanSync.SecurityManager.ClearPending | internal/edge/security.go:460-475 | only the pending marks of accepted addresses change |
| BanSync.SecurityManager.SyncBans | internal/edge/security.go:477-528 | after a synchronisation without an error the saved bans, with their marks, are the merged ones, and the firewall's unexpired ones are too if and only if it was not skipped or they were in step before |
| BanSync.SecurityManager.Follow | internal/edge/security.go:521-527 | the firewall holds the merged bans if and only if they were installed or the skipped ones were in the firewall before |
| BanSync.SecurityManager.TellFirewall | internal/edge/security.go:238-250 | the firewall is told of the bans just saved, or of those read back |
| BanSync.SecurityManager.Restart | internal/edge/security.go:196-209 | a new process brings the firewall in step unless files cannot be read or written |
| BanSync.Run | internal/edge/security.go:196-528 | over any starts, collections, acknowledgements and synchronisations, with replacements of the firewall failing at any time: as long as files can be written, and read at a start, every synchronisation that succeeds leaves exactly the merged bans in the firewall |
| BanSync.MergeSaved | internal/edge/security.go:496-520 | the lists that are compared and told to the firewall |
| BanSync.LaggingIsOverlooked | internal/edge/security.go:236-240 | the run that shows the exception: a ban is saved, the log offset is not written, and a synchronisation that succeeds with just that ban merged leaves the firewall without it |
| BanSync.OnlyIsSkipped | internal/edge/security.go:521-522 | such a ban merges to itself and is skipped |
| Monitoring.ScoreRound | internal/store/monitoring.go:372-401 | the score decides abnormal, the time is the latest of the round |
| Monitoring.ScoreBounds | internal/store/monitoring.go:395-397 | a score is between 0 and 100, and abnormal with at most 70 percent of the attempts successful |
| Monitoring.FullSuccessIsHealthy | internal/store/monitoring.go:385-397 | a round without failed attempts and at most 700 ms on average is healthy |
| MonitoringStore.PausedNext | internal/store/monitoring.go:318-327 | how one event changes whether a node is paused by its history |
| MonitoringStore.StreakIsAbnormal | internal/store/monitoring.go:315-317 | a streak counts the abnormal rounds since the last reset, healthy round or status set by hand |
| MonitoringStore.RoundFollows | internal/store/monitoring.go:300-338 | a round moves its node to what the history calls for |
| MonitoringStore.ResetFollows | internal/store/monitoring.go:220-238 | so does a reset, with or without targets left |
| MonitoringStore.StatusFollows | internal/store/store.go:1212-1227 | so does a status set by hand |
| MonitoringStore.Store.RecordMonitoringRound | internal/store/monitoring.go:260-353 | after any history a node is drained by monitoring exactly when it was active, some streak reached four, and nothing has ended the pause since; a report is taken exactly when it is sound, on every enabled target, for a known node and newer than the last, unless the database fails; other nodes are untouched, times increase between resets |
| MonitoringStore.Store.ChangeTargets | internal/store/monitoring.go:220-238 | every change of targets resets monitoring, and only the last target's going resumes paused nodes |
| MonitoringStore.Store.SetNodeStatus | internal/store/store.go:1161-1228 | a status set by hand ends any pause and streak of its node, and other nodes are untouched; it is set exactly where the node may have it, unless the database fails |
| MonitoringStore.Store.CheckReport | internal/store/monitoring.go:261-291 | a report passes exactly with one valid probe for every enabled target, of which there is one |
| MonitoringStore.MatchTargets | internal/store/monitoring.go:355-370 | tells exactly that |
| DeletionTasks.RetryWaitsForNobody | internal/control/publisher.go:320-340 | a deletion that is tried again after nodes were told has none to wait for, whatever they have applied |
| DeletionTasks.JudgedIsOver | internal/store/site_deletion.go:214-250 | the answers are judged to be complete exactly when all targets have confirmed or applied |
| DeletionTasks.GoneIffConfirmed | internal/control/site_deletion.go:75-120 | from any phase, a call that meets no failure ends the site exactly when all nodes that the task waits for have confirmed or applied |
| DeletionTasks.DroppedIffNoneLags | internal/store/site_deletion.go:166-204 | the confirmations mean that every active node of the site has applied its removal if and only if, when they were told, none lagged behind a state without the site |
| DeletionTasks.LeastLater | internal/store/site_deletion.go:166-204 | the future that shows the other half: only the targets apply anything |
| SiteDeletion.RemovedHaveDropped | internal/store/site_deletion.go:270-310 | in every state of the store, a site is gone only with its DNS withdrawn, its certificates deleted and its targets confirmed |
| SiteDeletion.PutGoes | internal/store/site_deletion.go:140-164 | a task that moves on keeps that, and touches no other site |
| SiteDeletion.StagingGoes | internal/store/site_deletion.go:166-204 | so does telling the nodes |
| SiteDeletion.CompletionGoes | internal/store/site_deletion.go:270-310 | so does the end of the site |
| SiteDeletion.ReportGoes | internal/store/store.go:1701-1722 | so does a report of a node |
| SiteDeletion.SiteDeletionManager.BeginSiteDeletion | internal/store/site_deletion.go:30-105 | a task that is under way is returned, a new one is begun where no other task is active |
| SiteDeletion.SiteDeletionManager.WithdrawAndStage | internal/control/site_deletion.go:84-99 | the nodes are told only after the DNS was withdrawn |
| SiteDeletion.SiteDeletionManager.SiteDeletionReady | internal/store/site_deletion.go:206-250 | the answers are counted, missing ones time out at the deadline |
| SiteDeletion.SiteDeletionManager.Finish | internal/control/site_deletion.go:108-115 | the site ends only after its certificates were deleted |
| SiteDeletion.SiteDeletionManager.Advance | internal/control/site_deletion.go:75-121 | every turn of the loop gets on by a phase, so that its error for not converging cannot occur; without failures it ends the site exactly when all targets have confirmed or applied, and otherwise says where the task has got to |
| SiteDeletion.TurnLeadsOn | internal/control/site_deletion.go:75-120 | a turn does not change where the loop ends |
| SiteDeletion.SiteDeletionManager.Start | internal/control/site_deletion.go:27-40 | a fresh attempt without failures ends the site exactly when all nodes that are told now have applied that already |
| SiteDeletion.SiteDeletionManager.Reconcile | internal/control/site_deletion.go:42-56 | all tasks that are under way are continued, up to the first failure; if nothing fails each of them ends its site exactly when all nodes that it waits for have confirmed or applied, and has otherwise got as far as its answers allow |
| SiteDeletion.TurnIsTaken | internal/control/site_deletion.go:42-56 | a task that has had its turn is where its answers lead, and the turns before and after it are not affected |
| SiteDeletion.SiteDeletionManager.Status | internal/control/site_deletion.go:58-73 | asking for a task continues it |
| SiteDeletion.SiteDeletionManager.Heartbeat | internal/store/store.go:966-1001 | a node reports what it has applied: its version rises to what it says and its awaited answers up to the reported version become confirmations or refusals, and nothing else changes; it is accepted, if nothing fails, exactly for a known node with a sound report |
| SiteDeletion.SiteDeletionManager.RecordPublishApply | internal/store/store.go:1701-1722 | exactly the awaited answers of the node in active tasks, up to the reported version, get the outcome; version 0 is refused |
| SiteDeletion.SiteDeletionManager.ReadDraft | internal/store/store.go:1380-1386 | the save of a draft is refused, if nothing fails, exactly for a site that is unknown or marked as being deleted |
| SiteDeletion.SiteDeletionManager.WriteDraft | internal/store/store.go:1387-1441 | a save that has read the site writes it whatever has become of it, without the mark and enabled as the draft says; the job stays, and only sites with such a write leave the state that a deletion has put them in |
| SiteDeletion.StayShutOn | internal/store/store.go:1380-1441 | that goes for any sequence of steps |
| SiteDeletion.SiteDeletionManager.Run | internal/control/site_deletion.go:27-121 | over any calls and changes by others, with failures anywhere, a site goes only with its DNS withdrawn, its certificates deleted and its targets confirmed, and keeps its job until then; it stays switched off and marked unless a draft is written that was read before its deletion began |
| SiteDeletion.RetryOverlooksNode | internal/control/site_deletion.go:27-121 | the run that shows the exception: after a timeout a second attempt ends the site while an active node still runs it |
| SiteDeletion.LateDraftReenables | internal/store/store.go:1380-1441 | the run that shows the other exception: a draft is read, the deletion begins, and the save enables the site again with its task active |
| TargetNames.CandidatesDiffer | internal/store/migrations.go:131-136 | numbered candidates differ, whatever the case |
| TargetNames.TriedCount | internal/store/migrations.go:127-137 | the numbered candidates tried so far are that many names |
| TargetNames.SearchGoesOn | internal/store/migrations.go:129-137 | a used candidate leaves a number for another one, so that the search ends |
| TargetNames.SuffixIsShort | internal/store/migrations.go:131-132 | a suffix leaves room for a prefix, for every number of a 64-bit counter |
| TargetNames.UniqueName | internal/store/migrations.go:121-138 | the search ends after at most one more candidate than there are used names, with the first free one, of at most 64 characters |
| TargetNames.MigratedNext | internal/store/migrations.go:107-116 | one more row keeps the names distinct and short, and its own name if that is free |
| TargetNames.MigrateNames | internal/store/migrations.go:106-116 | all names are at most 64 characters, pairwise distinct ignoring case, and kept where that is possible |
| TargetNames.SameWithoutCase | internal/store/migrations.go:117-117 | names that are distinct in this sense are distinct for the index that ignores ASCII case |

## Left out

- RestoreCutover.ApplyPending: stated from a fresh start; the whole function revalidates the temporary database before promotion, so resuming is stated for swaps, TLS cutover and promotion on their own.
- RestoreCutover.FailPending: the job record, the maintenance lock and the job directory are not modelled; a final record that cannot be written is the ending `Unrecorded`.
- TlsCutover.RestoreTLSCutover.Resume: a backup path that is no directory and symbolic links are not modelled; a missing stage lists as empty.
- LogPipeline.Run: rotation and truncation of the access log, torn queue writes, the legacy queue file and fsync are not modelled; a queue write is all or nothing.
- LogPipeline.Collect: an identifier that the code generates for lines without a request id is part of the opaque codec; a line over the scanner's 1 MiB stops collection, as in the code.
- Publisher.Run: policies, settings, node records and certificate validity are fixed, publish tasks and node upgrades are store operations that can fail, and no deletion is in flight (a staged deletion keeps its snapshot, so another publication would add the site again).
- Publisher.SitePublisher.PublishSite: the certificate is read once; the commit reads it again (internal/store/publication.go:181-184), so that one renewed in between is in the snapshot and not in the node states until the next publication.
- DnsSites.Reconcile: the listing of records is one step, and a create takes effect at most once; the retry of a create whose reply was lost can add a duplicate.
- DnsSites.ReconcileSite: alerts are not modelled; the facts about nodes are read at once, with a failure possible at every node.
- DnsRecords.KeyIsInjective: for names and contents without the NUL separator; spaces and case are those of ASCII.
- EdgeApply.Apply: port inspection, cache directories and the wait for listeners are steps that succeed or fail (a foreign holder of a port counts as a failure), and `hasPorts` stands for the check of the public ports; temporary files that cannot be removed, file modes and index files with other text than the generated one are not modelled.
- RateLimit.Limiter.Access: memory pressure can leave a request uncounted, which is modelled, and evict live buckets, which is not; bucket keys are triples, so ids are taken to have no colon; time does not go back.
- RateEscalation.Escalation.RecordRejection: one client and one policy at a time, whose keys are apart from all others.
- HttpConfig.PrintedIsSplit: the template between the markers is opaque and taken to be free of the marker.
- StreamConfig.RenderStream: the text of a server and of the maps before them is opaque.
- StreamConfig.SplitStreamConfig: the order of the files by name is left out, as the list is a map.
- LocalBans.Limit: the two sorts of the code are library calls; the lists sorted by address that it keeps are maps or lists in that order.
- BanSync.SecurityManager.SyncBans: the firewall keeps the expiries it is told; the code passes whole seconds and drops bans with less than one left. The upload of events and their queue are not modelled.
- MonitoringStore.Store.RecordMonitoringRound: scores are computed over reals, and the tables of probe results only matter by being deleted on a reset. Enrolment and uninstalling set statuses too (internal/store/store.go:975, internal/store/uninstall.go:228), which is not part of this model.
- TargetNames.UniqueName: text is a sequence of characters, and lower-casing is any character map that leaves brackets, digits and the space alone.
- SiteDeletion.SiteDeletionManager.Run: audit records and the details of tasks are left out; other events come between the calls of the manager, and in the middle of one only where it breaks off with a failure; a transaction happens as a whole or not at all, nodes are not deleted, what a node is told is the set of sites it serves, and the rendering of its state is a step that succeeds or fails (`Publisher.SitePublisher.StageSiteRemoval` says what it renders).
- The lifecycle of the online-restore manager, log rotation, security-log line collection, heartbeat and health hysteresis of nodes.
- HTTP handlers, the frontend, mail, Restic, Certbot, systemd, nftables and query text: plumbing around steps that succeed or fail here.
- Cryptography, certificates, URL and host name parsing: library behaviour, kept opaque.

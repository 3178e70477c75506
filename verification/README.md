# jconfig, verified

A Dafny model of jconfig, the daemon that fetches device configurations with a
bounded worker pool, normalises them so that only real changes show, commits
them to git and mirrors the branch to a remote. `dafny verify dfyconfig.toml`
checks the project.

| files | what they model |
|---|---|
| `Runner`, `Metrics` | the device table, the summary of a run and the collectors, in place |
| `RunMachine`, `RunSafety`, `RunLedger`, `RunAccounting`, `RunStore`, `RunSpacing`, `RunRetry` | one run as a state machine whose steps are the lock-protected blocks, and what every step keeps |
| `Interleaving`, `Service`, `ServiceRuns`, `ServiceSpacing`, `ServiceRetry`, `ServiceRequests`, `ServiceClocks`, `ServiceOutcomes`, `ServiceReloads`, `ServiceMirror`, `StaleScan`, `UncleanReload` | scan loop, requests by hand, reloads and workers as competing actors; theorems over all their behaviours, and behaviours that break what one might expect |
| `Store`, `Mirror` | worktree, index and history; commit, open, clone, push, count, volume loss |
| `Framing`, `Replies`, `XmlUtil` | NETCONF end-of-message framing (section 4.3 of RFC 6242), the RPC sequence, and cutting an element out of a reply |
| `Device`, `Sanitising`, `RouterOS`, `ExportBanner`, `PrintLines` | normalisation, the header, and what is read of an export and of print output |
| `Config`, `Expansion`, `RepoPath`, `PathNames` | environment expansion and repository paths |
| `Text`, `Wrappers` | the string operations and options under them |
| `EndToEnd`, `NoChurn` | from what a device sends to what is committed |

A `string` is a sequence of code points, and of bytes in `Framing`. Times are
integers read from one clock that does not go back. A commit hash covers all of
its history, so a commit is the chain up to it. Regular expressions of the
source are written out as recognisers; `remove_lines` patterns, the test for a
console error and the check for an RPC error are arbitrary predicates.

## Where the code does not do what one might expect

The model follows the code; each of these is proved.

* The spacing of scheduled backups has an exception: a scan makes its list before
  the run lock is tried, so a request by hand that completes in between lets the
  scan start the device again at once (`StaleScan.StaleScanStartsAtOnce`). Once the
  scan holds the lock the spacing holds exactly if no attempt completed in between
  or the gap has passed anyway (`ServiceSpacing.ScanKeepsGapIff`).
* A commit looks at the requested paths but takes the whole index, so leftovers of
  an interrupted commit are credited to the next device (`Store.LeftoverIsSwept`),
  and which devices a run reports as changed may then depend on the order of its
  workers (`Store.OrderNeverShowsIff`).
* `rawElement` promises the first element and returns everything up to the last
  closing tag of that name (`XmlUtil.CutOutIff`, `XmlUtil.SelfClosingIsCutOutIff`),
  and an element without one ends at its first self-closing child
  (`XmlUtil.UnclosedIsCutAtChild`).
* `filterKeys` is not idempotent on lines that end in a carriage return of their
  own (`RouterOS.FilterTwiceIff`), `stripANSI` not where removing a sequence makes
  one (`RouterOS.SecondPassIff`), `sanitizeName` not where trimming dots and blanks
  uncovers other white space (`RepoPath.SanitizeTwiceIff`).
* `Sanitize` reads a lone CR before an empty line ended by LF as one line end
  (`Device.EndingsAreRecovered`), and what it returns depends on that exactly when
  the empty line would be kept and something visible follows
  (`Device.EndingsMatterIff`).
* The count of unpushed commits includes shared commits when the remote has
  diverged (`Mirror.CountIsMissingIff`).
* A reload that takes a device from its pending worker does harm in two cases.  Not
  restored, the device keeps series unless its worker had published its success or
  is cancelled before it starts (`ServiceReloads.DropLeavesSeriesIff`,
  `UncleanReload.DroppedBoxKeepsSeries`).  Restored, its gauges disagree with its
  state exactly if the worker had noted a failure by then
  (`ServiceReloads.RestoreHarmsIff`, `UncleanReload.UncleanReloadsDisagree`).
* A message that exceeds the size cap is not dropped.  If its delimiter is buffered
  already the next metadata request is answered by it, one reply late; if not, that
  request fails as well (`Framing.CapDelaysReplies`, `Framing.LateReplyComes`).

## Model

| member | source | states |
|---|---|---|
| Service.AtMostOneRun | internal/runner/runner.go:282-286 | in every state of every behaviour at most one call is between taking and releasing the run lock |
| Service.SemaphoreIsRespected | internal/runner/runner.go:299-317 | in every state no more workers are between acquire and release than the concurrency read when the run began |
| Service.TableMatchesInventory | internal/runner/runner.go:99-141 | in every state the keys of the state table are exactly the names of the active configuration |
| Service.RunningMeansBackingUp | internal/runner/runner.go:384-385 | a set Running flag belongs to a worker inside backup of the one active run; with no active run none is set |
| Service.RunsGoOn | internal/runner/runner.go:306-326 | no deadlock: in every state an active run can complete or one of its workers can take a step, cancelled or not |
| Service.RunsAreFinite | internal/runner/runner.go:306-326 | the workers of a run over n devices take at most 15 n steps, whatever else happens meanwhile |
| Service.RunsAccountForAll | internal/runner/runner.go:328-345 | a completed run reports Total = Succeeded + Failed = devices minus those cancelled before starting, Changed <= Succeeded, Succeeded, Failed and Changed are the numbers of results that say so, and the list is a sorted permutation of the results that names every device that was not cancelled |
| Service.EveryStateIsSound | internal/runner/runner.go:282-326 | the joint inductive invariant of all interleavings: exclusion, keys, semaphore, flags, balanced counters, accounted results, logged commits |
| Service.StepIsSound | internal/runner/runner.go:282-326 | every step of every actor keeps that invariant |
| ServiceRuns.GaugesAgreeIff | internal/metrics/metrics.go:203-247 | in every behaviour, whatever is reloaded: with no run active the series of a device in the table agree with its state iff the last outcome published since the device last left the inventory is not a failure noted before it last entered; a device outside the table has no series iff none was written since it left |
| ServiceRuns.GaugesAgree | internal/metrics/metrics.go:203-223 | so, with no run active, the failure gauge is the failure count, success is 1 iff it is 0, exactly the last stage is marked iff it is not 0, attempts = successes + failures = histogram count, failures are the sum over the stages, changes equal commits; a device outside the table has no series (for a device that no reload takes from a pending worker and no run is launched for once it is gone, whatever happens to the others) |
| ServiceRuns.CarefulReloadsAreClean | internal/runner/runner.go:127-132 | for that it is enough that no reload removes the device while it is listed or its worker is pending |
| ServiceRuns.EveryStateAgrees | internal/runner/runner.go:393-498 | the invariant behind both, in every state of every behaviour: series, entry and worker of a device are as its history says, including the halves of an outcome not yet published |
| ServiceRuns.ScansKeepDistance | internal/runner/runner.go:224-252 | from the scan on: if no attempt of a device completes between a scan and the start it leads to, the start lies at least min(interval, effective retry) after the last completed attempt, whatever is requested and whoever holds the lock meanwhile |
| ServiceRuns.EveryStateIsSpaced | internal/runner/runner.go:402-411 | in every state the next run of a settled device lies at least that far after its last attempt, and waiting scan lists respect it |
| ServiceRuns.RunsAgreeInAnyOrder | internal/runner/runner.go:306-326 | two completed runs of any two behaviours that committed the same devices, from the same clean repository and with the same fetched files on disjoint paths, leave the same HEAD tree and number of commits and report the same devices as changed, whatever the order of the workers and whatever failed or was cancelled for the other devices |
| ServiceRuns.RunFollows | internal/runner/runner.go:418-430 | what a run commits for a device is what was fetched for it |
| ServiceSpacing.GapIsKeptIff | internal/runner/runner.go:282-318 | while a call holds the lock and has not launched its run, every continuation of the behaviour has it start a device of its list at least the gap after the last completed attempt iff the gap has passed by now: no attempt can complete before the run starts its own worker, and that start may follow at once |
| ServiceSpacing.ScanKeepsGapIff | internal/runner/runner.go:224-252 | exactly when a scan that holds the lock starts a device too soon: iff an attempt completed since the listing and the gap has not passed by the clock at the lock |
| ServiceMirror.ServiceIsWriter | internal/runner/runner.go:510-557 | the service, committing from its workers and pushing as each run completes, takes only the steps of the single writer of Mirror |
| ServiceMirror.RunsFastForward | internal/runner/runner.go:535-548 | in every state of every behaviour of the service the remote branch is absent or an ancestor-or-equal of the local one, so no push of any run is rejected or forced |
| ServiceMirror.PushedRunIsMirrored | internal/runner/runner.go:347 | after a run that pushed the remote has the very history of the local branch, with one commit request for each device that got past its commit |
| ServiceRequests.RunServesItsRequest | internal/runner/runner.go:254-318 | in every state of every behaviour an active run has one worker for each device its request asked for, the due ones of a scan, the enabled ones or the one named by hand, and for no other; at most as many of them hold the semaphore as the configuration allowed at the launch, and a waiting one may take it exactly while there are fewer |
| ServiceRequests.ListIsAsRequested | internal/runner/runner.go:222-278 | every call works from the list made when it came in, whatever is reloaded since |
| ServiceRequests.RunIsAsLaunched | internal/runner/runner.go:288-307 | every active run was launched by its call, with the concurrency of that moment and a worker per listed device |
| ServiceRequests.UncancelledRunReportsAll | internal/runner/runner.go:306-345 | a completed run that nobody cancelled reports on every device its request asked for, as many in all as were listed |
| ServiceClocks.StartIsRead | internal/runner/runner.go:381-391 | in every state of every behaviour the last attempt of a device is the clock reading with which a worker of it began |
| ServiceClocks.EndIsRead | internal/runner/runner.go:402-453 | and the time recorded with its outcome one that a worker of it took after its fetch had failed, or its commit had failed or was done |
| ServiceClocks.FirstRunsAre | internal/runner/runner.go:105-150 | at the start of every behaviour the first run of each device is one interval away, or, with run_on_start, within the jitter window |
| ServiceClocks.NextRunFollowsReading | internal/runner/runner.go:402-498 | so its next run follows that reading by exactly the pause of the configuration |
| ServiceOutcomes.OutcomeIsDecided | internal/runner/runner.go:393-457 | in every state of every behaviour the outcome a worker holds was decided by an event of its own: a failed fetch with the stage it named, a failed commit with the stage git, or a commit that succeeded and changed something iff HEAD did not hold the files at that moment |
| ServiceOutcomes.ReportTellsWhatHappened | internal/runner/runner.go:319-345 | so every line of the summary of a completed run tells what decided it for its device |
| StaleScan.StaleScanStartsAtOnce | internal/runner/runner.go:224-228 | a complete behaviour in which the scan loop starts a device at the very time its last attempt completed, because a request by hand ran between the scan and its turn at the lock |
| RunRetry.StepIsExact | internal/runner/runner.go:402-411 | while reloads leave the retry interval and the interval of the device alone: every step keeps a device that no worker is updating scheduled exactly one retry interval (or, where none is configured, one interval of its own) after the time noted with its failure, and exactly one interval after its last success |
| RunRetry.ListedIff | internal/runner/runner.go:233-252 | a scan lists an enabled idle device that has failed from that time on and not before |
| ServiceRetry.NextRunIsExact | internal/runner/runner.go:559-565 | so in every state of every behaviour of the service whose reloads leave the two alone, the device being on record: next run = attempt + retry interval after a failure (+ its own interval when none is configured), attempt + interval after a success |
| ServiceRetry.ScanListsIff | internal/runner/runner.go:224-252 | and every scan of such a behaviour lists the device iff it is enabled, idle and that time has come |
| ServiceReloads.RestoreHarmsIff | internal/runner/runner.go:402-412 | a reload takes a device from its pending worker and another restores it before the run completes, both at any time: after the run the gauges are wrong iff the worker had noted its failure by the time of the second |
| ServiceReloads.RestoreWhilePendingHarmsIff | internal/runner/runner.go:404-412 | with the worker still pending at the second reload: wrong iff it stood between noting its failure and publishing it, whether it noted it before the first reload or between the two |
| ServiceReloads.DropLeavesSeriesIff | internal/runner/runner.go:127-132 | a reload takes a device from its pending worker and none restores it: after the run the device, gone from the table, has series iff its worker was not cancelled waiting and had not published its success before |
| UncleanReload.DroppedBoxKeepsSeries | internal/runner/runner.go:127-132 | a complete behaviour with one such reload, at whose end no run is active and the device, gone from the table, has series |
| UncleanReload.UncleanReloadsDisagree | internal/runner/runner.go:404-412 | a complete behaviour in which two reloads take a device from its failing worker and restore it, and which ends with no run active and gauges that tell failures the state knows nothing of |
| Interleaving.StepIsExclusive | internal/runner/runner.go:283-286 | every action of every caller keeps the lock held by exactly the call inside |
| Interleaving.StepRefines | internal/runner/runner.go:282-326 | the service with any number of competing callers takes only the steps of one run at a time |
| Interleaving.StepListsDistinct | internal/runner/runner.go:233-278 | lists made before the lock is taken name no device twice, and stay so while they wait |
| Interleaving.NewListingIs | internal/runner/runner.go:254-278 | every list is drawn from the configuration without repetition |
| RunSafety.StepIsSafe | internal/runner/runner.go:306-326 | every step of a run, of the clock and of a reload keeps keys, semaphore bound and flags |
| RunSafety.EntryAfter | internal/runner/runner.go:569-579 | no update of any step adds or removes an entry or touches another device, and the flag is set and cleared in one place each |
| RunSafety.WorkKeepsFlags | internal/runner/runner.go:384-385 | a worker step moves the flag of its own device only, and a set flag keeps its worker |
| RunSafety.WorkIsBounded | internal/runner/runner.go:301-317 | only an acquire adds a holder of the semaphore, and it needs room |
| RunSafety.ReloadKeepsKeys | internal/runner/runner.go:99-141 | a reload makes the keys those of the new configuration and keeps the flags of surviving devices |
| RunLedger.StepBalances | internal/metrics/metrics.go:203-223 | every step keeps the counters of every device adding up, whatever is reloaded |
| RunLedger.StepAgrees | internal/runner/runner.go:404-412 | every step, reloads of any kind included, keeps that invariant |
| RunLedger.IdleAgrees | internal/runner/runner.go:378-508 | with no run, that is the exact condition for gauges and state to agree |
| RunLedger.CleanStaysUndisturbed | internal/runner/runner.go:127-132 | steps that are clean for a device keep everything about it in step |
| RunAccounting.SomeWorkIsPossible | internal/runner/runner.go:306-325 | until all workers have finished one of them can go on, whether or not the run is cancelled |
| RunAccounting.WorkGetsCloser | internal/runner/runner.go:306-325 | every worker step lowers the distance to the end |
| RunAccounting.WorkAccounts | internal/runner/runner.go:319-323 | every worker step keeps the results being those of the workers that have reported, one each |
| RunAccounting.SummaryAddsUp | internal/runner/runner.go:328-345 | what the summary of a finished run says about its workers |
| RunStore.WorkLogs | internal/runner/runner.go:425-430 | while no commit fails, the repository is the start of the run with the logged requests committed in order, one for each worker past its commit, each with the change flag its worker holds |
| RunStore.WorkerOrderDoesNotMatter | internal/runner/runner.go:306-326 | two runs that committed the same devices, with the same files on disjoint paths, agree on tree, number of commits and what each commit found, whatever became of the other devices |
| RunSpacing.StepIsSpaced | internal/runner/runner.go:402-411 | every step keeps the next run of a settled device at least the gap after its last attempt |
| RunSpacing.ScanIsTimely | internal/runner/runner.go:233-252 | a scan lists a device only when its time has come by the clock reading it compares with |
| RunSpacing.WorkerStaysSlow | internal/runner/runner.go:559-565 | a worker never computes a retry closer than the gap, when neither the retry interval in force nor the interval of the device is shorter |
| RunSpacing.ScansKeepTheirDistance | internal/runner/runner.go:559-565 | the start of a listed device keeps the gap if no attempt completed since the listing |
| Runner.SelectIs | internal/runner/runner.go:233-252 | selection keeps exactly the devices that meet the condition; with it a scan lists exactly the enabled, non-running, due devices |
| Runner.SelectDistinct | internal/runner/runner.go:233-252 | and each of them once |
| Runner.DueIff | internal/runner/runner.go:233-252 | a device is listed iff it is configured, enabled, known, not running, and has no next run or one that has come |
| Runner.ReloadedIs | internal/runner/runner.go:105-125 | the table built by a reload has exactly the new names; survivors keep their state, newcomers start afresh |
| Runner.SurvivorIs | internal/runner/runner.go:107-124 | a survivor keeps its whole entry but for what the new configuration says of it |
| Runner.NewcomerIs | internal/runner/runner.go:105-150 | a newcomer has no history and its first run comes one interval later, or, with run_on_start, within the jitter window |
| Runner.CountsAddUp | internal/runner/runner.go:334-344 | every result is counted once, as success or failure, and no failure as changed |
| Runner.SummaryCounts | internal/runner/runner.go:328-344 | Total, Succeeded, Failed and Changed are the numbers of results, of the good, the failed and the changed ones |
| Runner.BeforeIff | internal/runner/runner.go:345 | the order is by the first character that differs, a prefix before what it starts |
| Runner.SortIs | internal/runner/runner.go:345 | the reported list is sorted by name and a permutation of the results |
| Runner.Summarise | internal/runner/runner.go:328-344 | the loop computes those counts and that list |
| Runner.BackupKeepsStep | internal/runner/runner.go:380-508 | one undisturbed backup keeps the gauges of its device and of all others in step with the table |
| Runner.BackedUpAt | internal/runner/runner.go:380-508 | what such a backup does to the entry of its device and to no other |
| Runner.EntryIs | internal/runner/runner.go:380-498 | the whole entry after it: last attempt, success and change, next run after success and after failure, flag cleared |
| Runner.BackupKeepsTimes | internal/metrics/metrics.go:190-211 | the time gauges of every device stay those of its entry |
| Runner.CommitsAreCounted | internal/runner/runner.go:459-463 | the change counters rise by the number of commits the backup adds to the branch |
| Runner.Runner.Reload | internal/runner/runner.go:99-141 | the whole new state: configuration, table, and the series of exactly the removed devices gone |
| Runner.Runner.DueDevices | internal/runner/runner.go:233-252 | the loop returns the due devices in inventory order |
| Runner.Runner.EnabledDevices | internal/config/config.go:448-456 | the loop returns the enabled devices in inventory order |
| Runner.Runner.FindDevice | internal/runner/runner.go:263-278 | a device of that name, and none exactly when the inventory has none |
| Runner.Runner.SetRunning | internal/runner/runner.go:577-579 | changes one flag and nothing else |
| Runner.Runner.FailingCount | internal/runner/runner.go:581-592 | the number of devices with failures |
| Runner.Runner.Fail | internal/runner/runner.go:402-412 | a failure is counted in the state before it is published; the next run is the configured retry interval away if that is positive and the interval of the device otherwise |
| Runner.Runner.Succeed | internal/runner/runner.go:459-498 | a success resets the failures and schedules the next run one interval later |
| Runner.Runner.Backup | internal/runner/runner.go:380-508 | state table, collectors, repository and result of one undisturbed backup, for a failed fetch, a failed commit and a success |
| Metrics.ObservationsBalance | internal/metrics/metrics.go:203-223 | every observation keeps the counters adding up and makes the gauges tell the outcome |
| Metrics.SuccessIsLocal | internal/metrics/metrics.go:203-211 | a success touches the series of its device only, across all collectors |
| Metrics.FailureIsLocal | internal/metrics/metrics.go:214-223 | so does a failure, and leaves exactly one last-error series |
| Metrics.ChangeIsLocal | internal/runner/runner.go:459-463 | so does a change |
| Metrics.ForgetIsComplete | internal/metrics/metrics.go:236-247 | forgetting a device removes every series of it from every collector and no other |
| Metrics.Metrics.ObserveSuccess | internal/metrics/metrics.go:203-211 | the whole new state of the collectors |
| Metrics.Metrics.ObserveFailure | internal/metrics/metrics.go:214-223 | the whole new state of the collectors |
| Metrics.Metrics.ForgetDevice | internal/metrics/metrics.go:236-247 | the whole new state of the collectors |
| Store.GitStore.Commit | internal/store/git.go:220-269 | success: files written and staged, a commit of the whole index exactly when HEAD disagreed on a requested path; failure at any point: some files written, all of them but possibly the last staged, no branch moved |
| Store.GitStore.WriteAndAdd | internal/store/git.go:231-242 | one file written if it differed and staged; what either half leaves when it fails |
| Store.StagedCleanIsAgreement | internal/store/git.go:288-295 | looking at the requested paths only is asking whether HEAD holds the files |
| Store.CommitStores | internal/store/git.go:229-268 | from any worktree and index HEAD agrees with the request afterwards, and one commit is added iff it did not before |
| Store.CommitRecords | internal/store/git.go:229-266 | the commit made holds the whole index, the message and the time of the request, on top of the history there was |
| Store.RepeatedCommitIsIdle | internal/store/git.go:249-251 | asking again for files HEAD holds changes nothing at all |
| Store.CommitProvenance | internal/store/git.go:262 | everything HEAD gains comes from the request or was staged before |
| Store.SweepsNothingIff | internal/store/git.go:249-262 | HEAD gains nothing but the request iff no commit is made or nothing else was staged |
| Store.LeftoverIsSwept | internal/store/git.go:249-262 | leftovers of an interrupted commit enter the next commit of another device |
| Store.RewrittenVersusChanged | internal/store/git.go:235-250 | the reported files and the change flag agree when worktree and HEAD agree on the requested paths |
| Store.RewrittenButUnchanged | internal/store/git.go:235-250 | a case with reported files and no change |
| Store.ChangedButNotRewritten | internal/store/git.go:238-266 | a case with a change and no reported files |
| Store.CleanStaysClean | internal/store/git.go:540-553 | completed commits keep a clean repository clean |
| Store.InterruptionShows | internal/store/git.go:538-553 | an interrupted commit leaves a clean repository dirty iff it wrote something HEAD does not hold |
| Store.CommitAllInClosedForm | internal/store/git.go:220-269 | with disjoint paths and nothing staged, any sequence of commits is the merge of the files, and adds one commit per request that differed from the first HEAD |
| Store.FlagsInClosedForm | internal/store/git.go:249-266 | and each request is judged against the first HEAD |
| Store.OrderDoesNotMatter | internal/store/git.go:220-269 | so every order of the same files gives the same tree and number of commits |
| Store.FlagsFromAnyStart | internal/store/git.go:249-266 | from any start, requests on disjoint paths are judged against the first HEAD until one of them differs from it, and against the first index from then on |
| Store.OrderNeverShowsIff | internal/store/git.go:249-266 | so every order of them reports the same devices as changed iff, whenever one of them differs from HEAD, HEAD and index agree alike with each other one |
| Store.OrderMattersAfterInterruption | internal/store/git.go:249-262 | an interrupted commit leaves a state that fails this: the order decides which device is reported as changed |
| Store.CommitKeeps | internal/store/git.go:229-268 | files held by HEAD and index survive commits of compatible files |
| Mirror.CountFrom | internal/store/git.go:494-517 | the walk counts the commits above the stop commit, or all of them when it is not met, cut at 100000 |
| Mirror.CountIsMissingIff | internal/store/git.go:494-517 | below the cap the count is never too small, and exact iff the remote is an ancestor-or-equal, empty or unrelated |
| Mirror.PushesFastForward | internal/store/git.go:401-440 | with clone_on_init and one writer, over every sequence of opens, commits, pushes, failures and volume losses the remote branch is absent or an ancestor-or-equal of the local one |
| Mirror.StepKeepsMirror | internal/store/git.go:86-136 | every single step keeps that |
| Mirror.WithoutCloneDiverges | internal/store/git.go:97-99 | without clone_on_init a lost volume leads to a branch the remote rejects |
| Mirror.CountFollowsWork | internal/store/git.go:444-491 | each changed commit raises the reported count by one below the cap, and a push makes it zero |
| Mirror.AheadIsMissing | internal/store/git.go:444-491 | while the remote is an ancestor-or-equal the reported count is the number of missing commits, cut at the cap |
| Mirror.NothingIsInvented | internal/store/git.go:220-269 | over every run, whatever is on a branch here or on the remote, in the index or on disk was there at the start or was asked for by some request |
| Mirror.BlankIsMirrored | internal/store/git.go:86-136 | a blank volume with any remote is a start of which that holds |
| Mirror.Site.Open | internal/store/git.go:54-79 | a step of the machine; on success HEAD names the configured branch, a repository that was there keeps worktree, index and branches, a clone is the tip of the remote checked out, and a fresh repository keeps the files on disk |
| Mirror.OpeningChecksOut | internal/store/git.go:86-136 | a blank volume opened on a remote that has the branch is a clean repository: worktree = index = HEAD tree = the tree at the tip of the remote |
| Mirror.FirstCommitAdds | internal/store/git.go:116-125 | so the first commit after it leaves the tree of the remote plus the requested files, on top of the history of the remote |
| Mirror.OpeningKeeps | internal/store/git.go:185-213 | opening a repository that is there changes no worktree, no index and no branch; only the configured branch may be added, at the commit HEAD was on |
| Mirror.NothingIsClonedOver | internal/store/git.go:151-166 | files outside a repository are not cloned over |
| Mirror.Site.Push | internal/store/git.go:401-440 | the remote after an update, nothing to do, or a failure before or after it moved |
| Mirror.JudgeIff | internal/store/git.go:401-440 | a push is rejected iff the remote has commits the local branch lacks and force is off, and overwrites them iff it is on; there is nothing to do iff nothing is committed or both are equal |
| Mirror.PushedIs | internal/store/git.go:416-431 | after it the remote has the local branch; without force it never loses a commit; no other branch of it moves |
| Mirror.Site.Unpushed | internal/store/git.go:444-491 | the reported count, when the remote can be listed |
| Framing.Session.Read | internal/junos/netconf.go:90-130 | the incremental search with its watermark returns what the plain capped search of the whole buffer returns, with the same leftover |
| Framing.WatermarkHolds | internal/junos/netconf.go:104-107 | bytes that arrive later complete no delimiter before the watermark |
| Framing.SearchRest | internal/junos/netconf.go:97-98 | searching behind the watermark finds the first delimiter of the buffer |
| Framing.PlainReader.Next | internal/junostest/server.go:483-500 | the simple reader, in place |
| Framing.ScanCutsAtFirstDelimiter | internal/junostest/server.go:483-500 | for every chunking it cuts the stream at its first delimiter, conserves all bytes, and comes back empty only from a stream without one |
| Framing.CappedReadRefinesScan | internal/junos/netconf.go:96-128 | the cap aside, the client reader is the simple reader, with exact error cases; the cap consumes no byte |
| Framing.ReadOutcome | internal/junos/netconf.go:96-128 | result and leftover of one call in terms of the whole stream |
| Framing.ShortStreamsAreNotCapped | internal/junos/netconf.go:112-114 | the cap is out of play while the stream fits in it |
| Framing.CapBoundsBuffer | internal/junos/netconf.go:110-114 | one call buffers at most one chunk beyond the cap |
| Framing.CallsReturnTheMessages | internal/junos/netconf.go:88-130 | successive calls return the messages of the whole stream, split at successive first delimiters, then the error of its end |
| Framing.ChunkingDoesNotMatter | internal/junos/netconf.go:88-130 | two chunkings of the same bytes give the same results |
| Framing.DelimiterNeedsCleanEnd | internal/junos/netconf.go:138 | a body without the delimiter is framed unambiguously iff it does not end in the border of the delimiter |
| Framing.FrameIsReadBack | internal/junos/netconf.go:138 | with the newline before the delimiter every such body is read back, whatever follows |
| Framing.FramesRoundTrip | internal/junostest/server.go:455-459 | writing a list of bodies and reading gives the list back up to separator newlines iff no body holds the delimiter |
| Framing.OneCallOneReply | internal/junos/netconf.go:133-150 | one call takes exactly the next reply under every chunking; one that hits the cap takes none |
| Framing.CapDelaysReplies | internal/junos/netconf.go:112-114 | after a call that hit the cap the next one returns a message exactly if its delimiter is buffered already, and then the reply to the request before its own |
| Framing.AfterCap | internal/junos/netconf.go:96-114 | with the buffer above the cap a call returns a message iff the buffer holds a delimiter |
| Framing.MessagesFit | internal/junos/netconf.go:110-114 | a message that is returned fits the cap together with its delimiter and what was buffered behind it |
| Framing.LongRepliesHitTheCap | internal/junos/netconf.go:110-114 | a reply that does not fit hits the cap under every chunking |
| Framing.LateReplyComes | internal/junos/netconf.go:182-194 | an input, in full chunks, on which the call after the cap returns the reply to the request before |
| Framing.Lockstep | internal/junos/netconf.go:133-150 | up to the first call that hits the cap, call k returns reply k |
| Framing.ReadIsLocal | internal/junos/netconf.go:96-103 | a read that finds its delimiter leaves later chunks alone |
| Framing.PromptLockstep | internal/junos/netconf.go:133-150 | against a server that answers one request at a time the cap concerns single replies only |
| Framing.FetchInLockstep | internal/junos/netconf.go:165-195 | a fetch from such a server is decided by the replies alone, each request by its own, whatever errors the others carry |
| Framing.Session.Open | internal/junos/netconf.go:68-75 | the server speaks first, and the client hello follows only a complete message |
| Framing.Session.Rpc | internal/junos/netconf.go:133-150 | one request written, one reply taken; a reply is returned iff a message came that carries no error, a device error iff one came that does, a read error iff none came |
| Framing.Session.FetchConfigs | internal/junos/netconf.go:167-180 | request by request judged by its own call, stopping at the first that fails |
| Framing.Session.FetchMetadata | internal/junos/netconf.go:182-194 | every metadata request is written, in order and numbered, and judged by its own call, also after failures |
| Framing.Session.Fetch | internal/junos/netconf.go:152-196 | the outcome of a fetch in terms of the results of its calls, and every text it has written |
| Replies.ContentIs | internal/junos/netconf.go:168-179 | a configuration comes from an accepted reply that parses to a text that is not blank, and from nothing else |
| Replies.ExplainsIff | internal/junos/netconf.go:165-195 | the outcome of a fetch in terms of which replies came, were refused, parsed and were blank |
| Replies.OutcomeIsDecided | internal/junos/netconf.go:165-195 | the results of the calls allow one outcome only |
| Replies.RefusalEndsFetch | internal/junos/netconf.go:167-171 | a refused configuration reply ends the fetch at its format |
| Replies.RefusalLeavesNoAnswer | internal/junos/netconf.go:182-194 | a refused metadata reply leaves no answer, and the fetch goes on |
| Replies.DecimalIsRead | internal/junos/netconf.go:138 | requests are numbered in decimal without leading zeros |
| Replies.RequestIsSpelt | internal/junos/netconf.go:138 | the text of a request, letter by letter |
| Replies.EndOfStream | internal/junos/netconf.go:117-128 | a stream that ends without a delimiter: closed, truncated with its length, cancelled or broken |
| Replies.MessageWithinCap | internal/junos/netconf.go:96-103 | up to 256 MiB, the message is what precedes the first delimiter |
| Replies.BeyondCap | internal/junos/netconf.go:110-114 | beyond 256 MiB without a delimiter the cap is hit |
| XmlUtil.FindOpening | internal/junos/xmlutil.go:60-76 | the loop finds the first opening tag that is not of a longer name, or none |
| XmlUtil.RawElement | internal/junos/xmlutil.go:57-87 | from the first opening tag to the last closing tag or, without one, to the first self-closing end |
| XmlUtil.ElementIsVerbatim | internal/junos/xmlutil.go:77-86 | the result is a verbatim piece of the reply that starts at the tag and ends in a closing tag or self-closing end |
| XmlUtil.CutOutIff | internal/junos/xmlutil.go:77-86 | an element written with a closing tag is cut out of a document alone iff no closing tag of its name follows it |
| XmlUtil.OpensAtIff | internal/junos/xmlutil.go:67-73 | an opening tag, letter by letter: the six characters that may follow the name |
| XmlUtil.ElementIsFound | internal/junos/xmlutil.go:57-87 | an element is found behind any text without an opening tag of its name, tags of longer names included, whatever follows its name, and cut out whole if no closing tag of its name comes later |
| XmlUtil.SelfClosingIsCutOutIff | internal/junos/xmlutil.go:77-86 | so is a self-closing element |
| XmlUtil.CutAtSelfClosing | internal/junos/xmlutil.go:77-84 | with no closing tag after it, everything from the opening tag to the first self-closing end, or nothing when there is none |
| XmlUtil.UnclosedIsCutAtChild | internal/junos/xmlutil.go:77-84 | so an element that is never closed is cut at the end of its first self-closing child |
| XmlUtil.SiblingsAreCutOutTogether | internal/junos/xmlutil.go:77-86 | of two siblings both are returned, with what lies between |
| Config.ThreePassesAreOne | internal/config/config.go:490-505 | on input and environment without NUL the marker scheme is a one-pass scanner: values verbatim, nothing expanded twice |
| Config.PlainTextIsKeptIff | internal/config/config.go:490-505 | without that restriction: a text with nothing to expand comes out as it is iff it does not hold the marker |
| Config.MarkerInTextIsRewritten | internal/config/config.go:494-505 | the marker alone, whatever the environment, is rewritten |
| Config.EscapeRoundTrip | internal/config/config.go:490-505 | every text without NUL, escaped, expands to itself |
| Expansion.MatchIffVariable | internal/config/config.go:490 | what the expression matches: a name of letters, digits and underscores not starting with a digit, and an optional default without closing brace |
| Expansion.VariableExpands | internal/config/config.go:497-502 | without NUL, ${name} and ${name:-default} in front of any text expand to the value if it is set and not empty, and to nothing or the unescaped default otherwise, in front of the expanded text |
| Expansion.EscapeExpands | internal/config/config.go:496 | $${ becomes ${ and what follows it is expanded on its own |
| Expansion.OtherCharacterStays | internal/config/config.go:490-505 | any other character in front of a text stays |
| Config.CheckNames | internal/config/config.go:374-386 | exactly the missing and the repeated names are reported, and none iff the names are present and distinct |
| Device.Sanitize | internal/device/device.go:158-180 | the loops compute the lines that are left after normalising, trimming and removing |
| Device.SanitizeIsIdempotent | internal/device/device.go:158-180 | sanitising twice is sanitising once, for every set of patterns |
| Device.SanitizedShape | internal/device/device.go:158-180 | the result is empty or ends in exactly one newline, has no CR, no trailing blanks and no matched line |
| Device.EndingsAreRecovered | internal/device/device.go:159-162 | the lines are recovered however each was ended, iff no CR meets an empty line ended by LF |
| Device.EndingsMatterIff | internal/device/device.go:158-180 | a text sanitises like its lines all ended by LF iff empty lines are removed or no CR that meets an empty line ended by LF is followed by a line that is kept and not blank |
| Device.SanitizeIgnoresEndings | internal/device/device.go:158-180 | texts that differ only in such line endings and trailing blanks sanitise alike |
| Device.FusedEndingsMatter | internal/device/device.go:159-160 | any text fused before a visible last line sanitises to something else |
| Device.FusedEndingsDiffer | internal/device/device.go:159-160 | one such pair of texts |
| Device.CommentBlock | internal/device/device.go:141-153 | the loop renders one block |
| Device.Header | internal/device/device.go:130-136 | the loop renders all blocks |
| Device.CommentShape | internal/device/device.go:145 | a comment line starts with # and has no trailing blanks, and removing the prefix gives the right-trimmed line |
| Device.HeaderLosesNothing | internal/device/device.go:130-153 | removing the prefix from the header gives back, in order, the right-trimmed lines of all non-blank blocks |
| Device.StoredIsFixedIff | internal/device/device.go:110-116 | the header before sanitised content is a fixed point of sanitising iff no header line holds a CR or is matched |
| Sanitising.MatchedLineGoes | internal/device/device.go:164-171 | a line matched by a pattern, its trailing blanks and tabs aside, goes, and the rest is as without it |
| Sanitising.TailGoes | internal/device/device.go:166 | trailing blanks and tabs of a line go, and nothing else of it |
| Sanitising.EmptyEndGoes | internal/device/device.go:175-179 | an empty line at the end goes, and a missing last newline is added |
| Sanitising.OtherLinesStay | internal/device/device.go:163-179 | lines without trailing blanks that no pattern matches stay as they are, in order, if the last is not empty |
| Sanitising.BlockIsCommented | internal/device/device.go:141-153 | a block is reported line by line as comments, without the newlines at its end, and not at all if it is blank |
| Sanitising.ProcessedIs | internal/device/device.go:94-120 | what is stored for a format: sanitised, under the header if it is enabled, # starts a comment in the format, and something is left |
| Device.Result.ApplyHeader | internal/device/device.go:110-120 | exactly the comment formats with content get the header |
| Device.Result.SanitizeAll | internal/device/device.go:94-96 | every configuration is sanitised, none added or lost |
| Device.Result.Process | internal/device/device.go:83-103 | sanitised first, header after |
| RouterOS.ColoursDoNotMatter | internal/routeros/routeros.go:123-125 | whatever sequences are put between texts without escape characters, stripping gives the texts |
| RouterOS.StripIsIdleIff | internal/routeros/routeros.go:123-125 | stripping changes a text iff it holds a sequence |
| RouterOS.SecondPassIff | internal/routeros/routeros.go:125 | a second pass changes something iff, reading the text given once and skipping whole sequences, what stays spells a sequence |
| RouterOS.SequenceLengthIff | internal/routeros/routeros.go:123 | a sequence is ESC, [, digits and semicolons, and a letter |
| RouterOS.HasSequenceIff | internal/routeros/routeros.go:123 | a text holds one iff it has such a piece |
| RouterOS.StripIsNotIdempotent | internal/routeros/routeros.go:125 | a text whose stripping creates a sequence |
| RouterOS.BannerIgnoresBlanks | internal/routeros/routeros.go:100 | trailing blanks do not decide whether a line is the banner |
| RouterOS.ParseExport | internal/routeros/routeros.go:102-117 | the loop drops exactly the banner lines |
| ExportBanner.IsBannerIff | internal/routeros/routeros.go:100 | a line is the banner iff it is #, white space, a word, white space, a clock, white space, by RouterOS, and then no word character |
| ExportBanner.BodyWithoutBanner | internal/routeros/routeros.go:106-116 | such a line is dropped from an export wherever it stands, and the lines around it stay |
| ExportBanner.RestampedHasSameBody | internal/routeros/routeros.go:94-116 | two exports that differ in the word and the clock of such a line have the same body |
| ExportBanner.LaterFetch | internal/routeros/routeros.go:94-116 | a later date and clock in one banner line of an export are such a difference |
| RouterOS.BodyIsCleanedAlike | internal/routeros/routeros.go:102-117 | what is stored depends on the lines only up to banners, CRLF for LF and trailing blanks |
| RouterOS.FilterKeys | internal/routeros/metadata.go:99-120 | the loop with its flag computes the filtered text |
| RouterOS.FilterSelectsRecords | internal/routeros/metadata.go:109-118 | the lines kept are the lines of the records with listed keys, continuations included, in order |
| RouterOS.UnlistedRecordsDoNotMatter | internal/routeros/metadata.go:93-120 | texts that differ only in records of unlisted keys filter alike |
| RouterOS.FilterTwiceIff | internal/routeros/metadata.go:99-120 | filtering by two lists in turn is filtering by their intersection iff no line that both keep, but the last, ends in a CR of its own |
| RouterOS.FilterTwiceOnPlainText | internal/routeros/metadata.go:99-120 | in particular for every text without CR CR LF |
| RouterOS.FilterIsNotIdempotent | internal/routeros/metadata.go:109 | a text for which filtering twice by the same list loses a CR |
| RouterOS.ParseKeys | internal/routeros/metadata.go:124-132 | the loop computes the parsed map |
| RouterOS.ParseOfFiltered | internal/routeros/metadata.go:99-132 | parsing the filtered text is parsing the text and keeping the listed keys |
| PrintLines.KeyMatchIff | internal/routeros/metadata.go:93 | which lines carry a key, which key, and which value |
| PrintLines.UnlistedValuesDoNotMatter | internal/routeros/metadata.go:99-120 | texts that differ in the values of any number of lines with unlisted keys filter alike |
| PrintLines.LastLineIsRead | internal/routeros/metadata.go:124-132 | a key is read from the last line that has it, and its value is trimmed |
| PrintLines.MissingKeyIsNotRead | internal/routeros/metadata.go:124-132 | a key no line has is not read |
| PrintLines.VolatileKeysAreNotListed | internal/routeros/metadata.go:27-46 | uptime, free memory, load and offered firmware are not among the listed keys |
| RouterOS.HeaderBlocks | internal/routeros/metadata.go:59-72 | one block per command, blank when it failed or was refused |
| RepoPath.NoDotsLeft | internal/runner/runner.go:612 | replacing two dots from left to right leaves no two dots in a row |
| RepoPath.SanitizedNameIsSafe | internal/runner/runner.go:608-614 | a sanitised name holds no separator and no .., and starts and ends in no dot |
| RepoPath.PathShape | internal/runner/runner.go:595-605 | a path is one component, or a directory and a file, each without separators and .. |
| RepoPath.PathsCollideIff | internal/runner/runner.go:595-605 | when two (device, format) pairs share a path, exactly |
| RepoPath.DevicesAreSeparated | internal/runner/runner.go:595-605 | names distinct after sanitising, none another plus .verbose or .terse, never share a path |
| RepoPath.SanitizeIsNotInjective | internal/runner/runner.go:608-614 | two names with the same sanitised form |
| RepoPath.SanitizeTwiceIff | internal/runner/runner.go:608-614 | sanitising again changes a name iff, after its replacements, the first or last character that is no dot and no blank is other white space |
| RepoPath.SanitizeIsNotIdempotent | internal/runner/runner.go:613 | a name that changes when sanitised again |
| PathNames.ThreeReplacementsAreOne | internal/runner/runner.go:610-612 | the three replacements are one pass from left to right: each separator and each pair of dots becomes an underscore |
| PathNames.NameIs | internal/runner/runner.go:608-614 | the name of a stored file: that pass over what is left within the white space, without the dots and blanks at its ends |
| PathNames.EveryNameHasParts | internal/runner/runner.go:608-614 | every name comes apart in this way, so that is what every name becomes |
| PathNames.PlainNameIsKept | internal/runner/runner.go:608-614 | letters, digits, - and _ are kept |
| PathNames.PathIs | internal/runner/runner.go:595-605 | the path of each rendering in both layouts, letter by letter; ungrouped iff nothing is left of the group |
| EndToEnd.UnchangedStoresTheSame | internal/routeros/routeros.go:41-58 | two fetches whose exports differ only in colours, banners, CRLF and trailing blanks and whose print outputs differ only in colours and unlisted records are stored as the same bytes |
| EndToEnd.StoredIs | internal/device/device.go:83-103 | what is stored for one export: its body sanitised, under the commented blocks of the print commands that neither failed nor were refused |
| EndToEnd.TimeStoresNothingNew | internal/routeros/routeros.go:41-58 | two fetches between which only the word and clock of a banner and the values of unlisted keys have changed are stored as the same bytes |
| EndToEnd.FilesHoldAllFormats | internal/runner/runner.go:418-420 | no format overwrites another, in whatever order they are put into the request |
| EndToEnd.FilesAreNamed | internal/runner/runner.go:418-420 | which format is stored under which extension |
| EndToEnd.DevicesCommitApart | internal/runner/runner.go:418-420 | devices whose file names cannot clash commit disjoint sets of paths |
| EndToEnd.NoChurn | internal/store/git.go:249-251 | backing up the unchanged device again adds no commit, whatever other devices committed or failed to commit meanwhile |
| NoChurn.FilesStay | internal/store/git.go:220-269 | in every behaviour of the service, committed files stay in HEAD and index while only compatible files are committed |
| NoChurn.UnchangedDeviceIsNotCommittedAgain | internal/runner/runner.go:425-455 | in every behaviour of the service, the later backup of an unchanged RouterOS device adds no commit and reports no change |
| NoChurn.TimeIsNotCommitted | internal/runner/runner.go:425-455 | so, in every behaviour of the service, time alone makes no commit |

## Left out

- SSH dialling, authentication, host keys and deadlines: a fetch succeeds with some files or fails at some stage.
- Writes to the NETCONF channel are taken to succeed, and XML decoding of replies is an arbitrary function.
- go-git, the filesystem and the network: ignore rules, aliased paths, partial file contents after a failed write and the order of a history with merges are not modelled; a failed clone leaves the directory as it was.
- SetStore and reopening the repository on reload: the repository of a behaviour, its remote and the branch names are the same throughout.
- Refreshing the repository gauges after a run.
- The updates of several series by one Observe call are one step of the machine, as are the two reads of the configuration for layout and commit prefix.
- ServiceRuns.GaugesAgree: for a device that no reload takes from a pending worker; ServiceRuns.GaugesAgreeIff says exactly what holds otherwise.
- ServiceRuns.ScansKeepDistance: measured from the clock reading from which the next run was computed, and for scans whose list is still current; ServiceSpacing.ScanKeepsGapIff says what happens otherwise.
- RouterOS.BodyIsCleanedAlike: for line ends LF and CRLF, because the banner is matched before lone CRs are normalised.
- Mirror.Site.Open: a process that dies in the middle of a clone is not a step, because what go-git has on disk by then is not part of this model; a clone that fails and returns is.
- Runner.Runner.Reload: leaves out the inventory gauges and the host, group, vendor and transport of an entry, which nothing modelled here reads.
- Runner.Runner.Succeed: leaves out the last commit, host name, model and version of an entry, which are only displayed.
- Runner.Runner.Backup: leaves out the same fields, the size series and the counters of git operations.
- Metrics.ForgetIsComplete: for the ten per-device collectors that attempts and changes feed; the identity, size, duration and commit series that are cleared alike are not modelled.
- Metrics.Metrics.ForgetDevice: likewise.
- Metrics.Metrics.ObserveSuccess: leaves out the gauge of the last duration; durations enter as counts of the histogram only.
- Metrics.Metrics.ObserveFailure: likewise.
- Commit messages, logging, HTTP handlers and the Prometheus encoding.
- Vendor tables, default merging and the other checks of the configuration loader.
- Invalid UTF-8 in texts.
- Wall-clock promises: fetch times are not bounded across devices.

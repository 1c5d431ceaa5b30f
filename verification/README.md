# A verified model of riku

riku is a git-push platform: it deploys apps on one host, routes them through
nginx or Caddy, publishes their static files and scales their workers. This
project models the parts of riku whose comments promise the most and proves
what they promise, in Dafny. `dafny verify dfyconfig.toml` checks all of it.

Every system call, router check and router reload may be refused by its
environment at any moment. Classes count those refusals (`faults`, `refusals`),
so a contract can say both what a failure may leave behind and that nothing
fails on its own. Classes that change a disk also keep a ghost `trace` of it
after every change, so a contract can speak of every intermediate state.

## What is proved

**The router helper's transaction.** A request takes a snapshot of an app's
files, writes each through a `.new` sibling and a rename, has the router check
and reload, and puts the old files back on failure. `SiteFiles` models the file
operations one system call at a time, `RouterPlan` the files of each request,
`RouterHelper` the helper itself, and `RouterRun` whole runs. The main result,
`RouterRun.EveryRunIsAllOrNothing`, covers every sequence of requests for any
apps and both routers: each app's files hold what its last Ok request planned,
the router runs those same files, and no other file has changed.
`RouterHelper.Helper.Serve` proves the imperative helper keeps that invariant, and
`RouterRun.OkNginxApplyLeaves` says which bytes an Ok apply leaves in which file.

**The deploy lock.** `DeployLock` is a transition system over any number of
processes: flock, the two-step tag, polling contenders, probes, forked children
that inherit the descriptor, crashes. Its results hold on every reachable run.

**Static publishing.** `StaticCopy` copies out of a directory graph that
symlinks may make cyclic; `StaticSite` stages such a copy and swaps it in by
one rename, with nginx's view proved old or new at every step. `StaticRun` lifts
this to every run of publishes and removals of any apps.

**The login throttle.** `LoginThrottle` proves that pruning is invisible, that
clients are independent, and that any half hour holds at most ten attempts.

**Texts and their readers.** `RouteGate` and `CaddySite` prove that the gate and
both renderers never disagree and that the Caddy text determines the route;
`RouteRules` says field by field which routes are accepted.
`EnvFile`, `Scaling` and `Releases` prove that what is written reads back, and
what follows for settings, worker numbers and rollbacks.

## Where the code and its words disagree

The model follows the code in each case. Each has a lemma with a failing input
and a lemma that says exactly when the promise holds.

- A restore gives a file the planned mode, not the mode it had: exact if and
  only if the modes were as planned (`SiteFiles.RollbackIsExactIffModesArePlanned`,
  `SiteFiles.ARestoreCanChangeAMode`). The run invariant supplies that condition.
- An Ok reply to a remove does not always mean the router has dropped the app
  (`RouterRun.OkRemoveTakesTheAppOutIff`, `RouterRun.OkRemoveCanLeaveTheAppServed`).
- A deploy is to outwait a restart, but is refused while a restart has the lock
  if the lock file cannot be read or does not name the restart yet
  (`DeployLock.RestartIsOverlookedIff`, `DeployLock.ADeployCanBeRefusedDuringARestart`).
- It is to wait for nothing but a restart, but waits on a tag that an earlier
  restart left (`DeployLock.WaitsForAnotherIff`, `DeployLock.ADeployCanWaitWithoutARestart`).
- The comment in `is_locked` says a probe never looks like a held lock to
  another probe. It does between its flock and its unlock, and when it dies there
  (`DeployLock.ProbeSeesAProbeIff`, `DeployLock.AProbeCanSeeAnotherProbe`).
- A publish under a stamp that is taken cleans up what has it, the live copy
  included (`StaticSite.TakenStampKeepsTheFilesIff`, `StaticSite.ATakenStampCanEmptyAnApp`).
- Settings with references to each other do not survive writing and reading
  (`EnvFile.RoundTripsInEveryOrderIff`, `EnvFile.AReferenceIsExpandedOnTheWayBack`).
- Deleting a worker checks the first SCALING line of its kind and applies the
  last one (`Scaling.DeleteRemovesTheOneAskedForIff`, `Scaling.DeleteCanRemoveAnother`).
- There is to be no hole in the numbers of a kind's workers. A prune that stops
  can leave one, because it removes the lowest numbers first
  (`Scaling.StoppedPruneLeavesAHoleIff`, `Scaling.AStoppedPruneCanLeaveAHole`).
- A prune that failed is not made up for by a later scaling
  (`Scaling.KindIsWithinAfterIff`, `Scaling.AFailedPruneIsNotRepeated`). Nor is a
  count that was lost because the SCALING file could not be inspected
  (`Scaling.AnUnseenFileIsForgotten`, by the same condition).
- A write of the SCALING file that was cut can leave fewer counts than workers
  (`Scaling.WithinCutFileIff`, `Scaling.AnEmptyFileIsTooShort`).
- No release is to be listed twice in a row. One is if it is recorded again while
  the log cannot be read, or with blanks around it, which the only caller trims
  (`Releases.RecordStaysChangingIff`, `Releases.AnUnreadLogRepeatsARelease`,
  `Releases.ABlankRepeatsARelease`; for whole logs `Releases.LogListsTheChanges`).
- A release recorded after a line that a failed write left open can be lost
  (`Releases.RecordedIsCurrentIff`, `Releases.ATornWriteCanLoseARelease`).
- Pruning the throttle shows when the clock goes back: in a lock after more than
  15 minutes, in a failure count after a millisecond
  (`LoginThrottle.PruningShowsIff`, `LoginThrottle.ASetBackMillisecondLosesALock`).

## Model

| member | source | states |
|---|---|---|
| `SiteFiles.PrefixIsNewRestIsOld` | crates/riku-route/src/site_files.rs:165-176 | in any state of an install a prefix of the plan is wholly new, the rest wholly old, and only planned paths and their staged names differ |
| `SiteFiles.RollbackIsExactIffModesArePlanned` | crates/riku-route/src/site_files.rs:121-162 | from any state of a commit, a restore without failures brings back every path but staged names if and only if each existing file carried its planned mode |
| `SiteFiles.ARestoreCanChangeAMode` | crates/riku-route/src/site_files.rs:126-161 | a file with another mode comes back with the planned one |
| `SiteFiles.Disk.CreateStaged` | crates/riku-route/src/site_files.rs:68-82 | clears a left-over staged name and creates an empty file of exactly the mode; only the staged name changes |
| `SiteFiles.Disk.Fill` | crates/riku-route/src/site_files.rs:84-87 | on success the staged file holds all of the bytes under the mode and has been synced; at every step only the staged name differs |
| `SiteFiles.Disk.WriteFile` | crates/riku-route/src/site_files.rs:90-103 | success replaces the target with synced content and leaves no staged name; a failure leaves the target as it was; in every intermediate state the target is old or new |
| `SiteFiles.Disk.RemoveFile` | crates/riku-route/src/site_files.rs:106-112 | a missing file is a success; a refusal changes nothing |
| `SiteFiles.Disk.TakeSnapshot` | crates/riku-route/src/site_files.rs:126-137 | reads the bytes of every planned file under the planned mode and changes nothing; a refused read gives no snapshot |
| `SiteFiles.Disk.Install` | crates/riku-route/src/site_files.rs:165-176 | success is the whole plan; a failure stops after a prefix; every intermediate state is such a prefix |
| `SiteFiles.Disk.Restore` | crates/riku-route/src/site_files.rs:145-161 | tries every file; with no failure the snapshot is in place; in every state each file is wholly old or wholly restored |
| `RouterPlan.PathsNameTheirOwner` | crates/riku-route/src/nginx_roots.rs:69-75 | every path a request may touch, staged names included, determines its router and app, for all roots |
| `RouterPlan.Isolation` | crates/riku-route/src/caddy_apply.rs:64-66 | requests for different apps or routers touch disjoint paths, staged names included |
| `RouterPlan.ShapePaths` | crates/riku-route/src/nginx_apply.rs:34-58 | a plan that covers the app's files has exactly their paths and staged names, no two of which clash, each file under its fixed mode |
| `RouterPlan.NginxPlanIs` | crates/riku-route/src/nginx_apply.rs:34-58 | what an accepted nginx route plans, file by file: the template's text, and for an HTTPS-only route the key, private, and the chain as the PEM check left them; for any other neither |
| `RouterPlan.AcceptedNginxRouteIsPlanned` | crates/riku-route/src/nginx_apply.rs:112-130 | every nginx route the gate accepts is planned if and only if the template renders it |
| `RouterPlan.AcceptedCaddyRouteIsPlanned` | crates/riku-route/src/caddy_apply.rs:126-149 | every Caddy route the gate accepts is planned, as one file whose text reads back as the app and its route |
| `RouterRun.FailureMovesNothing` | crates/riku-route/src/nginx_apply.rs:84-108 | a failed request whose restore succeeded leaves every managed and foreign file and both routers as they were, modes included |
| `RouterRun.AnswerKeepsInv` | crates/riku-route/src/answer.rs:30-50 | one answered request, whatever its reply, keeps the run invariant |
| `RouterRun.EveryRunIsAllOrNothing` | crates/riku-route/src/nginx_apply.rs:94-146 | over every run, the files of an app without an unrepaired failed restore are those of its last Ok request or the initial ones, its router runs them, and foreign files never change |
| `RouterRun.RoutersRunWhatIsOnDisk` | crates/riku-route/src/caddy_apply.rs:112-164 | over every run without a failed restore each router runs exactly its files on disk |
| `RouterRun.RepeatChangesNothing` | crates/riku-route/src/site_files.rs:165-176 | installing a plan twice is installing it once |
| `RouterRun.OkRequestsCommute` | crates/riku-route/src/answer.rs:30-50 | two Ok requests for different apps or routers leave the same disk in either order |
| `RouterRun.OkNginxApplyLeaves` | crates/riku-route/src/nginx_apply.rs:112-130 | after an Ok apply disk and nginx hold the template's text, and the key in the private file and the chain in the public one for an HTTPS-only route, neither for any other |
| `RouterRun.OkCaddyApplyLeaves` | crates/riku-route/src/caddy_apply.rs:136-149 | after an Ok apply disk and Caddy hold the rendered text of the route's plan |
| `RouterRun.OkRemoveTakesTheAppOutIff` | crates/riku-route/src/caddy_apply.rs:151-164 | after an Ok remove the router runs nothing of the app if and only if one of its files was on disk or the router already ran none |
| `RouterRun.OkRemoveCanLeaveTheAppServed` | crates/riku-route/src/caddy_apply.rs:151-164 | a run of two removes, the first with a failed restore, whose last reply is Ok while Caddy still serves the app |
| `RouterRun.RemovedAppsAreNotServed` | crates/riku-route/src/nginx_apply.rs:132-146 | in every run an Ok remove of an app without an unrepaired failed restore leaves none of its files on disk or in the router |
| `RouterHelper.Helper.RolledBack` | crates/riku-route/src/nginx_apply.rs:84-92 | the reply keeps the stage and says whether the restore failed; the disk is the snapshot or, after a failure, whole file by file |
| `RouterHelper.Helper.CommitNginx` | crates/riku-route/src/nginx_apply.rs:96-108 | the world after each reply; every disk state on the way is whole; with nothing refused the reply is Ok |
| `RouterHelper.Helper.CommitCaddy` | crates/riku-route/src/caddy_apply.rs:112-124 | the same for Caddy, whose reload is also its check |
| `RouterHelper.Helper.ApplyNginx` | crates/riku-route/src/nginx_apply.rs:112-130 | refines the step relation of the runs and never shows a partial file |
| `RouterHelper.Helper.ApplyCaddy` | crates/riku-route/src/caddy_apply.rs:136-149 | refines the step relation of the runs and never shows a partial file |
| `RouterHelper.Helper.RemoveNginx` | crates/riku-route/src/nginx_apply.rs:134-146 | refines the step relation; an app with no file is Ok without a reload |
| `RouterHelper.Helper.RemoveCaddy` | crates/riku-route/src/caddy_apply.rs:153-164 | refines the step relation; an app with no file is Ok without a reload |
| `RouterHelper.Helper.PlanCaddy` | crates/riku-route/src/caddy_apply.rs:136-149 | only the gate can refuse a Caddy route, never the renderer behind it |
| `RouterHelper.Helper.Answer` | crates/riku-route/src/answer.rs:30-50 | every request refines the step relation, shows no partial file, and with nothing refused a plannable request is Ok |
| `RouterHelper.Helper.Serve` | crates/riku-route/src/listen.rs:87-101 | after any sequence of requests served one at a time the run invariant holds, whatever was refused |
| `DeployLock.StepKeepsInv` | crates/riku-deploy/src/lock.rs:66-241 | every action of every process keeps the lock invariant |
| `DeployLock.OneHolderAndItIsNamed` | crates/riku-deploy/src/lock.rs:120-190 | on every reachable run at most one process holds the lock, and a holder that recorded itself is the one the tag names |
| `DeployLock.OnlyTheHolderWritesTheTag` | crates/riku-deploy/src/lock.rs:120-125 | a step that changes the tag is taken by the holder of the lock |
| `DeployLock.RefusedDeployFoundNoRecordedRestart` | crates/riku-deploy/src/lock.rs:82-118 | a refused deploy waited out the grace, and one refused before the restart wait was refused by the very read of the tag that found no recorded restart holding the lock, or that failed |
| `DeployLock.RestartIsOverlookedIff` | crates/riku-deploy/src/lock.rs:82-125 | a deploy past its grace is refused while a restart has the lock, itself or through a duplicate, if and only if the file cannot be read or the restart is not recorded and the text is not its tag; and what that means in each phase of the restart |
| `DeployLock.ADeployCanBeRefusedDuringARestart` | crates/riku-deploy/src/lock.rs:137-141 | a run in which that happens |
| `DeployLock.WaitsForAnotherIff` | crates/riku-deploy/src/lock.rs:82-102 | a deploy past its grace waits on although the holder is no restart if and only if the file can be read and still names one, and the holder has neither started writing nor recorded itself |
| `DeployLock.ADeployCanWaitWithoutARestart` | crates/riku-deploy/src/lock.rs:89-102 | a run without any restart in which that happens |
| `DeployLock.FlockAnswers` | crates/riku-deploy/src/lock.rs:66-118 | whoever asks, first or in the retry loop, gets the lock if and only if no file has it; otherwise it waits or answers, and nothing changes hands |
| `DeployLock.TurnedFoundTheLockHeld` | crates/riku-deploy/src/lock.rs:104-118 | on every run, whoever is in the retry loop or was refused by it found the lock held by another at its last flock |
| `DeployLock.TurnsAreTheLoop` | crates/riku-deploy/src/lock.rs:97-118 | after a contended flock every caller polls on if and only if the keep-waiting rule says so of its time in the loop and of the file, and is refused otherwise |
| `DeployLock.KeepWaitingIs` | crates/riku-deploy/src/lock.rs:30-102 | everyone waits out a second; after it only a deploy waits, up to two and a half minutes, while the file names a restart |
| `DeployLock.LockedCanRecord` | crates/riku-deploy/src/lock.rs:120-190 | whoever was granted the lock can go on to record itself and is then named by the tag, restart or operation |
| `DeployLock.ForkedChildKeepsTheLock` | crates/riku-deploy/src/lock.rs:89-96 | a child forked under the lock keeps it past the release until it execs; without one the release frees it |
| `DeployLock.ProbeAnswers` | crates/riku-deploy/src/lock.rs:214-241 | a probe says locked if and only if some file holds the lock, and disturbs no holder or tag |
| `DeployLock.ProbeSeesAProbeIff` | crates/riku-deploy/src/lock.rs:214-241 | on every run, the lock a probe reports is another probe's if and only if some probe is between its flock and its unlock, or died there and left a duplicate to a child |
| `DeployLock.UnlockedProbesNeverHold` | crates/riku-deploy/src/lock.rs:224-232 | once a probe has unlocked it never has the lock again on any run, whatever duplicates are left |
| `DeployLock.AProbeCanSeeAnotherProbe` | crates/riku-deploy/src/lock.rs:224-232 | a run in which a probe says locked and only probes exist |
| `DeployLock.TryFlock` | crates/riku-deploy/src/lock.rs:66-80 | retries exactly the interrupted calls and returns the first that was not |
| `DeployLock.RetryAcquire` | crates/riku-deploy/src/lock.rs:97-118 | gives up only after the grace and when it may not keep waiting, and bounds its polls even against a stale restart tag |
| `DeployLock.PollLimits` | crates/riku-deploy/src/lock.rs:30-36 | the bound is 100 polls for a plain acquire and 15000 for a deploy |
| `DeployLock.LockFile.RecordHolder` | crates/riku-deploy/src/lock.rs:120-125 | success leaves the tag; a failure leaves the old text or a strict beginning, which never reads as a restart |
| `StaticCopy.StaticRoot.CopyTree` | crates/riku-nginx/src/static_copy.rs:72-101 | terminates on every graph; success leaves exactly the unfolding of the source; without a refusal it succeeds if and only if the source can be copied; nothing outside the destination ever changes |
| `StaticCopy.StaticRoot.CopyEntry` | crates/riku-nginx/src/static_copy.rs:106-125 | follows links only into the checkout and skips special files |
| `StaticCopy.StaticRoot.CopySource` | crates/riku-nginx/src/static_copy.rs:25-45 | a missing source is an empty directory, one outside the checkout or no directory is refused, any other is copied exactly |
| `StaticCopy.CopySucceedsIff` | crates/riku-nginx/src/static_copy.rs:56-125 | a directory can be copied if and only if everything reachable is nested at most 64 deep with every entry inside the checkout |
| `StaticCopy.CopiedGraphIsAcyclic` | crates/riku-nginx/src/static_copy.rs:19-101 | no node reachable from a copied source leads back to itself |
| `StaticCopy.SourceIsPublishedIff` | crates/riku-nginx/src/static_copy.rs:25-45 | a source is published if and only if it does not exist or leads to a directory of the checkout within reach |
| `StaticCopy.SourceImageIs` | crates/riku-nginx/src/static_copy.rs:25-125 | what a published source holds, name by name: empty if it does not exist, the images of entries, the bytes of files, nothing for the rest |
| `StaticCopy.CopiesAreShallow` | crates/riku-nginx/src/static_copy.rs:16-53 | a copy has the published modes, nests directories at most 64 deep and takes every file's bytes from the checkout |
| `StaticSite.AppsOwnDifferentNames` | crates/riku-nginx/src/static_site.rs:198-217 | no name in the static root belongs to two apps |
| `StaticSite.Publisher.CopySources` | crates/riku-nginx/src/static_site.rs:127-154 | success leaves exactly the document root and the numbered sources; only the stage changes |
| `StaticSite.Publisher.SwapIn` | crates/riku-nginx/src/static_site.rs:166-188 | at every step the app shows its old copy or the new one and no other app changes; without a refusal only the new copy is left |
| `StaticSite.Publisher.RemoveCopies` | crates/riku-nginx/src/static_site.rs:200-217 | only copies of the app other than the kept one change, and without a refusal none of them is left |
| `StaticSite.Publisher.RemoveStatic` | crates/riku-nginx/src/static_site.rs:191-196 | never touches another app; success leaves no link, and without a refusal no entry of the app |
| `StaticSite.Publisher.PublishStatic` | crates/riku-nginx/src/static_site.rs:91-124 | at every step nginx finds the old files or all of the new ones; success serves the new copy; sources that cannot be copied, or a stamp that is taken, change nothing but the stage; without a refusal it succeeds if and only if they can be copied and the stamp is free, leaving only the link and one copy |
| `StaticSite.TakenStampKeepsTheFilesIff` | crates/riku-nginx/src/static_site.rs:117-122 | whatever the clean-up of a publish under a taken stamp could remove, the app shows what it showed if and only if its link names another copy or nothing of that copy is gone; emptied, it shows nothing |
| `StaticSite.ATakenStampCanEmptyAnApp` | crates/riku-nginx/src/static_site.rs:117-122 | a published app whose stamp is taken again ends up without files |
| `StaticRun.StepKeepsLinkSound` | crates/riku-nginx/src/static_site.rs:91-196 | every publish and removal of any app, failed or not, keeps each app's entry absent or a link to a copy that is there |
| `StaticRun.EveryRunShowsWholeCopies` | crates/riku-nginx/src/static_site.rs:91-196 | over every run of publishes and removals nginx finds for each app all of one copy or nothing, as its last Ok operation or a later one was to leave it |
| `StaticRun.OkOperationsAreShown` | crates/riku-nginx/src/static_site.rs:91-196 | an app whose last operation was Ok shows exactly what that operation was to leave, whatever other apps did since |
| `StaticSite.PublishedIsReadyForTheNext` | crates/riku-nginx/src/static_site.rs:163-188 | a published app meets the conditions of its next publish under any other stamp |
| `StaticSite.MappingReads` | crates/riku-nginx/src/static_site.rs:51-61 | a mapping is read as what stands before and after its one colon, without blanks; a blank side gives nothing |
| `StaticSite.MappingsHaveOneColon` | crates/riku-nginx/src/static_site.rs:51-61 | an entry is a mapping if and only if it has exactly one colon with something on both sides |
| `StaticSite.SettingReads` | crates/riku-nginx/src/static_site.rs:47-63 | the setting is read as the mappings among its comma separated entries, in order |
| `StaticSite.DeployPublishesIff` | crates/riku-nginx/src/static_site.rs:97-101 | a deploy publishes if and only if the settings ask for a document root or hold a mapping |
| `StaticSite.RootIsServed` | crates/riku-nginx/src/static_site.rs:112-117 | nginx finds the document root that the settings name, or the default, under its directory, and nothing there if they ask for none |
| `StaticSite.AliasLeadsToItsSource` | crates/riku-nginx/src/route_site.rs:76-95 | when a route carries the static locations of the published settings, the n-th alias is where nginx finds the copy of the n-th mapping's source |
| `LoginThrottle.Throttle.PruneRecords` | dashboard/lib/login-throttle.ts:48-53 | above the size limit the deleting loop drops exactly the stale records, below it nothing |
| `LoginThrottle.Throttle.LockRemaining` | dashboard/lib/login-throttle.ts:56-60 | the rest of the key's lock, never negative |
| `LoginThrottle.Throttle.RecordFailure` | dashboard/lib/login-throttle.ts:67-76 | the table of the specification that the run results are about |
| `LoginThrottle.Throttle.RecordSuccess` | dashboard/lib/login-throttle.ts:78-80 | forgets the key and nothing else |
| `LoginThrottle.LocksDoubleUpToTheCap` | dashboard/lib/login-throttle.ts:13-15 | four failures are free, the fifth locks for 30 s, each later one doubles the lock up to 15 minutes |
| `LoginThrottle.PruningIsInvisible` | dashboard/lib/login-throttle.ts:44-76 | in every run with a clock that never goes back the pruned table answers as one that is never pruned, for locks and for failure counts |
| `LoginThrottle.PruningShowsIff` | dashboard/lib/login-throttle.ts:44-76 | exactly when a pruned table gives another lock, which takes a clock set back by more than 15 minutes, and exactly when it counts the next failure differently, which takes any set-back past the half hour |
| `LoginThrottle.ASetBackMillisecondLosesALock` | dashboard/lib/login-throttle.ts:48-76 | a run with more than 1000 clients and a clock set back by a millisecond that loses four failures and the lock of the fifth |
| `LoginThrottle.KeysAreIndependent` | dashboard/lib/login-throttle.ts:56-80 | in every such run the answer for a key is that of the run of its own events alone |
| `LoginThrottle.NoLockOutlastsTheCap` | dashboard/lib/login-throttle.ts:56-76 | in every run, on any clock, no lock lasts more than 15 minutes after the key's last failure |
| `LoginThrottle.ForgottenAfterHalfAnHour` | dashboard/lib/login-throttle.ts:44-76 | more than half an hour after its last failure a client's next failure is its first and there is no lock |
| `LoginThrottle.ForgottenAfterSuccess` | dashboard/lib/login-throttle.ts:56-80 | so it is for one that has not failed since its last success, or never |
| `LoginThrottle.RememberedForHalfAnHour` | dashboard/lib/login-throttle.ts:56-76 | within it and without a success the next failure counts one more than the last and the lock is the rest of the one that set |
| `LoginThrottle.AtMostTenAttemptsInHalfAnHour` | dashboard/lib/login-throttle.ts:13-76 | in every run that attempts only while unlocked, a half hour without a success of the key holds at most ten of its attempts |
| `RouteGate.DomainChars` | crates/riku-util/src/domain.rs:32-64 | an accepted hostname is not empty and holds only lowercase letters, digits, hyphens, dots and a star |
| `RouteGate.ParseDomainIdempotent` | crates/riku-util/src/domain.rs:44-65 | parsing an accepted hostname again changes nothing |
| `RouteRules.DomainParsesIff` | crates/riku-util/src/domain.rs:32-64 | a domain parses if and only if its lowercase form is a hostname of at most 253 characters, labels of at most 63 with dots between, the first of which may be a star |
| `RouteRules.AppNamesArePlain` | crates/riku-container/src/types/names.rs:36-71 | an accepted app name is one plain path component; every plain name that starts with a letter or digit is accepted |
| `RouteRules.CommonOkIff` | crates/riku-route/src/check.rs:31-91 | the common checks pass if and only if every name is a hostname or the catch-all, every backend local, the port unprivileged or 80, and every location plain |
| `RouteRules.NginxGateIs` | crates/riku-route/src/check.rs:107-121 | nginx is given a route if and only if it keeps those rules, an HTTPS-only one has a pair and a pair passes the PEM check; it is then the one sent with the pair as checked |
| `RouteRules.CaddyGateIs` | crates/riku-route/src/check.rs:123-161 | Caddy is given a route if and only if it keeps those rules and has no pair, git folders, other port, other kind, static path, socket or catch-all; it is then the one sent |
| `RouteRules.ContextIs` | crates/riku-nginx/src/route_site.rs:60-129 | which template an accepted route gets, its port as text, the files of its own directories and its flags |
| `RouteGate.InsertStatic` | crates/riku-nginx/src/route_site.rs:76-95 | the loop builds one alias for each location in order, or refuses if and only if some location is unclean |
| `RouteGate.GateAndNginxRendererAgree` | crates/riku-route/src/check.rs:31-121 | every route the nginx gate accepts builds a context, with exactly its domains and in order the address of each backend and each location with its numbered directory |
| `RouteGate.AcceptedRouteInjectsNothing` | crates/riku-nginx/src/route_site.rs:97-129 | every route the gate accepts builds a context in which no unquoted value can end its nginx directive or, for addresses and locations, start another word |
| `RouteGate.GateAndCaddyPlanAgree` | crates/riku-route/src/caddy_apply.rs:69-96 | every route the Caddy gate accepts has a plan, with the route's own domains, policy and backends |
| `CaddySite.SiteReadsBack` | crates/riku-caddy/src/site.rs:22-60 | every such plan renders, and a reader recovers app, domains, policy and backends from the text |
| `CaddySite.SiteTextIs` | crates/riku-caddy/src/site.rs:22-60 | the text of a site, line by line, and its addresses: each domain, and again under plain HTTP unless the policy is HTTPS only |
| `CaddySite.NoSiteIff` | crates/riku-caddy/src/site.rs:36-45 | a plan has no text if and only if it has no backend or one on a unix socket |
| `CaddySite.SitesAreEqualIffRoutesAre` | crates/riku-caddy/src/site.rs:50-60 | two accepted routes render alike if and only if app, domains, policy and backends agree |
| `EnvFile.UnknownNamesStay` | crates/riku-util/src/env.rs:13-32 | a value that refers to no name of the environment expands to itself |
| `EnvFile.WordIsExpanded` | crates/riku-util/src/env.rs:13-32 | a dollar sign takes all the word characters after it as a name: its value, or its own text if unknown, then the rest expanded |
| `EnvFile.BracedIsExpanded` | crates/riku-util/src/env.rs:13-32 | the same for a name in braces |
| `EnvFile.PlainTextStays` | crates/riku-util/src/env.rs:13-32 | text without a dollar sign stays, whatever follows it |
| `EnvFile.StaysIffOwnTexts` | crates/riku-util/src/env.rs:13-32 | expanding one name leaves a text as it is if and only if every reference to it stands for its own text |
| `EnvFile.SettingLineReads` | crates/riku-util/src/env.rs:45-70 | what a line sets, and that it is malformed if and only if it is neither blank nor a comment and has no equals sign |
| `EnvFile.StripControlsIs` | crates/riku-util/src/env.rs:58-62 | stripping keeps exactly the characters that are no control characters, and tabs |
| `EnvFile.ParseSettings` | crates/riku-util/src/env.rs:36-73 | a file that cannot be read is an error, a missing file or malformed line gives no settings, otherwise every line is applied in order; what the caller's environment is left with in each case |
| `EnvFile.WriteConfig` | crates/riku-util/src/env.rs:80-86 | the loop writes one line for each entry, in the order given |
| `EnvFile.FileReadsBack` | crates/riku-util/src/env.rs:36-86 | a written file reads back as its entries, each expanded over those before it |
| `EnvFile.RoundTripsInEveryOrderIff` | crates/riku-util/src/env.rs:13-86 | a writable map survives writing and reading in every order if and only if each reference in a value to another key has that key's value equal to its own text |
| `EnvFile.RoundTripWithoutReferences` | crates/riku-util/src/env.rs:13-86 | a writable map whose values refer to no other key of it survives in every order |
| `EnvFile.AReferenceIsExpandedOnTheWayBack` | crates/riku-util/src/env.rs:36-73 | a map with a reference to the key written before it reads back with that key's value twice |
| `EnvFile.SuchAReferenceExists` | crates/riku-util/src/env.rs:36-73 | keys and values for which that happens |
| `Scaling.FileReadsBack` | crates/riku-deploy/src/scaling.rs:94-105 | the SCALING text written for some counts reads back as exactly those counts |
| `Scaling.LastLineWins` | crates/riku-deploy/src/scaling.rs:21-31 | a kind has a count if and only if a readable line names it, and the last such line gives it |
| `Scaling.FirstLineWins` | crates/riku-deploy/src/workers/scaling.rs:20-35 | the other reader takes the first such line, and 1 when there is none |
| `Scaling.SpacedLineReads` | crates/riku-deploy/src/scaling.rs:21-30 | blanks around the parts of a line do not matter |
| `Scaling.CommentsCountNothing` | crates/riku-deploy/src/scaling.rs:22-25 | a comment counts nothing, also one behind blanks |
| `Scaling.CutLineReads` | crates/riku-deploy/src/scaling.rs:98-103 | a line cut in writing counts nothing until a digit is written, then the number its digits make |
| `Scaling.CutFileReads` | crates/riku-deploy/src/scaling.rs:94-105 | any beginning of a written file reads as its whole lines and what the cut line counts |
| `Scaling.WithinCutFileIff` | crates/riku-deploy/src/scaling.rs:94-105 | workers are within what a cut file counts if and only if those of whole lines are within their counts, those of the cut one within its digits, and of other kinds there is only the first |
| `Scaling.AnEmptyFileIsTooShort` | crates/riku-deploy/src/scaling.rs:103-105 | two workers are not within an empty file |
| `Scaling.App.ReadCounts` | crates/riku-deploy/src/scaling.rs:12-33 | the loop over the lines computes the counts that the line rule is about |
| `Scaling.App.RemoveScaledDown` | crates/riku-deploy/src/scaling.rs:36-52 | unlinks from the lowest number up: exactly those below the one that could not be removed are gone, all of the range on success; a link that cannot be inspected is passed over |
| `Scaling.App.ApplyDeltas` | crates/riku-deploy/src/scaling.rs:57-117 | success returns the counts both readers of the file now read and prunes exactly the workers above them, where every link could be inspected; a file that cannot be inspected counts as missing; a failure leaves the workers as they were or a prune that stopped under the new counts, and the file old or a beginning of the new one |
| `Scaling.App.DeleteWorker` | crates/riku-deploy/src/worker_control.rs:92-115 | anything but the highest worker as first counted is refused without a change; success applies a delta of -1 |
| `Scaling.DeltasAreAdded` | crates/riku-deploy/src/scaling.rs:75-84 | with the casts and the wrapping sum written out, a delta in range is added, down to 0 |
| `Scaling.ScaledCountsAre` | crates/riku-deploy/src/scaling.rs:69-92 | the counts a scaling makes: those of the file, 1 for a new kind of the Procfile, with deltas added, from 0 for a kind with neither |
| `Scaling.ScalingStaysContiguous` | crates/riku-deploy/src/scaling.rs:57-117 | a successful scaling with any deltas keeps every kind's workers within 1 to its count and without a gap, drops none within the new counts and none of another app |
| `Scaling.EveryRunStaysContiguous` | crates/riku-deploy/src/scaling.rs:57-117 | over every run of scalings and starts of workers of any apps the workers of each kind are 1 to some N within its count |
| `Scaling.NoGapsAfterIff` | crates/riku-deploy/src/scaling.rs:107-114 | a scaling opens a gap if and only if a kind is scaled down while a worker is above its old count |
| `Scaling.StoppedPruneLeavesAHoleIff` | crates/riku-deploy/src/scaling.rs:36-52 | a prune that stopped leaves a hole if and only if it had removed a worker of the kind it stopped in |
| `Scaling.AStoppedPruneCanLeaveAHole` | crates/riku-deploy/src/scaling.rs:36-52 | four workers scaled down to one with a failure at the third leave the first, third and fourth |
| `Scaling.OtherAppsAreUntouched` | crates/riku-deploy/src/scaling.rs:36-117 | a run without steps of an app leaves its counts and workers alone |
| `Scaling.KindIsWithinAfterIff` | crates/riku-deploy/src/scaling.rs:107-114 | a kind comes out within its new count if and only if it was within the larger of its old and new counts |
| `Scaling.AFailedPruneIsNotRepeated` | crates/riku-deploy/src/scaling.rs:107-114 | of two workers scaled down to one with a failed prune, the second survives the next scaling |
| `Scaling.AnUnseenFileIsForgotten` | crates/riku-deploy/src/scaling.rs:12-16 | of two workers with a count of 2, a scaling that cannot inspect the file makes a count of 1 and keeps both |
| `Scaling.DeleteRemovesTheOneAskedForIff` | crates/riku-deploy/src/worker_control.rs:92-115 | a delete removes the worker asked for and it alone if and only if the first and last SCALING lines of its kind agree, or neither of the workers they count is enabled |
| `Scaling.DeleteCanRemoveAnother` | crates/riku-deploy/src/workers/scaling.rs:11-36 | with two lines that differ, a delete of one worker removes another |
| `Releases.EntryReadsBack` | crates/riku-deploy/src/releases.rs:57-75 | a line written for a revision reads back as its time and the revision without surrounding blanks |
| `Releases.RecordAppends` | crates/riku-deploy/src/releases.rs:40-75 | recording adds exactly one release at the end, or none when the log can be read and it is the current one |
| `Releases.RecordStaysChangingIff` | crates/riku-deploy/src/releases.rs:38-59 | adjacent releases stay different if and only if the log could be read and the revision has no blanks around it, or it reads back as another than the current |
| `Releases.ABlankRepeatsARelease` | crates/riku-deploy/src/releases.rs:38-59 | recording a revision with a blank after it twice lists it twice |
| `Releases.AnUnreadLogRepeatsARelease` | crates/riku-deploy/src/releases.rs:41-65 | any revision recorded again while the log cannot be read is listed twice |
| `Releases.RecordOnAnyLog` | crates/riku-deploy/src/releases.rs:52-75 | for any log, whole lines stay listed and a new line is read together with the open one, which may be empty; what is listed before and after |
| `Releases.RecordedIsCurrentIff` | crates/riku-deploy/src/releases.rs:52-75 | on any log a recorded revision is then the current one if and only if it was known to be, or the open line holds no blank and reads as a number with the new time behind it, or it was already and the new line is lost |
| `Releases.AnyLogStaysChangingIff` | crates/riku-deploy/src/releases.rs:52-75 | on any log adjacent releases stay different if and only if the revision was known to be the current one or what the joined line lists is not the one before it |
| `Releases.ATornWriteCanLoseARelease` | crates/riku-deploy/src/releases.rs:52-75 | after a line that lacks only its end the next revision does not become the current one |
| `Releases.LogListsTheChanges` | crates/riku-deploy/src/releases.rs:40-75 | the log of any deploys lists exactly those not seen to repeat the revision before them, and no two adjacent ones agree if and only if the log could be read at each repetition |
| `Releases.LatestOtherIs` | crates/riku-deploy/src/releases.rs:79-88 | in any history the default target is the last revision that differs from the current one, and none if and only if there is no such revision |
| `Releases.PreviousIsSecondToLast` | crates/riku-deploy/src/releases.rs:79-88 | where adjacent releases differ it is the second to last |
| `Releases.RollbacksAlternate` | crates/riku-deploy/src/lib.rs:173-185 | from any log any number of default rollbacks moves between the current release and the one before it only, back at the start after an even number that could find their target |
| `Releases.TwoRollbacksReturn` | crates/riku-deploy/src/lib.rs:173-185 | after any deploys of two or more revisions, readable or not, two default rollbacks that find their target return to the one deployed last |
| `Releases.ReleaseLog.Record` | crates/riku-deploy/src/releases.rs:40-59 | success writes the whole line unless the log could be read and the revision is the current one; a failed write leaves the log with at most part of the line appended |

## Left out

- The text of the Tera templates, the PEM check, JSON and UTF-8: the codec of a plan stands for them as arbitrary functions.
- Preparing and checking directories, and removing an app's empty certificate directory: a check that may refuse; directories are not files of the model.
- Error message texts, apart from the stage and whether the restore failed.
- Sockets, peer credentials, umask and ownership: the helper is modelled from parsed requests on.
- nginx applies a reload after the signal is sent; the model takes an accepted reload as having happened.
- Crash states inside one request: the run results are about replies, and the traces about single files.
- A non-loopback IPv6 address is kept as its text, since the gate refuses it.
- TryFlock: bounds the number of interrupted calls by a parameter, because an unbounded stream of interruptions never ends in the source either.
- PublishStatic: the old-or-new guarantee excludes a `<app>` that is a real directory, a layout of earlier versions whose replacement leaves a moment without files; the runs take free stamps, as the clock gives them.
- Resolving a source against the checkout: a function that gives what its path canonicalizes to.
- JavaScript numbers: times and counts of the throttle are integers. Client keys from headers are not modelled.
- A default for unknown names in `expandvars`: the settings parser passes none. Which characters are word characters is a parameter, as the regular expression library decides it; the dollar sign is not one.
- ApplyDeltas: writes the lines of the file in any order, where the source sorts them; the sum wraps as in a release build.
- DeleteWorker: the app name is taken as already checked; the result about which worker goes is for a file and links that can be inspected.
- Rolling deploys, which enable workers and remove those above the count, and parked workers.
- Record: a revision with a newline in it has no results about the list.
- The deploy behind a rollback: it is taken to succeed and to record the revision it was given; a rollback that cannot read the log does nothing.
- The command line, the dashboard pages, containers, hooks, certificates and git: plumbing around external programs.

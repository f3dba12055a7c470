# 3x-ui: the panel's view and what really runs

This Dafny project models the parts of the 3x-ui back end that keep two things in
agreement: the configuration the panel stores and the core that runs, the traffic it
reports and the bytes a process moved, the online sets it shows and the history of
reports, the names, remarks and addresses it prints and the ones that were asked for, a
database and its text dump.

`dafny verify dfyconfig.toml` checks everything. One module models one concern:

| file | module | concern |
|---|---|---|
| Text.dfy | Text | decimal numbers, joining, searching, cutting |
| Values.dfy | Values | the values of Go's string-keyed maps |
| Json.dfy | Json | canonical JSON text and the normalised comparison |
| HotDiff.dfy, HotApply.dfy | HotDiffs, HotApply | hot reconfiguration: computing the operations, applying them, runs of restarts |
| MtgInstance.dfy, MtgConfig.dfy | same names | the mtg sidecar's configuration: fingerprint, rendered TOML and a reader for it |
| MtgManager.dfy, MtgTraffic.dfy, MtgTags.dfy, MtgCollect.dfy | same names | its process table, and the traffic collector under interleaving: bytes, tags, whole passes |
| LineSplitter.dfy | LineSplitter | the log writer that cuts a byte stream into lines |
| OnlineSet.dfy, NodeTrees.dfy, Lifecycle.dfy | same names | the core's process state: online sets, multi-hop trees, start/wait/stop |
| StatsDelta.dfy, RateLimiter.dfy | StatsDelta, RateLimiting | delta accounting and pruned maps |
| Jalali.dfy | Jalali | the calendar conversion |
| RemarkTemplate.dfy, RemarkExpand.dfy, RemarkUsage.dfy, RemarkValues.dfy | same names | the remark language: rewriting, expansion, usage shown once, what the usage tokens say |
| ProxyNames.dfy, ShareAddress.dfy, FinalMask.dfy, JsonEndpoints.dfy | same names | subscription rendering: unique names, in-place overwriting, shared maps |
| SqlDump.dfy, SqlRestore.dfy, SqlColumns.dfy | same names | the SQL text dump, a reader for it, and what a restored table holds |

Objects that the Go code updates in place are classes here, loops are loops, and each
method is proved equal to a specification function, about which the results are stated.
Concurrent parts are step functions over a whole state; the theorems quantify over every
sequence of steps. Go maps are walked in an arbitrary order (`Text.Pick`). Times, parsing
libraries, regular expressions and the operating system's answers are parameters, and the
theorems hold for every value of them.

Five expectations turned out to hold only under a condition. Each is proved exact, and an
input is named for which it fails:

- Among the instances that inbounds give (a secret, a valid port), a fingerprint stands for
  one rendered mtg configuration exactly when no separator inside a field can be taken for
  the end of one (`MtgInstance.FingerprintDecidesIff`): `preferIP` and `frontingIP` hold no
  `|`; no text that reads as an address to bind to ends before a `|` in `listen`, or before
  one in `secret` with something behind it; and no two flags follow a `|` in `secret` with
  something before it. `MtgInstance.BarHidesAChange` gives two instances that differ
  although their fingerprints are equal.
- Clones of a stream share `realitySettings`, so a host's server name shows up at later
  endpoints; `JsonEndpoints.RealityLeaksUnless` says exactly when it does not, and
  `JsonEndpoints.RealityLeaks` gives two such hosts.
- Overwriting the listen address keeps the resolved address when there are no external
  endpoints; with them, `ShareAddress.ResolutionStaysIff` says exactly when it stays, and
  `ShareAddress.ExternalEndpointMovesResolution` gives an inbound for which it does not.
  What is printed is right either way (`ShareAddress.RenderClients`).
- A dumped table restores to itself exactly when every value survives
  (`SqlColumns.TableComesBackIff`): a text holds no NUL, because the SQLite driver hands the
  script to a C library that reads it up to its first NUL; a real is finite and not
  negative zero; bytes are not valid UTF-8, or they become text; and a whole real below a
  million, which is printed without a point, does not stand in a column without a numeric
  type. In a REAL column such a literal becomes the same real again
  (`SqlColumns.RealColumnsKeepReals`). When a text holds a NUL or a real is not finite the
  script cannot be run at all (`SqlRestore.RestoreIffRestorable`;
  `SqlRestore.NulStopsRestore` names such a text). A statement reads back
  exactly when the table's name holds no double quote, which the dump does not double, the
  row has a value, as every row of a table has, and every value has a literal
  (`SqlDump.StatementReadsBack`).
- The pruned online set stands for the whole history, whatever was reported, exactly when
  no reading of the clock since a report that is still recent was a grace period ahead of
  a reading between the two (`OnlineSet.MatchesHistoryIffClockFine`), so always when the
  clock does not step back; `OnlineSet.ClockStepBackLosesAKey` gives a run in which it does.

## Model

| member | source | states |
|---|---|---|
| `Text.ItoaInjective` | internal/sub/clash_service.go:118-135 | two suffixes written in decimal are different texts unless the numbers are equal |
| `Json.SortedKeysAscend` | internal/xray/hot_diff.go:283-301 | the member order of canonical text is strictly ascending, so it is a function of the key set alone |
| `Json.EmitPrefixFree` | internal/xray/hot_diff.go:283-301 | the text of a value followed by anything that may follow a value can be cut in one way only: value and remainder are both determined |
| `Json.CanonicalTextInjective` | internal/xray/hot_diff.go:283-301 | two decoded values have the same canonical text exactly when they are the same value, member order apart and number texts exact |
| `Json.CanonicalNilIffAbsent` | internal/xray/hot_diff.go:283-301 | only empty input and a top-level null become nil |
| `Json.RawEqualIffSameMeaning` | internal/xray/hot_diff.go:265-278 | the normalised comparison is equality of meanings: values on decodable text, bytes on undecodable text, nothing when both are absent; hence an equivalence relation |
| `HotDiffs.InboundsByTag` | internal/xray/hot_diff.go:305-318 | succeeds exactly when all tags are non-empty and distinct, and then finds under every tag the one inbound that has it |
| `HotDiffs.ParseOutbounds` | internal/xray/hot_diff.go:329-360 | succeeds exactly on a readable array of outbounds with non-empty distinct tags, and returns them in order |
| `HotDiffs.IndexByTag` | internal/xray/hot_diff.go:151-195 | the index finds exactly the parsed entries |
| `HotDiffs.HotDiff.DiffInbounds` | internal/xray/hot_diff.go:90-145 | ok exactly when no inbound disappears, the API inbound is not touched and every change can be marshalled; then the removals and additions are the changed and the new ones |
| `HotDiffs.HotDiff.ReplaceChanged` | internal/xray/hot_diff.go:90-145 | the pass over the old inbounds records exactly the changed ones, in order, or stops at one that rules a hot change out |
| `HotDiffs.HotDiff.AppendFresh` | internal/xray/hot_diff.go:90-145 | the pass over the new inbounds adds exactly those under a tag the old config does not have |
| `HotDiffs.HotDiff.DiffOutbounds` | internal/xray/hot_diff.go:151-195 | ok exactly when both sections are readable and the default outbound stays what it is; removals and additions as for inbounds, but outbounds may disappear |
| `HotDiffs.HotDiff.ReplaceChangedOutbounds` | internal/xray/hot_diff.go:151-195 | removes the tags of outbounds that changed or are gone and adds the new version of those that changed |
| `HotDiffs.HotDiff.AppendFreshOutbounds` | internal/xray/hot_diff.go:151-195 | adds the outbounds under new tags, in their order |
| `HotDiffs.HotDiff.DiffRouting` | internal/xray/hot_diff.go:201-223 | ok exactly when routing is unchanged or only its rules and balancers are, and then carries the new section when needed |
| `HotDiffs.ComputeHotDiff` | internal/xray/hot_diff.go:36-85 | ok exactly when both configs are there and the change is hot, which HotApply.HotIff spells out; the operations are those of the patch |
| `HotApply.SameIffSense` | internal/xray/hot_diff.go:248-256 | two handlers count as the same exactly when tag, port, protocol and the meaning of each raw section agree |
| `HotApply.SameTransitive` | internal/xray/hot_diff.go:248-278 | sameness is transitive, so a snapshot may move on while the core keeps older raw text |
| `HotApply.HotIff` | internal/xray/hot_diff.go:36-223 | a change is hot exactly when both configs say the same in log, dns, transport, policy, api, stats, reverse, fakeDns, observatory, burstObservatory, metrics and geodata; under every inbound tag what the API can do is done: no inbound goes, the one the api section names and "api" stay as they are, what is put in can be marshalled; both outbound lists are readable with tags of their own and the same first one; and the routing differs in rules and balancers at most |
| `HotApply.WireKeepsMeaning` | internal/xray/hot_diff.go:90-145 | a handler re-emitted for the API says what the configured one says |
| `HotApply.RemovalsSucceed` | internal/web/service/xray.go:980-991 | removals that name distinct present tags all succeed and leave exactly the other handlers |
| `HotApply.AdditionsSucceed` | internal/web/service/xray.go:992-1003 | additions under distinct free tags all succeed and append in order |
| `HotApply.AddedAt` | internal/xray/hot_diff.go:90-195 | under every tag the patch adds the new handler when the tag is new or its handler changed, and nothing otherwise |
| `HotApply.PatchApplies` | internal/xray/hot_diff.go:90-195 | on any list that agrees with the old handlers, every removal names a present tag, every addition a free one, and the result agrees with the new handlers |
| `HotApply.EmptyPatchIffSameTable` | internal/xray/hot_diff.go:24-30 | a handler patch is empty exactly when old and new say the same under every tag |
| `HotApply.EmptyPatchIff` | internal/xray/hot_diff.go:24-30 | a hot change needs no operation at all exactly when both handler lists say the same under every tag and the routing text is unchanged |
| `HotApply.DefaultKept` | internal/xray/hot_diff.go:151-195 | the first outbound of the running core stays first and unchanged and is still the new default |
| `HotApply.HotApplySucceeds` | internal/web/service/xray.go:953-1013 | on a core that agrees with the stored snapshot a hot change goes through completely, and the core then agrees with the new config |
| `HotApply.HotApplyLeavesAlone` | internal/xray/hot_diff.go:36-223 | a hot change touches none of the twelve sections the core was started with, not the routing text of process start, not the default outbound, not the API inbound, and takes away no inbound tag; the API inbound is the one named by the new config and, when tags are read from values, by the section the core was started with |
| `HotApply.StepAgrees` | internal/web/service/xray.go:912-945 | one RestartXray keeps a running core and the snapshot in agreement; unless it restarts the core it leaves the restart-only parts alone, a hot change never restarts it unasked, and the core is down afterwards only when its start failed |
| `HotApply.StepRestarts` | internal/web/service/xray.go:912-945 | a dead core, a forced or pending restart, a change that is not hot or a failing API call starts a new core with the new config; with nothing to do nothing is done |
| `HotApply.RunAgrees` | internal/web/service/xray.go:912-1013 | after any sequence of reconfigurations, with failing API calls, dead cores, failing starts and forced restarts in between, the snapshot is the last config and the core, when it runs, says what it says in each of the twelve sections, under every tag and in the routing; it runs when the last start did not fail |
| `MtgInstance.FingerprintDecidesIff` | internal/mtproto/manager.go:53-66 | among instances with a secret and a valid port, an instance's fingerprint is shared only by instances with the same rendered config exactly when the instance is unambiguous: no separator inside a field can be taken for the end of one |
| `MtgInstance.FingerprintDecidesTuningIff` | internal/mtproto/manager.go:53-66 | the same for all the values the config is made from, printed or not |
| `MtgInstance.RivalShows` | internal/mtproto/manager.go:338-371 | two instances whose secret differs, or else only preferIP and frontingIP with preferIP differing, never render to the same config |
| `MtgInstance.FingerprintDecidesConfig` | internal/mtproto/manager.go:53-66 | for an unambiguous instance and any other with a secret and a valid port, fingerprints are equal exactly when all tuning values are, and then the rendered configs are equal for any metrics port |
| `MtgInstance.BarFreeIsUnambiguous` | internal/mtproto/manager.go:53-66 | text fields without separators are enough |
| `MtgInstance.BarHidesAChange` | internal/mtproto/manager.go:53-66 | with a separator in a field two different configs can share a fingerprint |
| `MtgConfig.ConfigReadsBack` | internal/mtproto/manager.go:331-371 | reading the rendered TOML gives every setting of the instance under its key and in its own table, and nothing else; no key lands in the table of another |
| `MtgManager.Manager.EnsureLocked` | internal/mtproto/manager.go:177-207 | keeps a running up-to-date entry but for its tag, otherwise stops the old process and installs the new one with no baseline, or leaves the slot as a failed start leaves it |
| `MtgManager.Manager.Remove` | internal/mtproto/manager.go:210-219 | stops the inbound's process and drops its entry, touching no other |
| `MtgManager.Manager.StopUnwanted` | internal/mtproto/manager.go:224-244 | exactly the entries outside the wanted ids are stopped and dropped |
| `MtgManager.Manager.Reconcile` | internal/mtproto/manager.go:224-244 | the table becomes the desired entries ensured in order over what was kept |
| `MtgManager.Manager.StopAll` | internal/mtproto/manager.go:247-255 | no entry and no process of the table is left |
| `MtgManager.Manager.SnapshotRunning` | internal/mtproto/manager.go:270-285 | the copy lists each running entry once, with its process and baseline, and changes nothing |
| `MtgManager.Manager.CommitScrape` | internal/mtproto/manager.go:305-313 | the baseline of the entry now under the id moves to the scraped values, if there is one |
| `MtgManager.OperationsSound` | internal/mtproto/manager.go:177-255 | after any operation every live process belongs to exactly one entry and every entry has a process of its own |
| `MtgManager.RemoveStops` | internal/mtproto/manager.go:210-219 | after Remove the inbound has no entry and its process does not run; every other entry and process is as before |
| `MtgManager.StopAllStops` | internal/mtproto/manager.go:247-255 | after StopAll no entry and no process is left |
| `MtgManager.SnapshotComplete` | internal/mtproto/manager.go:270-285 | a snapshot names exactly the inbounds with a running process, each once, with what its entry holds |
| `MtgManager.ReconcileConverges` | internal/mtproto/manager.go:224-244 | afterwards only desired ids are in the table, each with a running process, its instance's fingerprint and tag; with successful starts all of them are |
| `MtgManager.ReconcileKeepsOrStarts` | internal/mtproto/manager.go:177-244 | a desired inbound whose process runs with the right config keeps it, baseline included; any other gets a new process on the port its launch was given and with no baseline, unless the launch fails |
| `MtgManager.EnsureAllAgain` | internal/mtproto/manager.go:224-244 | going through the desired list starts exactly one process per instance not already served and leaves served entries untouched |
| `MtgManager.ReconcileAgain` | internal/mtproto/manager.go:224-244 | repeating it after some processes died restarts exactly the dead ones, and changes nothing when none died |
| `MtgManager.DiedIsRestarted` | internal/mtproto/manager.go:177-244 | when starts succeed, an inbound whose process died since the last Reconcile runs a newly launched one after the next, and one whose process still runs keeps its entry |
| `MtgTraffic.StepInv` | internal/mtproto/manager.go:177-320 | every step of collector, operations, crashes and transfers keeps the books' invariant, stale baselines of replaced processes included |
| `MtgTraffic.RunInv` | internal/mtproto/manager.go:177-320 | the invariant holds after every interleaving |
| `MtgTraffic.NeverOverCounted` | internal/mtproto/manager.go:259-320 | whatever happens between snapshot, scrape and commit, what is reported for a process or an inbound never exceeds what its processes transferred |
| `MtgTraffic.ExactWhenUndisturbed` | internal/mtproto/manager.go:259-320 | every process that was not handed its predecessor's baseline, in the table or gone from it, is reported exactly: last scrape minus first, and nothing before the first |
| `MtgTraffic.BaselineIsLastScrape` | internal/mtproto/manager.go:305-313 | the baseline of such a process's entry is its last scrape |
| `MtgTraffic.ActionsAct` | internal/mtproto/manager.go:210-255 | a process that ended is not live, a removed inbound has no entry and no process, and a transfer counts in full on a live process only |
| `MtgTraffic.OperationsAct` | internal/mtproto/manager.go:156-244 | with successful launches an ensured inbound runs with its config, and exactly the desired inbounds are in the table after a reconciliation |
| `MtgTags.ReportTagged` | internal/mtproto/manager.go:259-320 | every report of a run goes out under a tag that its inbound's entry had, with the process that was measured, in an earlier state of the run, and that an Ensure or Reconcile of that inbound gave it |
| `MtgTags.TagTotalsTrue` | internal/mtproto/manager.go:259-320 | when no inbound changes its tag and none share one, what is reported under a tag never exceeds what the inbound's processes transferred, and is exactly what was scraped of each since its first scrape when none was handed another one's baseline |
| `MtgCollect.CollectCatchesUp` | internal/mtproto/manager.go:259-320 | after a pass that nothing comes in between, every running process has all it transferred as its baseline, and unless it was handed another one's, all of it since its first scrape is reported |
| `LineSplitter.ProcLogWriter.Write` | internal/mtproto/process.go:63-77 | logs the finished lines of buffer and input that are not blank, trimmed, keeps the tail and takes all bytes |
| `LineSplitter.ProcLogWriter.Flush` | internal/mtproto/process.go:81-89 | logs the unfinished line and empties the buffer |
| `LineSplitter.ProcLogWriter.EmitLocked` | internal/mtproto/process.go:91-98 | a blank line leaves log and last line alone, any other is appended and becomes the last line |
| `LineSplitter.ReturnsDropped` | internal/mtproto/process.go:91-98 | carriage returns at the end of a line are not logged, and a line of nothing else is none |
| `LineSplitter.SplitResumes` | internal/mtproto/process.go:63-77 | splitting may stop after any prefix and go on from its tail |
| `LineSplitter.WritesFollowStream` | internal/mtproto/process.go:63-77 | between writes the buffer is exactly the unfinished tail of the stream and the log holds its finished lines |
| `LineSplitter.ChunkingInvisible` | internal/mtproto/process.go:63-98 | however a stream is cut into writes, writing and flushing logs the same: its non-blank lines, trimmed, in order |
| `LineSplitter.LinesJoinBack` | internal/mtproto/process.go:63-77 | the lines hold no newline and joining them by newlines gives the stream back |
| `OnlineSet.OnlineTracker.RefreshLocalOnline` | internal/xray/process.go:403-437 | both maps and both lists after a report, in terms of the maps before it |
| `OnlineSet.DropExpired` | internal/xray/process.go:403-437 | walking the map while deleting from it keeps exactly the entries within grace and lists each of them once |
| `OnlineSet.Age` | internal/xray/process.go:403-437 | marking the active keys and ageing the map leaves those within grace and lists each once |
| `OnlineSet.PrunedKeepsLatest` | internal/xray/process.go:403-437 | whatever the clock does, the pruned map holds a key exactly when its last report was never a grace period old since, with the time of that report |
| `OnlineSet.MatchesHistoryIffClockFine` | internal/xray/process.go:403-437 | for exactly the clock readings described, the online keys are those reported less than the grace period ago in the whole history, for every key and everything that could have been reported at these times |
| `OnlineSet.OnlineIffRecent` | internal/xray/process.go:403-437 | under such readings the online keys are the recently reported ones, each with its last report's time |
| `OnlineSet.OrderedIsFine` | internal/xray/process.go:403-437 | readings that never go back are such readings, and then the time kept is the latest of all |
| `OnlineSet.OnlineEmailHasActiveTag` | internal/xray/process.go:397-437 | when every report of an email comes with a tag it used, an online email always has an active tag |
| `OnlineSet.ClockStepBackLosesAKey` | internal/xray/process.go:403-437 | a run in which the clock steps back and a key is lost that the history still calls recent |
| `NodeTrees.Process.SetNodeOnlineTree` | internal/xray/process.go:443-450 | replaces one node's tree and no other |
| `NodeTrees.Process.ClearNodeOnlineClients` | internal/xray/process.go:455-459 | drops one node's tree and no other |
| `NodeTrees.Process.GetMergedNodeTrees` | internal/xray/process.go:351-379 | under each non-empty GUID exactly the emails that some node reports there, each once, and no empty list |
| `NodeTrees.Process.GetOnlineClients` | internal/xray/process.go:300-328 | each email that is online here or in any node's tree, once |
| `NodeTrees.ReportIsHosting` | internal/web/service/inbound_node.go:919-930 | at any depth an email is reported under exactly the GUIDs of the panels whose own core has it online |
| `NodeTrees.DescendantsAttributed` | internal/xray/process.go:351-379 | with distinct GUIDs the root's merged map gives every descendant with online clients exactly its local set, and no entry to one without |
| `NodeTrees.ClearRemovesBranch` | internal/xray/process.go:455-459 | clearing a direct node removes exactly the GUIDs of its branch and changes no other entry |
| `Lifecycle.StepInv` | internal/xray/process.go:587-689 | every step of Start, Stop, an exit or a waiting goroutine keeps each incarnation consistent and all but the last closed |
| `Lifecycle.RunInv` | internal/xray/process.go:587-689 | the invariant holds after every sequence of steps |
| `Lifecycle.DoneClosedOnce` | internal/xray/process.go:587-638 | done is closed at most once per start, and has been closed once its goroutine is finished and before another start |
| `Lifecycle.StoppedExitNeverCrashes` | internal/xray/process.go:616-689 | an exit after Stop set its flag never fires OnCrash, not even when a later start clears the flag |
| `Lifecycle.CrashReportedOnce` | internal/xray/process.go:616-638 | an error exit of an incarnation that Stop never touched fires OnCrash exactly once, and nothing else fires it |
| `Lifecycle.LaunchedIsClosed` | internal/xray/process.go:587-638 | once a command was launched, its exit and the steps of its goroutine close done exactly once, whatever other steps come in between |
| `Lifecycle.RecordsKept` | internal/xray/process.go:587-689 | what happened to an incarnation is never undone by later steps |
| `Lifecycle.StartRuns` | internal/xray/process.go:587-615 | a start of a process that does not run leaves a new incarnation running with the stop flag clear |
| `Lifecycle.FailedStartCloses` | internal/xray/process.go:587-615 | a failing start leaves nothing running and its done channel closed once |
| `Lifecycle.StopIsQuiet` | internal/xray/process.go:616-689 | after a stop the exit that follows, clean or not, closes done once and fires no OnCrash |
| `StatsDelta.XrayApi.GetTraffic` | internal/xray/api.go:562-611 | one poll's deltas by tag and by email, and the baselines kept after it |
| `StatsDelta.XrayApi.PruneBaselines` | internal/xray/api.go:562-611 | baselines of vanished counters go only when there are more than twice as many as live counters |
| `StatsDelta.DeltasNonNegative` | internal/xray/api.go:580-608 | no poll reports a negative delta |
| `StatsDelta.BaselineOfPoll` | internal/xray/api.go:580-608 | each counter is measured against the baseline the poll began with and leaves its value as the next one |
| `StatsDelta.LastStatReported` | internal/xray/api.go:670-712 | what a tag or email gets in a direction is the delta of the last counter that has one and goes there |
| `StatsDelta.EntryOfFirst` | internal/xray/api.go:670-712 | a poll returns an entry for exactly the tags other than "api", or emails, with a counter that has a delta, and an entry is an inbound's or an outbound's as the first such counter says |
| `StatsDelta.SilentSideZero` | internal/xray/api.go:670-712 | a direction in which no counter has a delta is reported as zero |
| `StatsDelta.PruningInvisible` | internal/xray/api.go:580-608 | for a counter the core still reports, the next delta is the one a poller without pruning reports, and it is absent only when the counter went back |
| `StatsDelta.MapStaysSmall` | internal/xray/api.go:580-608 | after a poll that reported anything there are at most twice as many baselines as counters |
| `StatsDelta.DeltasTelescope` | internal/xray/api.go:562-611 | while a counter that alone goes to a tag or email in a direction is present and does not go back, what GetTraffic returns for that tag or email adds up to its last value minus its first |
| `RateLimiting.RateLimiter.PruneLocked` | internal/eventbus/filter.go:42-52 | at most once per cooldown, the keys whose cooldown is over are forgotten and no others |
| `RateLimiting.RateLimiter.Allow` | internal/eventbus/filter.go:25-36 | allowed exactly when the key's last allowed call is a cooldown ago, and then remembered |
| `RateLimiting.PruningInvisible` | internal/eventbus/filter.go:25-52 | on every call sequence in time order it answers as a limiter that never forgets |
| `RateLimiting.AllowsApart` | internal/eventbus/filter.go:25-52 | two allowed calls of one key are at least a cooldown apart |
| `RateLimiting.AllowedIff` | internal/eventbus/filter.go:25-36 | a call is allowed exactly when no allowed call of its key was less than a cooldown ago, and neither was the zero time, which a new key counts from |
| `RateLimiting.PrunesApart` | internal/eventbus/filter.go:42-52 | within a cooldown of the last pruning nothing is forgotten, and never a key that was allowed less than a cooldown ago |
| `RateLimiting.MapStaysYoung` | internal/eventbus/filter.go:42-52 | with a positive cooldown nothing as old as two cooldowns stays in the map |
| `RateLimiting.KeysDiffer` | internal/eventbus/filter.go:25-36 | different events never share a key as long as event types hold no colon |
| `Jalali.GregorianToJalali` | internal/sub/remark_vars.go:360-401 | both walking loops end, and the result is a Jalali date whose distance in days from 1402-10-11 is the Julian day distance from 2024-01-01 |
| `Jalali.DayIndexInjective` | internal/sub/remark_vars.go:403-424 | different Jalali dates lie on different days |
| `Jalali.NextJalaliIndex` | internal/sub/remark_vars.go:403-424 | the calendar successor of a Jalali date lies one day later, over month, year and leap year ends |
| `Jalali.NextJulianDay` | internal/sub/remark_vars.go:360-401 | the Julian day formula grows by exactly one from each Gregorian day to the next |
| `Jalali.JulianDayOrdered` | internal/sub/remark_vars.go:360-401 | later Gregorian dates have larger Julian day numbers |
| `Jalali.ConversionUnique` | internal/sub/remark_vars.go:360-401 | the distance determines the Jalali date |
| `Jalali.ConsecutiveDays` | internal/sub/remark_vars.go:360-401 | the day after a Gregorian day converts to the day after its Jalali day |
| `Jalali.LaterJulianDay` | internal/sub/remark_vars.go:360-401 | walking n days on the Gregorian calendar adds n to the formula |
| `Jalali.ConversionInjective` | internal/sub/remark_vars.go:360-401 | no two Gregorian dates convert to one Jalali date |
| `Jalali.YearsInClosedForm` | internal/sub/remark_vars.go:416-424 | walking the years one by one is the closed form with eight leap days in 33 years, so every 33 years have 12053 days |
| `Jalali.YearsBeforeTheFirst` | internal/sub/remark_vars.go:416-424 | no year before the first is a leap year |
| `Jalali.KnownDays` | internal/sub/remark_vars.go:360-424 | 2024-01-01 is 1402-10-11, and days of that year at ends of months of each length |
| `Jalali.KnownFirstDays` | internal/sub/remark_vars.go:360-424 | the first days of 1402, 1403, 1404, 1408 and 1409, around two leap years |
| `RemarkTemplate.TranslateUISingleBrackets` | internal/sub/remark_vars.go:79-103 | the scanning loops rewrite exactly the known single-brace tokens |
| `RemarkTemplate.UiTokensBraceFree` | internal/sub/remark_vars.go:61-74 | no side of the panel's own token table holds a brace, so the results below apply to it |
| `RemarkTemplate.TokenRewritten` | internal/sub/remark_vars.go:79-103 | a known token in single braces becomes its internal name in double braces, whatever surrounds it, when no brace stands right before it |
| `RemarkTemplate.KnownAfter` | internal/sub/remark_vars.go:79-103 | the rewriting makes no new known token after an opening brace |
| `RemarkTemplate.TranslateIdempotent` | internal/sub/remark_vars.go:79-114 | rewriting twice is rewriting once |
| `RemarkTemplate.PrefixSettled` | internal/sub/remark_vars.go:476-489 | cutting a rewritten template makes nothing new to rewrite |
| `RemarkExpand.ExpandRemarkVars` | internal/sub/remark_vars.go:110-143 | the kept segments, expanded and joined, also on the early return without double braces |
| `RemarkExpand.ExpandSegment` | internal/sub/remark_vars.go:129-143 | one scan expands the segment and decides whether it goes |
| `RemarkExpand.SegmentGoesIff` | internal/sub/remark_vars.go:124-143 | a segment goes exactly when a placeholder of it shows an unlimited quota and none shows any other value; one with another value, or without placeholders, stays |
| `RemarkExpand.PlaceholderExpanded` | internal/sub/remark_vars.go:39-41 | two braces, capital letters and underscores, two braces: that is replaced by its value, the text before it copied, and the value not expanded again |
| `RemarkExpand.SegmentsJoinBack` | internal/sub/remark_vars.go:115-122 | the segments joined by bars are the template |
| `RemarkExpand.ExpandAcrossBar` | internal/sub/remark_vars.go:129-143 | no placeholder reaches across a bar |
| `RemarkExpand.SegmentsExpandWhole` | internal/sub/remark_vars.go:110-143 | when no segment drops out, expanding segment by segment is expanding the whole template |
| `RemarkExpand.NothingToExpand` | internal/sub/remark_vars.go:110-114 | the early return is no different from the long way |
| `RemarkUsage.NameOnlyTemplate` | internal/sub/remark_vars.go:476-489 | searching token by token finds the first usage placeholder, and the template is cut there and at the decoration before it |
| `RemarkUsage.NameOnlyCuts` | internal/sub/remark_vars.go:476-489 | the result is a beginning of the template without any usage placeholder, the whole of it if there was none, and besides the usage part only decoration is lost |
| `RemarkUsage.NameOnlyKeepsPlaceholders` | internal/sub/remark_vars.go:476-489 | no letter, digit or placeholder before the first usage placeholder is cut, and the result ends in one unless it is empty or the whole template |
| `RemarkUsage.NameOnlyHidesUsage` | internal/sub/remark_vars.go:476-505 | the expanded name part is the same text for any two clients that differ in their usage only |
| `RemarkUsage.NameOnlyExpandsWhole` | internal/sub/remark_vars.go:476-489 | with the panel's own tables no segment of the name part ever drops out |
| `RemarkUsage.SubService.EffectiveTemplate` | internal/sub/remark_vars.go:495-505 | the whole template once per email, its name part afterwards |
| `RemarkUsage.FirstLinkShowsUsage` | internal/sub/remark_vars.go:495-505 | over any sequence of links, exactly a client's first one gets the whole template |
| `RemarkUsage.UsageShownOnce` | internal/sub/remark_vars.go:476-505 | in one request any later link of a client reads the same whatever its usage is |
| `RemarkValues.UsageTokensExact` | internal/sub/remark_vars.go:465-470 | a token is in the list of usage tokens exactly when its value depends on the client's traffic record |
| `RemarkValues.DropTokensExact` | internal/sub/remark_vars.go:46-56 | a token may make its segment drop out exactly when it says "unlimited" of every client without quota and expiry |
| `RemarkValues.RecordShownOnce` | internal/sub/remark_vars.go:476-505 | with the panel's own tables, every link of a client but the first reads the same for every traffic record the client could have |
| `RemarkValues.LimitlessSegments` | internal/sub/remark_vars.go:105-143 | a client without quota and expiry gets no segment made of such tokens alone, and every one in which another token shows something |
| `RemarkValues.AmountsAddUp` | internal/sub/remark_vars.go:188-213 | what is used is up and down, what is left makes up the quota with it or is nothing once the quota is used up, and the byte tokens give the same numbers |
| `RemarkValues.StatusSays` | internal/sub/remark_vars.go:238-249 | a client that is disabled is called so, else one whose date is past is expired, else one with nothing of its quota left is depleted |
| `RemarkValues.TimeLeftParts` | internal/sub/remark_vars.go:253-344 | the remaining time is split into days, hours below 24 and minutes below 60, rounded down, and both tokens count the same days |
| `ProxyNames.FallbackProxyName` | internal/sub/clash_service.go:137-144 | the fallback is never empty |
| `ProxyNames.FallbackOf` | internal/sub/clash_service.go:137-144 | a nameless proxy is called after its type, server and port, or after its number when it lacks one of them |
| `ProxyNames.TakenAtMost` | internal/sub/clash_service.go:118-135 | n candidates that are all taken need n taken names |
| `ProxyNames.FreeName` | internal/sub/clash_service.go:118-135 | the unbounded loop ends at the first candidate that is not taken |
| `ProxyNames.EnsureUniqueProxyNames` | internal/sub/clash_service.go:118-135 | each proxy map is left as it was but for its name, which is the one of the specification |
| `ProxyNames.NamesDistinct` | internal/sub/clash_service.go:118-135 | no two proxies end up with the same name |
| `ProxyNames.NameKeptOrSuffixed` | internal/sub/clash_service.go:118-135 | a name is kept exactly when no earlier proxy has it, no name is empty, and the i-th proxy never needs a suffix above i + 1 |
| `ProxyNames.SameNames` | internal/sub/clash_service.go:118-135 | proxies that all ask for one name get it with the suffixes -2, -3 and so on from the second one on |
| `FinalMask.MergeFinalMask` | internal/sub/json_service.go:517-550 | in whatever order the maps are walked: mask lists are appended, the base keeps its quicParams, other extra values win |
| `FinalMask.MergedMasks` | internal/sub/json_service.go:517-550 | under tcp and udp the merged list is the base's followed by the extra one's, and there is none when neither has any |
| `FinalMask.MergedOther` | internal/sub/json_service.go:517-550 | under any other key the extra value wins, but for quicParams, where the base's does |
| `FinalMask.MergeAssociative` | internal/sub/json_service.go:517-550 | three mask settings merge to the same in either grouping |
| `JsonEndpoints.CloneStreamForExternalProxy` | internal/sub/service.go:1375-1387 | the clone prints as the original, its TLS maps are its own, its reality map is the original's |
| `JsonEndpoints.ApplyExternalProxyTLSToStream` | internal/sub/service.go:1389-1445 | a TLS stream gets the entry's values in both maps, made when missing; any other stream is untouched |
| `JsonEndpoints.ApplyHostStreamOverrides` | internal/sub/host_sub.go:93-123 | sockopt, finalmask and, for a host on a reality stream, the server name are overridden and nothing else |
| `JsonEndpoints.RenderEndpoint` | internal/sub/json_service.go:180-203 | one turn prints the entry's stream and changes nothing of the base but the shared reality map |
| `JsonEndpoints.RenderEndpoints` | internal/sub/json_service.go:179-230 | the loop prints, for each entry, its stream over the base and the reality map the earlier turns left |
| `JsonEndpoints.EndpointsIsolated` | internal/sub/json_service.go:179-230 | everything printed outside realitySettings, TLS and finalmask included, depends on the base and the entry alone |
| `JsonEndpoints.OwnValuesPrinted` | internal/sub/json_service.go:187-202 | in terms of the inbound's stream and the entry alone: turning TLS off prints no TLS map, turning it on over another security prints the entry's own values only, and otherwise a TLS stream prints the inbound's values with those the entry names laid over them; no settings map is made for nothing |
| `JsonEndpoints.OtherFieldsPrinted` | internal/sub/json_service.go:187-203 | the printed security is the one asked for, sockopt and finalmask are the entry's and the merged ones where it has some, and every other field is the inbound's |
| `JsonEndpoints.RealityAfterIsLast` | internal/sub/host_sub.go:112-122 | after any number of turns the reality map carries the last host's server name |
| `JsonEndpoints.RealityLeaksUnless` | internal/sub/json_service.go:179-230 | an entry's reality settings are its own exactly when it names its server, no earlier host did, or the last one that did named the inbound's own |
| `JsonEndpoints.RealityLeaks` | internal/sub/host_sub.go:112-122 | a second host without a name is printed with the first one's, where on its own it is printed with the inbound's |
| `ShareAddress.ResolveInboundAddress` | internal/sub/service.go:939-967 | walking the candidates gives the first non-empty one of the chain |
| `ShareAddress.ResolveCases` | internal/sub/service.go:939-967 | the documented order of preference for each strategy |
| `ShareAddress.InternalNeverAdvertised` | internal/sub/service.go:114-122 | a wildcard, loopback or unix-socket listen address is never advertised: the custom or node address, the domains and the requested host are all that is left |
| `ShareAddress.RoutableAdvertised` | internal/sub/service.go:939-967 | any other listen address is advertised unless a custom address or, when the strategy is not to listen first, a node's comes before it |
| `ShareAddress.GetConfig` | internal/sub/json_service.go:139-185 | prints the external endpoints, or the resolved address with the inbound's port, and leaves the last one in the inbound |
| `ShareAddress.OverwriteKeepsDefault` | internal/sub/service.go:939-967 | under every strategy, resolving again after the overwrite gives the same address |
| `ShareAddress.RenderClients` | internal/sub/json_service.go:90-93 | every client of an inbound gets the external endpoints, or, when there are none, the address resolved and the port set before any rendering, the requested host standing in for no address |
| `ShareAddress.ResolutionStaysIff` | internal/sub/service.go:939-967 | after external endpoints the resolved address is the old one exactly when a custom or node address outranks the listen address, both listen addresses advertise the same, or one advertises nothing and the other what stands behind it |
| `ShareAddress.ExternalEndpointMovesResolution` | internal/sub/json_service.go:184-185 | a wildcard inbound without a node, for which it moves |
| `SqlDump.DumpTableData` | internal/database/dump_sqlite.go:143-176 | appends one statement per row to the builder, in order |
| `SqlDump.LiteralReadsBack` | internal/database/dump_sqlite.go:179-212 | whatever a value holds, reading its literal in front of a comma or bracket gives the stored value and stops exactly behind it; only a real that is not finite cannot be read |
| `SqlDump.RealReadsBack` | internal/database/dump_sqlite.go:185-186 | a finite real reads back as the same shortest decimal, or as the integer of the same value when it is printed without point and exponent; infinities and NaN do not |
| `SqlDump.QuotedReadsBack` | internal/database/dump_sqlite.go:210-212 | doubling quotes is undone by reading, and no quote inside ends the text |
| `SqlDump.HexReadsBack` | internal/database/dump_sqlite.go:198-204 | a blob's digits read back to its bytes |
| `SqlDump.NameReadsBack` | internal/database/dump_sqlite.go:155-155 | a table name reads back exactly when it holds no double quote |
| `SqlDump.StatementReadsBack` | internal/database/dump_sqlite.go:143-176 | by a reader with a grammar of its own (keywords, a name in double quotes, literals between commas in brackets, a semicolon), a statement reads back to its table and stored row and ends behind its semicolon, exactly for names without double quotes and non-empty rows without infinite or NaN reals |
| `SqlDump.ScriptReadsBack` | internal/database/dump_sqlite.go:143-176 | by the same reader the statements of a table read back to its rows, all of them and in order |
| `SqlRestore.LiteralCut` | internal/database/dump_sqlite.go:115-208 | in the script as the library sees it, a literal is read to its value and ends in place, or cannot be read because a NUL cut it or it is no literal |
| `SqlRestore.RestoreIffRestorable` | internal/database/dump_sqlite.go:115-176 | the script of a table reads to all its rows in order when no text holds a NUL and every real is finite; otherwise it cannot be run |
| `SqlRestore.NulStopsRestore` | internal/database/dump_sqlite.go:115-140 | a table with one text that holds a NUL, whose script cannot be run |
| `SqlColumns.ExactBack` | internal/database/dump_sqlite.go:185-186 | storing the digits of a real that is printed without a point as a real gives it back, but for the sign of zero |
| `SqlColumns.ComesBackIff` | internal/database/dump_sqlite.go:71-78 | a value SQLite holds in a column is stored there again by the restore exactly when it is not valid UTF-8 bytes, negative zero, or a whole real below a million in a column without a numeric type |
| `SqlColumns.RealColumnsKeepReals` | internal/database/dump_sqlite.go:71-78 | in a REAL column every finite real but negative zero comes back as itself |
| `SqlColumns.TableComesBackIff` | internal/database/dump_sqlite.go:71-78 | dumping a table and restoring it gives the same table exactly when every value survives |
| `SqlColumns.OneReturnsToItsColumn` | internal/database/dump_sqlite.go:185-186 | the literal of the real 1 is read as an integer, and a REAL column makes it the real 1 again |

## Left out

- The JSON library: decoding, validity and compacting are parameters (`Json.Codec`); the hot-change results ask of them that a valid section decodes and re-emits to the same value.
- Equality of whole configs in RestartXray compares model values; the field list of Config.Equals is not spelled out.
- API calls of tryHotApply either all work or the call fails; the fallback for a tag that is already taken is never needed and is not modelled.
- One traffic collector at a time; a metrics port that another inbound takes over during a scrape, and overlapping collections, are not part of this model.
- A stop of an mtg process always ends it; time limits, signals and kill fall-backs are left out, as are the orphan sweep, file writing and the metrics text format.
- The lifecycle is the non-Windows path with Start and Stop serialised by their callers; crash-report files and logging are left out.
- The counter names of the stats API are classified by a parameter instead of the two regular expressions, and a failing query is not a poll.
- Go's int64 overflow is not modelled, except in the rate limiter, where differences of instants saturate as in the library.
- Text is a sequence of characters; trimming, letters and digits, UTF-8 validity and IP parsing are parameters.
- What the remark tokens resolve to that do not read the traffic record is a parameter, and so is how amounts, percentages and dates are written; the fall-back to the config name when nothing is left is left out.
- The remark a host entry is given is rendered outside the endpoint loop here; mux and outbound generation per protocol are left out, among them the finalmask merge of hysteria, which uses the same function.
- Nested maps that rendering may write (TLS, its settings, reality) are objects; a TLS or settings value that is not a map, and lists shared between maps, are not part of this model. The finalmask lists are copied before they are appended to, so they are values here.
- Random picks of reality names and short ids, link field copying, Clash rules and the YAML, base64 and URL formats.
- Reals of the SQL dump are their shortest decimals: that the library finds the shortest one, and that a reader rounds it back to the same float, is not part of this model.
- The reader of the dump knows the statements the dump writes: keywords in capitals, no comments; the reader of the TOML knows tables and keys with a value to the end of the line.
- SQLite's conversions between numbers and texts in a column are parameters, of which the results ask that small integers are exact reals, that a real printed as digits alone is equal to an integer, and that a text becomes nothing but a number. Schema and index statements and the order of tables are left out.
- The %q verb is a parameter, of which the fingerprint result asks that it tells texts apart and keeps them on one line.
- Reading the tag of the api section is a parameter; that it depends on the value alone is asked for separately (`HotApply.ReadsTags`), since member names that differ only in case would make it depend on their order.
- Database access, HTTP handlers, the front end, certificates and the other wrappers over libraries.

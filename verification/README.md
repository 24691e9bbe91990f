# Verified models of Home Assistant Supervisor

This project models the parts of the Supervisor that keep state across awaits, rebuild
state from files, or walk recursive data, and proves what they promise for all inputs and
all runs. Each part has a specification, written as functions and transitions on values,
and classes or methods in the form of the original code that are proved to do exactly what
the specification says. The theorems are about the specification and so hold of the code.

- **Connectivity** (`Connectivity.dfy`). Any number of callers share one probe. Each stretch
  of code between two awaits is one atomic step; a run is any sequence of enabled steps.
- **Job listing** (`JobForest.dfy`, `JobTree.dfy`). A breadth-first queue appends into list
  objects that already stand in their parents. The result is proved equal to a recursive
  definition of the forest. Job ids are natural numbers, creation times are ordered.
- **Backup catalogue** (`BackupCatalogue.dfy`, `BackupRuns.dfy`, `Backups.dfy`). Full reload,
  reload of one location, import and removal. The files found, the order in which loading
  tasks finish, and the outcome of every unlink, move and copy are parameters.
- **App options** (`OptionsSpec.dfy`, `AppOptions.dfy`). The validator and, independent of it,
  the extraction of device paths. Hardware, secrets, hashes and the e-mail, URL and pattern
  validators are parameters; a schema element is given by the alternative it matches.
- **Volume names** (`Workload.dfy`). The lower-casing function is a parameter, so the results
  do not depend on what it does outside ASCII.
- **Shutdown and stop** (`Lifecycle.dfy`), **ingress sessions** (`Ingress.dfy`), **operating
  system upgrades** (`Updater.dfy`), **app state and watchdog** (`AppState.dfy`).

Connectivity, shutdown and stop are modelled from await to await, with success, failure and
cancellation at each. An operation on the catalogue is one step whose awaited calls succeed or
fail. Times are exact numbers.

## Where the code and its documentation disagree

The model follows the code.

- `supervisor/supervisor.py:303-306` guarantees a fresh probe for a forced caller. That fails
  when the owner of the running probe leaves with an exception; the exact steps are given by
  `StrandedExactlyByARaisingOwner`.
- `supervisor/supervisor.py:341-344` says that awaiting a task does not pass a cancellation on
  to it; in asyncio it does. The model allows both: after its cancellation an owner may wake
  with or without an exception if the probe completed in time.
- `supervisor/core.py:390-397` promises that concurrent callers await the shutdown in
  progress. The event they wait for is never cleared, so they wait only as long as no caller has
  ever left the try block (`CallerWaitsExactly`). Once one has, and another task has moved the
  state out of shutdown, a second shutdown holds nobody. The end of a backup moves it so
  (`supervisor/backups/manager.py:588`, `894`, `967`, `1034`).
- `supervisor/apps/options.py:199-203` returns the raw device paths. They differ from those of
  the devices that the validator accepts in two ways. A device given as `!secret name` is
  reported as that text. Lists whose schema has several elements, which
  `supervisor/apps/validate.py:145-157` admits, are not visited. `ExtractionAgreesExactly` says
  when the difference shows.
- `supervisor/backups/manager.py:373-375` removes a backup from the cache if it has been removed
  from all locations, and takes those of the object it was given. The cached backup of that slug
  is another object when a full reload has replaced the cache since the caller took its own: while
  it awaits the request body (`supervisor/api/backups.py:504-514`) or earlier removals
  (`supervisor/misc/tasks.py:420-430`,
  `supervisor/resolution/fixups/system_clear_full_backup.py:32-37`). `CachedEntryIsDroppedExactly`
  and `NothingIsForgottenExactly` say when the cached entry goes and when that loses a file.
- `supervisor/apps/workload.py:40-46` promises names of at most 63 characters; for numbered
  names this needs a counter of at most three digits.

## Model

| member | source | states |
|---|---|---|
| ConnectivitySpec.RunsAreCoalesced | supervisor/supervisor.py:308-357 | In every run of any callers, at most one probe is unfinished, and a probe is registered exactly while exactly one owner is suspended on it. |
| ConnectivitySpec.NextKeepsInv | supervisor/supervisor.py:308-367 | Every step (call, end of a probe, return of an owner or follower, cancellation of either) keeps the one-owner, one-probe invariant. |
| ConnectivitySpec.JoinersAwaitTheProbe | supervisor/supervisor.py:299-322 | A caller that arrives while a probe is registered does not return before that probe has ended, unless it is cancelled itself. |
| ConnectivitySpec.OwnersAwaitTheirProbe | supervisor/supervisor.py:345-357 | A caller whose call starts a probe does not return before that probe has ended, even if it is cancelled. |
| ConnectivitySpec.FollowersReturn | supervisor/supervisor.py:321-322 | Once its probe has ended a follower can go on, and returns without doing anything else. |
| ConnectivitySpec.CallStartsAProbeExactly | supervisor/supervisor.py:324-346 | With no probe registered, a call starts one exactly if it is forced, or none was counted yet, or the last was counted 600 seconds ago or longer, 5 if the newest completed probe found the Supervisor offline. |
| ConnectivitySpec.FlagClearedOnlyByAProbe | supervisor/supervisor.py:364-367 | The rerun flag is cleared only by a step that also starts and registers a new probe. |
| ConnectivitySpec.ForcedIsQueuedOrProbed | supervisor/supervisor.py:314-318 | In every run, cancellations and crashes included, a forced request is still queued in the flag or has a probe that started at or after it. |
| ConnectivitySpec.ForcedIsAnsweredExactly | supervisor/supervisor.py:303-306 | In every run, once no probe is registered and the flag is clear, a forced request has a probe that started at or after it, completed and produced the cached state if and only if the newest probe completed. |
| ConnectivitySpec.ForcedRequestsAreNeverLost | supervisor/supervisor.py:303-306 | So the documented guarantee holds in runs without cancelled or crashed probes: whenever no probe is registered, the flag is clear and every forced request has that answer. |
| ConnectivitySpec.CachedStateIsNewestResult | supervisor/supervisor.py:76-93 | The cached state is always the result of the newest completed probe. |
| ConnectivitySpec.StrandedExactlyByARaisingOwner | supervisor/supervisor.py:349-357 | A queued rerun is left behind without a probe by exactly those steps in which the owner leaves with an exception while the flag is set. |
| ConnectivitySpec.OwnerCancellationStrands | supervisor/supervisor.py:349-357 | Every run in which an owner waits while a rerun is queued can go on, by cancelling the owner, to a state with the flag set, no probe registered, and no new probe. |
| ConnectivitySpec.StrandedRerunWaits | supervisor/supervisor.py:308-339 | After a rerun was left behind, in every continuation of the run no probe starts if and only if every call is unforced and within the interval; as long as that is so, the flag, the cached state and the time stamp stay. |
| ConnectivitySpec.ForcedRequestCanBeStranded | supervisor/supervisor.py:303-306 | The documented guarantee is false under cancellation: a run in which a forced request has no probe after it. |
| ConnectivitySpec.ProbeAccounting | supervisor/supervisor.py:308-367 | Probes started are the calls that became owners plus the reruns; forced calls queued together cost one rerun, and only a group still in the flag has had none. |
| ConnectivitySpec.CompletionAccounting | supervisor/supervisor.py:347-362 | Every completed probe has been counted by its owner, or its owner left with an exception, or it still waits for its owner. |
| ConnectivitySpec.UnforcedCompletionsAreSpaced | supervisor/supervisor.py:324-362 | With unforced calls and a monotone clock, the probes counted by their owners (those that set the time stamp; not one that completes under a cancelled owner) are at least the shorter minimum interval apart, and the longer one if no probe found the Supervisor offline. |
| ConnectivitySpec.ThrottleBound | supervisor/supervisor.py:43-44 | With unforced calls, at most T/5 + 1 probes are counted by their owners in any T seconds, and at most T/600 + 1 if none finds the Supervisor offline. |
| ConnectivitySpec.CompletedProbesInAWindow | supervisor/supervisor.py:324-362 | With unforced calls, all probes that complete in a stretch of T seconds are at most T/5 + 1 (or T/600 + 1), besides those whose owners left with an exception there and one that still waits for its owner. |
| ConnectivitySpec.ChangeEventsAlternate | supervisor/supervisor.py:84-93 | Change events alternate, begin with offline, and the newest one is the cached state. |
| ConnectivitySpec.CancelledFollowersLeaveNoTrace | supervisor/supervisor.py:321-322 | Leaving all cancellations of followers out of a run gives a run with the same cached state, registration, flag, time stamp, events, probe results and owners. |
| Connectivity.Supervisor.Call | supervisor/supervisor.py:296-346 | A fresh task entering does exactly the call step of the protocol. |
| Connectivity.Supervisor.CheckAndUpdateConnectivity | supervisor/supervisor.py:308-346 | The code up to its first await joins, is answered from the cache, or becomes owner, as the protocol says. |
| Connectivity.Supervisor.ResumeOwner | supervisor/supervisor.py:347-367 | What the owner does after its probe ended, with the rerun in the same stretch, is the protocol's resume step. |
| Connectivity.Supervisor.EndProbe | supervisor/supervisor.py:369-381 | The end of a probe, normal or not, is the protocol's step and writes the cached state only on completion. |
| Connectivity.Supervisor.UpdateConnectivity | supervisor/supervisor.py:76-93 | The cached state changes and an event fires only on a change. |
| Connectivity.Supervisor.CancelOwner | supervisor/supervisor.py:349-354 | Cancelling an owner passes the cancellation to its probe and leaves the flag and the registration as they are. |
| JobForest.SortedJobs | supervisor/api/jobs.py:48 | Sorting keeps exactly the given jobs, strictly oldest first. |
| JobForest.ForestIsUnique | supervisor/api/jobs.py:57-89 | The jobs and the roots determine the forest of the recursive definition. |
| JobForest.OccursExactlyIfReachable | supervisor/api/jobs.py:57-87 | A job is in the forest exactly if a chain of listed parents leads to it from a root; internal parents cut their descendants off. |
| JobForest.NoJobOccursTwice | supervisor/api/jobs.py:57-87 | No job occurs twice in the forest. |
| JobForest.NotOwnDescendant | supervisor/api/jobs.py:81-87 | A finite tree never repeats its root. |
| JobForest.NoWayBackExactlyIfNotOwnAncestor | supervisor/api/jobs.py:59-61 | A single starting job is fit as a root exactly if following parent ids from it, at most once for every job, does not lead back to it. |
| JobForest.ParentlessRootsHaveNoWayBack | supervisor/api/jobs.py:62-65 | The jobs without a parent are always fit as roots, whatever cycles there are elsewhere. |
| JobForest.WalkFromCycleNeverEnds | supervisor/api/jobs.py:68-87 | Started from a job that is its own ancestor, the queue is never empty. |
| JobTree.WalkAdvances | supervisor/api/jobs.py:68-87 | Handling the first queued job lists new jobs only, keeps parents before children, and keeps the queue's contents in step. |
| JobTree.WalkEndsExactlyIfAcyclic | supervisor/api/jobs.py:68-87 | The walk from one job ends if and only if following parent ids from that job does not lead back to it. |
| JobTree.FilledAdvances | supervisor/api/jobs.py:69-87 | Appending into a child list that already stands in its parent keeps every list object showing the children handled so far. |
| JobTree.ListingIsExact | supervisor/api/jobs.py:47-89 | The listing holds the reachable non-internal jobs, each exactly once, roots newest first, children oldest first; from a start, exactly that one root. |
| JobTree.RootsAreTheParentless | supervisor/api/jobs.py:57-66 | Without a start, the roots are exactly the jobs that are not internal and have no parent, latest creation first. |
| JobTree.ChildrenAreThoseOfTheParent | supervisor/api/jobs.py:46-55 | Below every job stand exactly the jobs that are not internal and name it as parent, earliest creation first. |
| JobTree.APIJobs.GroupByParent | supervisor/api/jobs.py:46-55 | The grouping loop gives every parent its non-internal children in the given order. |
| JobTree.APIJobs.HandleNext | supervisor/api/jobs.py:68-87 | One turn of the loop on heap lists: the popped job is appended to the list the queue holds for it, with a new empty child list, its children are queued for that list, and every list stays in step with what is still queued for it. |
| JobTree.APIJobs.ListJobs | supervisor/api/jobs.py:34-89 | The queue ends, and the returned list object shows the unique recursive forest of the sorted jobs and roots; without a start, its roots are all parentless jobs that are not internal. |
| JobTree.APIJobs.JobInfo | supervisor/api/jobs.py:117-120 | For a job that is not its own ancestor the listing has exactly one element, the tree of that job. |
| BackupCatalogue.AgreeFieldByField | supervisor/backups/backup.py:286-299 | The comparison of consolidation, field by field over both key sets less the ignored ones, is equality of the metadata without the ignored fields. |
| BackupCatalogue.AgreeingHaveSameSlug | supervisor/backups/backup.py:281-299 | Backups that agree have the same slug. |
| BackupRuns.SortedLocationsAreSorted | supervisor/backups/backup.py:230-242 | The listed locations are exactly the given ones, in the order of the sort key. |
| BackupRuns.PreferredLocationIsDefined | supervisor/backups/backup.py:220-242 | An entry with a location has a preferred one of its own: local if present, else the first mount, the cloud only if it is the sole location. |
| Backups.Backup.constructor | supervisor/backups/backup.py:106-129 | A new backup has one location and the given or minimal metadata. |
| Backups.Backup.Load | supervisor/backups/backup.py:405-454 | Reading a backup replaces the metadata and sets size and protection of its one location; an unreadable one changes nothing. |
| Backups.Backup.Consolidate | supervisor/backups/backup.py:279-313 | Consolidation merges the locations if the backups agree, the other's location winning, and otherwise changes nothing and says why. |
| BackupCatalogue.LoadedExactly | supervisor/backups/manager.py:262-289 | In every completion order, conflicting files included: an entry per slug with a readable file, with the metadata of the first such file and, per location, the last file that agrees with it. |
| BackupCatalogue.ReloadGroupsTheFiles | supervisor/backups/manager.py:262-317 | For consistent, unambiguous files a full reload is their grouping by slug and location, with path, protection and size. |
| BackupCatalogue.FullReloadRecordsFiles | supervisor/backups/manager.py:262-289 | In every completion order, a slug is cached exactly if a readable file names it, and every recorded location has the path, the size and the protection of a file there with the same metadata but for protection and docker. |
| BackupCatalogue.FullReloadRecordsEveryFile | supervisor/backups/manager.py:262-317 | After a full reload of consistent, unambiguous files every readable file is recorded so. |
| BackupCatalogue.ReloadIgnoresTheOrder | supervisor/backups/manager.py:298-317 | For such files every completion order gives the same catalogue. |
| BackupCatalogue.OrderIsIrrelevantExactly | supervisor/backups/manager.py:262-317 | The completion order is irrelevant if and only if files sharing a slug agree and no two share slug and location. |
| BackupCatalogue.ConflictingFilesDependOnTheOrder | supervisor/backups/manager.py:266-276 | Two conflicting files for which the order matters. |
| BackupRuns.LoadAllIsGood | supervisor/backups/manager.py:262-317 | After a full reload every entry is keyed by its own slug and has a location. |
| BackupRuns.LocationReloadIsLocal | supervisor/backups/manager.py:319-336 | A location reload adds no slug, changes no other location and no metadata, and drops only backups whose sole location it was. |
| BackupRuns.LocationReloadTakesUpWhatItFinds | supervisor/backups/manager.py:320-323 | If the first file of a cached backup found there agrees with it, the location is recorded as the last agreeing file says, and the rest of the entry stays. |
| BackupRuns.LocationReloadRejectsConflicts | supervisor/backups/manager.py:322-330 | If that file does not agree, the entry stays as it was. |
| BackupRuns.LocationReloadForgetsWhatIsGone | supervisor/backups/manager.py:332-336 | If no readable file of the backup was found, the location is gone, and the backup exactly if that was its only one. |
| BackupRuns.LocationReloadAfterFullReload | supervisor/backups/manager.py:291-338 | With at most one file per slug and location, reloading a location right after a full reload of the same disk changes nothing, even if files were rejected as conflicting. |
| BackupRuns.RemovalStopsAtTheFirstFailure | supervisor/backups/manager.py:356-371 | A removal of distinct known locations stops at the first file that cannot be deleted, with its error; it has dropped exactly the locations before that one. |
| BackupRuns.RemovalSparesTheRest | supervisor/backups/manager.py:346-375 | A removal spares every location that was not requested, whatever happens to the files, and every other backup. |
| BackupRuns.RemovalRemovesWhatWasRequested | supervisor/backups/manager.py:346-375 | If every file is deleted, exactly the requested locations are gone, and the backup if those were all or none were named. |
| BackupRuns.DetachedRemovalIsAllOrNothing | supervisor/backups/manager.py:346-375 | A removal of an uncached object changes nothing if some location of the object was not requested; if everything was and every file is deleted, the slug is gone. |
| BackupRuns.RemovalStrandsExactly | supervisor/backups/manager.py:346-375 | With repeated locations a removal can end in an error with a location-less entry in the cache; exactly when its first targets are all the locations, each once, their files are deleted, and another target follows. |
| BackupRuns.RemovalSucceedsExactly | supervisor/backups/manager.py:356-371 | A removal ends without an error exactly if its targets are distinct known locations and every file is deleted; then exactly the others are left. |
| BackupRuns.CachedEntryIsDroppedExactly | supervisor/backups/manager.py:346-375 | Removing an object that is not the cached one drops the cached entry of its slug exactly if it goes through all locations of the object, each once, and deletes every file; otherwise the catalogue is unchanged. |
| BackupRuns.NothingIsForgottenExactly | supervisor/backups/manager.py:346-375 | Before the call: whatever happens to the files, no entry with a location or file unknown to the object is dropped, if and only if there is no such entry or some location of the object is not to be removed. |
| BackupRuns.NoLocationIsLostExactly | supervisor/backups/manager.py:346-375 | A removal of an uncached object from all its locations never loses a cached location if and only if the cached entry has none besides those of the object. |
| BackupRuns.StaleObjectForgetsTheNewFile | supervisor/backups/manager.py:340-375 | An object taken from the cache before a full reload that finds one more file: removing it from all its locations drops the reloaded entry and with it that file, until another full reload. |
| BackupRuns.RemovingAConsolidatedImportForgetsTheRest | supervisor/backups/manager.py:373-375 | Removing the object that a consolidated import handed out from all its locations drops the cached entry exactly if every file is deleted; that loses a location exactly if the cached entry had one that the import did not write to. |
| BackupRuns.CopiesOfAConsolidatedImportAreNotCached | supervisor/backups/manager.py:486-510 | Copies made during an import are in the cached entry exactly if the import created that entry or the entry knew the location before. |
| BackupRuns.ImportRecordsTheFile | supervisor/backups/manager.py:445-505 | An import changes nothing unless the file arrived; it is rejected then only if it conflicts with a cached backup; no other backup changes. |
| BackupRuns.ImportedIsCached | supervisor/backups/manager.py:467-505 | An import that succeeds records the file with its path, size and protection; a cached backup keeps its other locations. |
| BackupRuns.CopiesAreRecorded | supervisor/backups/manager.py:405-434 | The copies are recorded on the backup handed out, each with the path of the last copy to its location and the protection and size of the imported file. |
| BackupRuns.RunsKeepGood | supervisor/backups/manager.py:257-510 | Over every run of full reloads, location reloads, imports and removals, failing ones and those of objects that are not cached included, every entry is keyed by its own slug and has a location. |
| Backups.LoadBackup | supervisor/backups/manager.py:262-289 | The loading task on cached objects does what the value-level step says and touches no other object. |
| Backups.BackupManager.Reload | supervisor/backups/manager.py:257-317 | A full reload replaces the cache by the fold of the loading tasks in their completion order. |
| Backups.BackupManager.ReloadLocation | supervisor/backups/manager.py:319-338 | A location reload of the cached objects has exactly the effect of the catalogue function. |
| Backups.BackupManager.ReloadEntry | supervisor/backups/manager.py:320-336 | One turn of the merge loop consolidates, drops the location, drops the backup, or leaves it. |
| Backups.BackupManager.UnlinkTargets | supervisor/backups/manager.py:356-371 | The unlink loop removes locations one by one and stops at the first failure with its error. |
| Backups.BackupManager.Remove | supervisor/backups/manager.py:340-375 | Removal from the requested or all locations, failing anywhere, of a cached object or of any other, has exactly the effect of the catalogue function; the object keeps every location that was not requested. |
| Backups.BackupManager.CopyToAdditionalLocations | supervisor/backups/manager.py:405-434 | The copies that succeeded are recorded on the given object with its protection and size. |
| Backups.BackupManager.CacheImported | supervisor/backups/manager.py:486-505 | An imported backup becomes the cached object, or the cached one takes over its location, or the import is rejected and nothing changes. |
| Backups.BackupManager.ImportBackup | supervisor/backups/manager.py:437-510 | An import has exactly the effect of the catalogue function, and the object handed out is the cached one if and only if nothing was consolidated. |
| OptionsSpec.ElementConforms | supervisor/apps/options.py:78-272 | The validator accepts a value exactly if the value conforms to the schema, whatever it has seen before. |
| OptionsSpec.ElementIsAcceptedExactly | supervisor/apps/options.py:118-197 | A scalar is accepted with an output exactly if what it means, itself or a secret, meets the limits of its kind: ranges of numbers and lengths, ports, choices, patterns, booleans, and devices that pass the filter. |
| OptionsSpec.MissingOptionsAreRejectedExactly | supervisor/apps/options.py:274-291 | Options whose known values conform are rejected exactly if one is missing whose schema is neither optional nor a list with an optional first element. |
| OptionsSpec.FieldsConform | supervisor/apps/options.py:230-272 | A dict is accepted exactly if every field with a known key conforms, and the output has exactly the known keys of the input. |
| OptionsSpec.OutputIsCanonical | supervisor/apps/options.py:78-291 | The output is fully validated: every scalar in its final form, only schema keys, and every required key at each level. |
| OptionsSpec.OutputKeysAreUnique | supervisor/apps/options.py:247-272 | No key is written twice in a validated dict. |
| OptionsSpec.AcceptIsIdempotent | supervisor/apps/options.py:154-193 | Coercing a scalar twice is coercing it once. |
| OptionsSpec.CanonicalStays | supervisor/apps/options.py:106-272 | A fully validated value whose strings stand for themselves is accepted unchanged. |
| OptionsSpec.IdempotentExactlyIfSecretsAreFlat | supervisor/apps/options.py:126-133 | Validating an output again gives the same output, for all schemas and options, if and only if no secret's value refers to another secret. |
| OptionsSpec.SecretOfASecretIsNotStable | supervisor/apps/options.py:126-133 | The options for which it fails when a secret's value is such a reference. |
| OptionsSpec.ElementNotices | supervisor/apps/options.py:154-193 | An accepted value adds exactly the devices at its accepted device paths, and the hashes of its non-empty passwords. |
| OptionsSpec.FoundExactly | supervisor/apps/options.py:205-228 | For any value, valid or not, the extraction finds exactly the paths at non-empty device values, in dicts and directly in lists whose schema has one element. |
| OptionsSpec.PathsSplit | supervisor/apps/options.py:205-228 | For every conforming value, the validator accepts the paths of plain, looked-up and passed-over devices, and the extraction finds those of the plain ones and of the others as they are written. |
| OptionsSpec.NothingHeld | supervisor/apps/options.py:213-222 | Where the schema has no device the validator accepts no path, and if no list that the extraction does not visit has a device in its first element, nothing is passed over. |
| OptionsSpec.PassesOverExactlyIfHidden | supervisor/apps/options.py:213-222 | Some value, valid or not, has a path that is passed over if and only if the schema hides a device so. |
| OptionsSpec.ValidOptionsArePassedOverExactly | supervisor/apps/options.py:205-228 | There are options that validate with a device that is passed over if and only if a satisfiable device element lies in a list that is not visited and all that is required beside it can be given. |
| OptionsSpec.ExtractionAgreesWithValidation | supervisor/apps/options.py:170-228 | For options that validate: which devices the validator finds, which paths the extraction finds, and in terms of their parts when the two sets of paths are equal. |
| OptionsSpec.ExtractionAgreesExactly | supervisor/apps/options.py:170-228 | If no device lies at the empty path or at a secret reference, the two sets of paths are equal if and only if no visited device is given as a secret and every passed-over device is also written out where the extraction looks. |
| OptionsSpec.SecretDevicesAreNotExtracted | supervisor/apps/options.py:199-228 | A device given as a secret is validated, and extracted as the reference instead of its path. |
| OptionsSpec.SeveralElementsAreMissed | supervisor/apps/options.py:213-222 | A device in a list whose schema has two elements is validated and never extracted. |
| AppOptions.AppOptions.Call | supervisor/apps/options.py:78-103 | The top-level loop over the options is the specified validation, output and collected devices and hashes included, also when it fails midway. |
| AppOptions.AppOptions.ValidateElement | supervisor/apps/options.py:106-115 | Dispatch on the schema's form gives the specified result and fields. |
| AppOptions.AppOptions.SingleValidate | supervisor/apps/options.py:118-197 | Scalar validation with secrets, ranges, devices and password hashes gives the specified result and fields. |
| AppOptions.AppOptions.NestedValidateList | supervisor/apps/options.py:230-245 | The list loop gives the specified list or fails at the first bad item. |
| AppOptions.AppOptions.NestedValidateDict | supervisor/apps/options.py:247-272 | The dict loop drops unknown keys and gives the specified dict or fails. |
| AppOptions.AppOptions.CheckMissingOptions | supervisor/apps/options.py:274-291 | The check passes exactly if every schema key is present or may be missing. |
| AppOptions.AppOptions.ExtractDevicePaths | supervisor/apps/options.py:199-203 | The extraction returns the specified set of raw paths. |
| AppOptions.AppOptions.CollectDevicePaths | supervisor/apps/options.py:205-228 | The recursive traversal adds to the caller's set exactly what the schema-driven definition says. |
| Workload.StrippedIsJoined | supervisor/apps/workload.py:47 | Replacing runs by dashes and stripping is joining the words of the target by single dashes. |
| Workload.MountNameIs | supervisor/apps/workload.py:47-48 | The name is that text if it has at most 63 characters, else its first 63, or 62 if the 63rd is a dash; a fixed word if it is empty. |
| Workload.MountNameIsLabel | supervisor/apps/workload.py:40-48 | Every name is a label of section 2.1 of RFC 1123 and section 2.3.4 of RFC 1035, without two dashes in a row, whatever lower-casing does. |
| Workload.IsLabelExactly | supervisor/apps/workload.py:40-48 | What counts as a label, character by character. |
| Workload.CleanLabelsStay | supervisor/apps/workload.py:40-48 | Such a label names itself. |
| Workload.DigitsRoundTrip | supervisor/apps/workload.py:64 | The number can be read back from its digits, so different counters give different suffixes. |
| Workload.Pigeonhole | supervisor/apps/workload.py:62-64 | As many names are taken as numbers have been tried. |
| Workload.CounterIsBounded | supervisor/apps/workload.py:62-64 | The counter is at most the number of taken names plus two. |
| Workload.NamesAreDetermined | supervisor/apps/workload.py:57-76 | The targets determine the names. |
| Workload.NamesAreDistinct | supervisor/apps/workload.py:57-65 | The names are pairwise distinct. |
| Workload.NamesAreLabels | supervisor/apps/workload.py:57-65 | The first 998 names are labels. |
| Workload.LabelsExactlyUpTo998 | supervisor/apps/workload.py:57-65 | For lists of n targets all names are always labels if and only if n is at most 998. |
| Workload.CopiesAreNumbered | supervisor/apps/workload.py:62-64 | Equal targets whose name is already a numbered attempt are numbered from 3 on, which reaches four digits at the 999th. |
| Workload.FreeName | supervisor/apps/workload.py:60-64 | The loop ends, within the bound, at the first attempt that is free. |
| Workload.WorkloadFolderMounts | supervisor/apps/workload.py:51-77 | The mounts are the folders in order with exactly the specified names. |
| LifecycleSpec.StartsAreBounded | supervisor/core.py:318-425 | In every run, teardown begins at most once more often than others move the state out of shutdown, stopping or close; each stop stage and the end of the loop at most once more often than others move it out of stopping or close. |
| LifecycleSpec.ShutdownAndStopRunOnce | supervisor/core.py:318-425 | If nobody else moves the state out of those, teardown begins at most once and each stop stage runs at most once, for any interleaved, failing or cancelled callers. |
| LifecycleSpec.TeardownRepeatsAfterEscapes | supervisor/core.py:412-425 | The bound is tight: for every k, a run with k such moves and k + 1 teardowns. |
| LifecycleSpec.NoWaiterIsStranded | supervisor/core.py:411-425 | With no such assumption: in state shutdown with the event unset, or with a blocked waiter, some caller is inside the try block. |
| LifecycleSpec.TryEndsInThreeSteps | supervisor/core.py:416-425 | A caller in the try block sets the event by its third own step, and the event stays set. |
| LifecycleSpec.WaitersAreReleased | supervisor/core.py:411-425 | Every waiter is released within three steps of some caller in the try block. |
| LifecycleSpec.WaitersReturn | supervisor/core.py:412-414 | Once the event is set a waiter can go on, and returns without doing anything else. |
| LifecycleSpec.ShutdownCompletes | supervisor/core.py:416-425 | A shutdown from running or freeze in which nothing fails begins its teardown, stops the plugins and sets the event in three steps. |
| LifecycleSpec.NothingIsTornDownBeforeTheStartup | supervisor/core.py:400-404 | In every run, nothing is claimed or torn down before others have set the state to running or freeze. |
| LifecycleSpec.LateAndEarlyCallsDoNothing | supervisor/core.py:400-409 | A shutdown during startup or stopping, and a stop during stopping, do nothing. |
| LifecycleSpec.EventMeansTeardownEnded | supervisor/core.py:390-425 | Without moves by others, a set event means that the one teardown has ended. |
| LifecycleSpec.CallersAwaitExactlyWithoutEscapes | supervisor/core.py:390-425 | The documented promise, that callers await a shutdown in progress, holds in all runs with at most k moves of others out of shutdown, stopping or close if and only if k is 0. |
| LifecycleSpec.EventIsSetExactly | supervisor/core.py:424-425 | In every run, the event is set if and only if some caller has left the try block. |
| LifecycleSpec.CallerWaitsExactly | supervisor/core.py:411-414 | In every run, a further caller waits if and only if the state is shutdown and no caller has ever left the try block, and goes on once one has. |
| LifecycleSpec.StopEndsInClose | supervisor/core.py:323-365 | Unless others move the state out of stopping or close, a claimed stop stays claimed, the state becomes close only after both stages have begun, and the event loop is stopped only in it. |
| LifecycleSpec.StopCompletes | supervisor/core.py:318-365 | A stop in which nothing fails, from any state but stopping and close, runs each stage once and ends in close with the event loop stopped; from running and shutdown it stores the last boot first. |
| LifecycleSpec.StaleEventHoldsNobody | supervisor/core.py:411-414 | After such a move, a second shutdown is in progress and a further caller returns at once instead of waiting. |
| Lifecycle.Core.SetState | supervisor/core.py:79-85 | The field changes before the await, and there is an await only on a change. |
| Lifecycle.Core.Shutdown | supervisor/core.py:390-421 | Entering shutdown ignores, waits, or claims the state, as the transition system says. |
| Lifecycle.Core.ResumeShutdown | supervisor/core.py:416-425 | Every step and every failure inside the try block is the transition; leaving it sets the event. |
| Lifecycle.Core.Stop | supervisor/core.py:318-327 | Entering stop stores the boot time first in two states and looks at the state again afterwards. |
| Lifecycle.Core.EnterStopping | supervisor/core.py:323-327 | The second look at the state decides between leaving and claiming it. |
| Lifecycle.Core.ResumeStop | supervisor/core.py:327-365 | The stages and the final state change follow the transition system. |
| IngressSpec.CleanupsAreInvisible | supervisor/ingress.py:91-117 | With a monotone clock, new tokens and well-formed stamps, a run and the same run without its cleanups give the same answers and the same session data after every successful validation. |
| IngressSpec.CleanupsAreInvisibleExactlyIfWellFormed | supervisor/ingress.py:91-161 | That holds in all runs if and only if no stored stamp is malformed. |
| IngressSpec.MalformedStampsAreSeen | supervisor/ingress.py:101-107 | A cleanup drops a session with a malformed stamp that a validation would renew. |
| IngressSpec.AcceptedExactlyInTime | supervisor/ingress.py:128-161 | With any cleanups, a token is accepted exactly until creation plus 15 (k + 1) minutes after k successful validations. |
| IngressSpec.AcceptedSessionsKeepTheirData | supervisor/ingress.py:44-48 | With any cleanups, an accepted session has exactly the data it was created with. |
| IngressSpec.RefusedForever | supervisor/ingress.py:139-161 | A session refused once is refused forever. |
| Ingress.Ingress.CleanupSessions | supervisor/ingress.py:91-117 | The loop rebuilds both dictionaries with exactly the sessions that are not over and their data. |
| Ingress.Ingress.CreateSession | supervisor/ingress.py:128-137 | A new session lasts 15 minutes and keeps its data. |
| Ingress.Ingress.ValidateSession | supervisor/ingress.py:139-161 | The answer and the prolonged stamp, also for malformed stamps. |
| Ingress.Ingress.GetSessionData | supervisor/ingress.py:44-48 | The stored data, an empty dict counting as none. |
| Updater.OffersFollowTheChain | supervisor/updater.py:105-114 | From the last version of a mapped major, the offers are the last versions of the following mapped majors, none left out, then the unrestricted version. |
| Updater.UpgradePath | supervisor/updater.py:86-117 | The whole sequence of offers from any current version. |
| Updater.FixedExactly | supervisor/updater.py:105-117 | Nothing else is offered to the unrestricted version exactly if its major is not mapped, or it is the last of its major and the next is not mapped. |
| Updater.OfferIsRestrictedOnlyIfMapped | supervisor/updater.py:92-117 | The map restricts an offer only from a mapped major, and there is an offer exactly if there is an unrestricted version. |
| Updater.UnrestrictedIsReached | supervisor/updater.py:86-117 | With contiguous majors below it, the unrestricted version is reached within one installation per mapped major from the current one on, plus one, and stays. |
| Updater.OffersCanCircle | supervisor/updater.py:105-114 | If it lies in a mapped major without being its last, the offers come back to it in a circle. |
| AppStateSpec.StateFollowsTheHistory | supervisor/apps/app.py:189-264 | In every history the cached state is what the last container event or failed operation stands for, and the notifications are exactly the changes. |
| AppStateSpec.StateIsThatOfTheLastItem | supervisor/apps/app.py:189-214 | Which of the five states the app is in, from the last container report or failure: error, startup, started, stopped or unknown, each with its containers. |
| AppStateSpec.StateIsUnknownAtFirst | supervisor/apps/app.py:155-158 | Before anything is reported the state is unknown. |
| AppStateSpec.NotificationsAlternate | supervisor/apps/app.py:235-264 | Notifications never repeat a state and end in the current one. |
| AppStateSpec.StartupEventExactly | supervisor/apps/app.py:240-241 | The startup event is set exactly if, since it was last cleared, the state moved into started or out of startup. |
| AppStateSpec.UnseenStopMissesTheStartup | supervisor/apps/app.py:235-241 | An app started while still taken to be started does not set the event as long as everything seen means started. |
| AppStateSpec.HealthcheckHoldsTheStartup | supervisor/apps/app.py:201-206 | While the app is told only that its container runs with a health check the startup event stays unset; whatever else it is told next sets it. |
| AppStateSpec.ManualStopHolds | supervisor/apps/app.py:1862-1876 | After a stop, by anybody, the watchdog keeps out until a container event says that it runs; finding it so while loading is not enough. |
| AppStateSpec.RunningIsWatched | supervisor/apps/app.py:1840-1841 | Once a container event says that it runs, only another stop keeps the watchdog out. |
| AppStateSpec.WatchdogIsAccounted | supervisor/apps/app.py:1776-1833 | At most five tries; one removal of a failed container, before the first; sleeps of 10 (2^n - 1) seconds for n retried failures, at most 150, besides waits for other operations. |
| AppStateSpec.WatchdogEnds | supervisor/apps/app.py:1781-1833 | With no other operation in progress the watchdog ends within five turns. |
| AppStateSpec.WatchdogEndsExactly | supervisor/apps/app.py:1781-1821 | The watchdog ends exactly when the container is in another state, when it starts, runs already or cannot have its port, or at the fifth failure. |
| AppStateSpec.WatchdogSleeps | supervisor/apps/app.py:1824-1833 | With nothing else in progress it has slept 0, 10, 30, 70, 150 and 150 seconds after 0 to 5 failures. |
| AppStateSpec.ActionsFitTheProblem | supervisor/apps/app.py:1798-1808 | A failed container is removed and started, one in other trouble restarted. |
| AppStateSpec.WatchdogKeepsItselfOut | supervisor/apps/app.py:1377-1385 | While nobody else stops the app and no event says that it runs, the watchdog keeps out afterwards if and only if it did so before or has tried to restart an app that stopped or is unhealthy; restarting a failed one does not keep it out. |
| AppState.App.UpdateState | supervisor/apps/app.py:216-264 | The cached state, the event and the notifications change together and only on a change; the state is error after a failure and otherwise the one its container stands for. |
| AppState.App.ContainerStateChanged | supervisor/apps/app.py:1835-1860 | A container event is the step of the state machine. |
| AppState.App.SettleState | supervisor/apps/app.py:355 | A state found while loading changes the cached state like an event, but not whether the app was stopped by somebody. |
| AppState.App.Start | supervisor/apps/app.py:1303-1355 | A start, in each way it can go, clears the startup event or not and reports a failed operation or not. |
| AppState.App.Stop | supervisor/apps/app.py:1362-1371 | A stop marks the app as stopped on purpose before anything else, and reports a failed operation. |
| AppState.App.WatchdogContainer | supervisor/apps/app.py:1862-1876 | The watchdog acts exactly on failed, stopped and unhealthy containers, if it is enabled and the app was not stopped on purpose; its own stops and starts change the app like those of others. |
| AppState.App.RestartAfterProblem | supervisor/apps/app.py:1776-1833 | The loop tries, sleeps and ends as specified, and the app ends in the state that its stops, starts and failures and the events in between lead to. |

## Left out

- The decorators for jobs, their conditions, throttling and concurrency limits: their source is not part of this model.
- The adaptation of job dicts for old clients (`process_job_dict_for_legacy_compatibility`): the branch that keeps the dict is modelled.
- JobTree.APIJobs.ListJobs: a given start must not be its own ancestor, since the loop does not end otherwise (`WalkEndsExactlyIfAcyclic`).
- JobTree.APIJobs.JobInfo: the same.
- Contents of job dicts other than the job and its children: copied fields.
- Catalogue operations interleaved inside one another, or cancelled midway: the code does not look again after its awaits, so each operation is one step.
- The reload that a removal starts when a file is missing: it is a later operation of the run.
- `_do_backup`, restoring, encryption and reading of archives: a file is its metadata and size, or unreadable.
- RunsKeepGood: callers that remove a cached backup name each location once, as the request schema in `supervisor/api/backups.py:93` makes sure; `RemovalStrandsExactly` says what happens otherwise.
- Messages, logging, issues and notifications other than the state changes of connectivity and apps.
- The regular expression that splits a schema element, device filters, and e-mail, URL and pattern matching: parameters of the options model.
- OptionsSpec.ExtractionAgreesExactly: assumes that the hardware has no device at the empty path or at a path spelled like a secret reference; `ExtractionAgreesWithValidation` holds without that.
- Dicts of options and schemas are sequences of fields in insertion order; the two traversals are compared for dicts with distinct keys.
- Assembly of the list of folder mounts and `workload_environment`: the first is the input of the naming, the second only delegates.
- In the lifecycle the stages of stopping and of teardown are one step each; other tasks may set the state at any time, but not to shutdown, stopping or close, which only `shutdown` and `stop` do.
- Starting up (`supervisor/core.py`, before line 318) is not modelled.
- Time stamps that are out of range without overflowing make reading them fail with an error that nobody handles; only well-formed and overflowing stamps are modelled.
- `get_dynamic_port`, `del_dynamic_port` and the token list of ingress are not modelled.
- Fetching and parsing of version files, and the other getters of the updater, are not modelled.
- Starting and stopping an app are represented by the ways they can go; guards that refuse a start or stop before it begins are not modelled. A raised error while the watchdog reads the container state ends it like a changed state.
- The depth of nested reruns of the connectivity check, each of which awaits inside the one before.

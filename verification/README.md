# Meshonator: a verified model of its configuration pipeline, job queue and inventory

Meshonator manages fleets of Meshtastic radio nodes over TCP. This project models the four parts of it
whose behaviour is hardest to see from any one function, and proves what they do.

**The configuration tree.** Configurations are JSON-like trees. They are merged, compared, cloned from one
node to others, edited through dotted paths, written to a device and remembered in a metadata shadow. The
stages only make sense together: a patch is built in the API, laid over a clone in a job, merged into the
shadow, and judged by the comparator. Here it is proved that the diffs of the comparator are a complete edit
script in any order; that a clone and an alignment sync converge under the comparator; when two patches in a
row equal one merged patch (an exact condition, and a concrete failure); that channel indexes are stable over
runs of patches (again with the exact condition); what a patched row then holds, leaf by leaf; and over which runs the shadow
stays equal to the device, dry runs included: live patches that keep to the schema of the device never part the two.

**The job queue.** Any number of workers claim jobs from one table by snapshot and compare-and-set. It is
proved that no job is claimed or run twice in any interleaving, what an empty-handed claim means, and that
for every kind of job the job ends in success exactly when its payload is usable and nothing it calls goes
wrong, in agreement with the evidence rows written for it, with one exact exception.

**The visibility graph and the favorites built from it.** The snapshot of who sees whom names each mutual
pair once and each unreturned sighting as one-way, with an exact handshake count. The favorite refresh queues
two jobs whose writes commute; a second refresh changes no device, and finds nothing stale exactly when no
source favorites itself unseen.

**The inventory.** Reachability with failure hysteresis in closed form, the exact summary of a refresh, and
the upsert that upgrades provisional rows. For single nodes, over any run of calls, the key of the node table
holds, a node has one link per endpoint and real identities last. For lists of nodes the key and the identities
last as well; that every node of the list gets a row, and that links stay single, holds under an exact
condition each.

Some properties a reader might expect do not hold, and the model says exactly when they do:

- Merging is not associative (`Merging.AssociativityFails`; condition in `Merging.AssociativeIffStaged`).
- A channel patch with a negative index moves rows that have no index of their own
  (`Channels.NegativeIndexShifts`; condition in `Channels.IndexesKeptIff`).
- A list with two new nodes loses all but the last of them when the endpoint has a provisional row, because
  the rename is not flushed before the next query (`Inventory.SecondOverwritesFirst`; condition in
  `Inventory.ListKeptIff`). Meshtastic reports one node per endpoint, so it does not meet this case.
- A list that repeats an id links one node to one endpoint twice, because the first link is not flushed when
  the second is looked for (`Inventory.RepeatedIdLinksTwice`; condition in `Inventory.ListSoundIff`). MeshCore
  reports its whole contact list and names every contact without an id `unknown`
  (src/meshonator/providers/meshcore/provider.py:102-114). One link per node and endpoint is what the upsert
  looks for (src/meshonator/inventory/service.py:78-83); the schema has no constraint for it.
- A batch job whose `clone` field is set and no dictionary raises before its handler is in place and stays
  running without a row (`Runners.RunJob`). The routes never build such a payload.

`dafny verify dfyconfig.toml` checks everything.

## How the source is modelled

- A JSON value is `Json`; a dictionary is a map, so key order is not kept. Loops over a dictionary take its
  keys in an arbitrary order, or sorted where the source sorts; the items of a channel patch carry their keys in
  order, since there the order matters.
- A missing key reads as null wherever the source uses `.get`.
- Objects that the source updates in place are classes: message objects of a device, node and endpoint rows,
  the jobs service, the inventory session, nested dictionaries. Specification functions on values say what
  each method does, and lemmas about those functions carry the theorems.
- A table is a map or a sequence of rows; one commit is one atomic step. Where a query has no order, rows come
  in table order. `Inventory` keeps the flushed and the pending state apart, since the session does not flush
  by itself (src/meshonator/db/session.py:10).
- Probes, device answers, raised exceptions, clocks and audit calls are parameters: the theorems hold for all
  of them.
- Strings are sequences of characters; lower, upper and strip work on ASCII.
- Where documentation and code could be read differently the code decides. Null is stored, not deleted; a dry
  run still writes the altitude and the metadata shadow; `start` and `finish` are unconditional.

## Model

| member | source | states |
|---|---|---|
| Merging.MergeDict | src/meshonator/operations/service.py:19-26 | the recursive loop computes the merge of two trees; the versions in app.py and jobs/queue.py are the same loop |
| Merging.EmptyPatchIsNeutral | src/meshonator/api/app.py:600-607 | the empty dictionary is a two-sided identity |
| Merging.ReapplyingIsNoOp | src/meshonator/jobs/queue.py:566-573 | applying a patch twice is applying it once, on any base |
| Merging.AbsorbedIffErased | src/meshonator/operations/service.py:19-26 | a patch wipes out its base exactly when it names every key of it, at every depth |
| Merging.AssociativeIffStaged | src/meshonator/api/app.py:2396-2398 | for all triples: merging step by step equals merging the patches first, if and only if no dictionary hidden by a non-dictionary comes back incomplete |
| Merging.AssociativityFails | src/meshonator/jobs/queue.py:566-573 | a null in the middle patch makes the two groupings differ |
| Merging.LookupMerged | src/meshonator/operations/service.py:19-26 | what a merged tree holds at any path, in terms of the two trees at that path |
| Merging.LastWriterWins | src/meshonator/jobs/queue.py:695-705 | in the nested pipeline the last layer that writes a leaf decides it, whatever the earlier layers hold |
| Merging.StackIsSilent | src/meshonator/jobs/queue.py:695-705 | a path that no layer mentions is not made by the pipeline |
| Merging.StagedPipeline | src/meshonator/api/app.py:2396-2398 | form over JSON over clone over shadow, merged inside out, equals four separate applications under the staged condition |
| Paths.GetNested | src/meshonator/api/app.py:1235-1241 | the loop reads a path: missing keys and steps into non-dictionaries give null |
| Paths.SetNestedWrites | src/meshonator/api/app.py:593-597 | the write raises exactly when the path is empty or blocked; otherwise the path holds the value and every incomparable path is untouched |
| Paths.WritesCommute | src/meshonator/api/app.py:593-597 | writes at incomparable paths can be swapped, failures included |
| Paths.AnyOrder | src/meshonator/api/app.py:593-597 | any order of a prefix-free batch of writes gives the same result |
| Paths.BatchIsReadBack | src/meshonator/api/app.py:593-597 | after a prefix-free batch each path reads back its value |
| Paths.BatchSucceeds | src/meshonator/api/app.py:593-597 | a prefix-free batch raises only where a path was blocked from the start |
| Paths.BatchMakesNothingElse | src/meshonator/api/app.py:593-597 | a batch onto an empty dictionary makes nothing that is not at, above or below a written path |
| Paths.RemoveNestedRemoves | src/meshonator/api/app.py:1267-1279 | the named path and all below it are gone, dictionaries above it stay dictionaries, every incomparable path is left alone |
| Paths.SplitJoin | src/meshonator/api/app.py:2981 | splitting the dotted name of a path without dots in its segments gives the path back |
| Mutable.PyDict.SetNestedKey | src/meshonator/api/app.py:593-597 | on nested dictionary objects updated in place: the result is that of the value-level write, and where the call raises nothing has changed |
| Mutable.PyDict.Descend | src/meshonator/api/app.py:596 | `setdefault` on the way down adds at most one empty dictionary and changes no other value |
| Mutable.PyDict.RemoveKey | src/meshonator/api/app.py:1267-1279 | in-place removal computes the value-level removal |
| Mutable.PyDict.SetAll | src/meshonator/api/app.py:2974-2989 | the in-place fold of a batch of writes carries out the edits before the first one that raises, and the dictionary then holds exactly what those edits give, also when a later one raises |
| Comparing.CompareNamesDiffs | src/meshonator/api/app.py:504-517 | unless both trees go on below an empty key at the top, the comparator's dotted-path diffs are the key-list diffs with their paths joined |
| Comparing.ReportedPathsSplit | src/meshonator/api/app.py:504-517 | splitting a reported path string gives back its keys |
| Comparing.DiffIsAccurate | src/meshonator/api/app.py:504-517 | each diff reports the two values its path reads as; they differ, are not both dictionaries, and nothing blocks the path on either side |
| Comparing.DiffsArePrefixFree | src/meshonator/api/app.py:504-517 | no diff path is above or equal to another |
| Comparing.NoDiffsIffSame | src/meshonator/api/app.py:504-517 | the comparator is silent exactly when the trees agree up to missing keys versus nulls inside dictionaries |
| Comparing.DiffsAreAnEditScript | src/meshonator/api/app.py:504-517 | writing the diffs' target values onto the source in any order never raises, always gives one tree, and that tree compares equal to the target |
| Comparing.PatchedIsTarget | src/meshonator/api/app.py:504-517 | the patched source is the same configuration as the target |
| JsonTree.AtMostIs | src/meshonator/api/app.py:507 | the order in which the comparator visits keys: a proper prefix first, else by the first character that differs |
| Shadow.PatchedSectionReads | src/meshonator/operations/service.py:139-149 | a patched metadata section reads as the merge of the old section, or of nothing when that was no dictionary, with the patch |
| Shadow.SnapshotIs | src/meshonator/api/app.py:538-550 | each of the four parts of a comparable snapshot is the node's own, with an empty dictionary for a section that is none |
| Shadow.SnapshotDiff | src/meshonator/api/app.py:538-550 | every diff of two comparable snapshots lies below one of their four sections and is a diff of that section |
| Cloning.CloneConverges | src/meshonator/jobs/queue.py:600-607 | after the sanitised clone is merged into any target, each remaining diff is protected (key material, role), has no source value, or is under the operator's own patch |
| Cloning.OperatorPatchWins | src/meshonator/jobs/queue.py:687-698 | every leaf of the operator's patch is in the clone's patch, which is the operator's patch alone when the source has no preferences |
| Cloning.ProtectedStays | src/meshonator/jobs/queue.py:600-607 | key material of a target is never touched by a clone, nor its role unless asked for, where the operator's patch is silent |
| Cloning.CloneIsCompleteIff | src/meshonator/jobs/queue.py:691-698 | for any operator patch, role included or not: apart from protected paths a cloned target compares equal to its source if and only if the operator's patch sets nothing new and the target had nothing beyond |
| Cloning.SanitizeMerges | src/meshonator/jobs/queue.py:600-607 | protecting paths before or after a merge is the same, role included or not |
| Cloning.SameAfterMergeIff | src/meshonator/operations/service.py:19-26 | merging one tree into another makes them compare equal exactly when the other had no extra keys |
| Cloning.SameThroughIff | src/meshonator/jobs/queue.py:695-698 | a patch laid over the source on its way into the target leaves them equal exactly when it alters nothing the comparator sees and the target had no extra keys |
| Cloning.BuildAlignmentLocalPatch | src/meshonator/api/app.py:1314-1325 | the builder's guarded writes never raise, and it returns the selected values without key material |
| Cloning.SelectPaths | src/meshonator/api/app.py:1319-1322 | the loop over the listed paths writes one edit for each path the source has a value at |
| Cloning.LocalPatchHolds | src/meshonator/api/app.py:1314-1325 | the local patch carries the source's value at every listed path it has one at |
| Cloning.LocalPatchHoldsNothingElse | src/meshonator/api/app.py:1314-1325 | all that the local patch holds lies at, above or below a listed path at which the source has a value |
| Cloning.ModulePatchHolds | src/meshonator/api/app.py:1328-1335 | the module patch carries everything outside ambient lighting unchanged |
| Cloning.ModulePatchOmits | src/meshonator/api/app.py:1328-1335 | the two colours are gone from the module patch, and every path neither above nor below them reads as in the section |
| Cloning.AlignmentPathsApart | src/meshonator/api/app.py:1244-1259 | no listed path is above another |
| Cloning.AlignmentConverges | src/meshonator/api/app.py:1314-1371 | after both alignment patches every diff at one of the profile's 15 exact paths is presence-only, so the filter drops it |
| Cloning.AlignmentConvergesByName | src/meshonator/api/app.py:2246-2252 | the same for the dotted names the page filters by |
| Channels.MergeRow | src/meshonator/operations/service.py:44-54 | the loop over an item's keys in the item's own order: both spellings of the module settings share one slot, and which of them comes first is all that order decides |
| Channels.MergeChannels | src/meshonator/operations/service.py:29-55 | the two loops and the sort compute the merged channel list |
| Channels.LastIsFiled | src/meshonator/operations/service.py:30-37 | of the rows that answer to one index the last is the one patched, in any list, ordered or not |
| Channels.WriteKeyMerges | src/meshonator/operations/service.py:47-53 | one turn of the key loop extends the merged row by that key |
| Channels.ChannelIndexesAreStable | src/meshonator/operations/service.py:29-55 | on an ordered list a patch with non-negative indexes is a map update at its indexes: all other rows keep effective index and contents, and the list stays ordered |
| Channels.UnnamedKeysStay | src/meshonator/operations/service.py:38-54 | a patched row keeps every key its item does not name; a row that was not there starts from its index alone |
| Channels.NamedKeysAreWritten | src/meshonator/operations/service.py:44-54 | a named key takes the item's value; settings are the merge of the old settings with the item's, and with both spellings of the module settings of both, in the item's order |
| Channels.RunOfPatches | src/meshonator/operations/service.py:150-154 | over any run of patches with non-negative indexes the list stays ordered and is the first list with all the items applied as one map update |
| Channels.UntouchedOverRuns | src/meshonator/operations/service.py:150-154 | over such a run a row that no patch addresses keeps effective index and contents, also when it has no index of its own |
| Channels.UnspokenValuesStay | src/meshonator/operations/service.py:150-154 | over any run of patches a row reads as before at every path no item addressed to it speaks of |
| Channels.LastItemDecides | src/meshonator/operations/service.py:150-154 | over any run the last item that speaks at a path of a row decides what the row holds there, also in a row the run has added |
| Channels.IndexesKeptIff | src/meshonator/operations/service.py:34-37 | effective indexes are kept if and only if the patch has no negative index or addresses every row without an index |
| Channels.NegativeIndexShifts | src/meshonator/operations/service.py:34-37 | a concrete patch with index -1 moves a row without an index |
| Channels.FaithfulReadsBack | src/meshonator/operations/service.py:29-55 | reading the written list by effective index gives the rows back |
| Device.Message.Assign | src/meshonator/providers/meshtastic/provider.py:433-457 | the in-place recursive writer leaves the message tree with the value-level assignment and adds no attribute |
| Device.Message.AssignOne | src/meshonator/providers/meshtastic/provider.py:434-457 | one item of the writer's loop: unknown attribute, nested message, leaf |
| Device.NormalizeIs | src/meshonator/providers/meshtastic/provider.py:429-430 | each dash becomes an underscore, every other character stays |
| Device.AssignedIsMergeIff | src/meshonator/providers/meshtastic/provider.py:433-457 | the device writer agrees with the shadow's merge if and only if the patch fits the device: every key exists and dictionaries meet messages |
| Device.ApplySections | src/meshonator/providers/meshtastic/provider.py:460-487 | writes exactly the dictionary-valued sections the device has, and reports exactly those, each once |
| Device.SectionsAreMergeIff | src/meshonator/providers/meshtastic/provider.py:460-487 | section by section the device equals the merged shadow if and only if each section fits |
| Device.LocalNode.Write | src/meshonator/providers/meshtastic/provider.py:236-244 | both configuration parts are written, each only when its patch is not empty, and the sections reported are those the device has and the patch has a dictionary for |
| Device.NodeRow.ApplyPatch | src/meshonator/operations/service.py:65-157 | which of the four outcomes occurs; each column holds the patch's value if there is one and the outcome writes it, else the old one; a dry run moves altitude and metadata alone; the metadata takes the patch; only an applied patch touches the device |
| Device.MetadataTakesPatch | src/meshonator/operations/service.py:138-155 | the two sections are the old ones merged with the patch, the channels are the old list merged with the patch's items, and every other key of the metadata is unchanged |
| Device.OperationIsStep | src/meshonator/operations/service.py:122-157 | what `ApplyPatch` does to a reachable node is the step the run theorem is about |
| Device.MetadataFollows | src/meshonator/operations/service.py:139-155 | the shadow moves by the merge with the two patches, on dry runs too |
| Device.HoldsIffMergeIsIdle | src/meshonator/operations/service.py:19-26 | a merge changes nothing exactly when the patch asks only for what is there |
| Device.CoherentStepIff | src/meshonator/operations/service.py:122-157 | one operation keeps shadow equal to device if and only if it fits (live) or asks for nothing new (dry run) |
| Device.CoherentRunIff | src/meshonator/operations/service.py:122-157 | over any run of operations shadow and device are equal after every step if and only if each operation keeps them so |
| Device.WritesKeepSchema | src/meshonator/providers/meshtastic/provider.py:433-457 | a write that matches the device, dictionary to message and leaf to leaf, leaves a device that the same patches match |
| Device.SchemaRunsStayCoherent | src/meshonator/operations/service.py:122-157 | live patches that match the device as it is at the start keep shadow equal to device after every step of any run |
| Device.ValidIsWellShaped | src/meshonator/providers/meshtastic/provider.py:433-457 | every valid message object has the shape the run theorem asks for |
| Editor.RowsAreTheOpenLeaves | src/meshonator/api/app.py:1408-1440 | the emitted row paths are exactly the descriptor's leaves with no sensitive segment |
| Editor.RowsHoldTheirLeaves | src/meshonator/api/app.py:1408-1440 | the emitted rows are exactly one for each open leaf, with its dotted path, its kind and the value the message has there, or the default of its kind |
| Editor.SensitiveIff | src/meshonator/api/app.py:1282-1294 | exactly the listed names and those that end in `password` are sensitive, in any case and with whitespace around |
| Editor.CaseDoesNotMatter | src/meshonator/api/app.py:1282-1294 | two names with the same letters are sensitive together |
| Editor.LeavesApart | src/meshonator/api/app.py:1408-1440 | two leaves of a descriptor are never above one another |
| Editor.SubmissionIsPrefixFree | src/meshonator/api/app.py:2974-2989 | the submitted writes are prefix-free and never meet a non-dictionary |
| Editor.EditorRoundTrip | src/meshonator/api/app.py:2974-2989 | submitting the emitted rows in any order gives a patch whose leaves are exactly the non-sensitive leaves with their submitted values |
| Jobs.JobsService.Create | src/meshonator/jobs/service.py:16-20 | a new job is pending |
| Jobs.JobsService.Start | src/meshonator/jobs/service.py:22-29 | a known job becomes running from now on, whatever its status was, with type, creation and end time kept; every other job is unchanged |
| Jobs.JobsService.Finish | src/meshonator/jobs/service.py:31-38 | a known job ends now in success or failure as told, whatever its status was, and nothing else of it changes |
| Jobs.JobsService.AddResult | src/meshonator/jobs/service.py:40-43 | evidence is only appended |
| Jobs.JobsService.Candidates | src/meshonator/jobs/service.py:103-107 | the snapshot: at most twenty pending jobs, oldest first, none older left out, all of them when fewer than twenty |
| Jobs.SnapshotIs | src/meshonator/jobs/service.py:103-107 | a snapshot spelled out: at most twenty pending jobs, each once, oldest first, none older left out, all of them when fewer than twenty |
| Jobs.JobsService.TryClaim | src/meshonator/jobs/service.py:110-116 | the compare-and-set reports one row exactly when the job was pending; that job is running from now on, and a lost claim changes nothing |
| Jobs.JobsService.ClaimNextPendingId | src/meshonator/jobs/service.py:102-118 | undisturbed, a claim leaves running a pending job with none strictly older, and returns None exactly when nothing is pending |
| Jobs.JobsService.RecoverStaleRunningJobs | src/meshonator/jobs/service.py:120-150 | a job fails exactly when it is running, or pending and asked for, and its start or else its creation lies before the cutoff; each job that changed has one new failed row, and their number is returned |
| Jobs.FailStale | src/meshonator/jobs/service.py:126-147 | the recovery loop, in any order of the selected rows |
| Protocol.InvStep | src/meshonator/jobs/service.py:102-150 | every step of every worker, and every recovery, keeps the claim invariant |
| Protocol.AtMostOnce | src/meshonator/jobs/worker.py:30-62 | in every interleaved run no job is claimed twice, none is run twice by workers, and only claimed jobs are run |
| Protocol.NeverPendingAgain | src/meshonator/jobs/service.py:22-38 | no step returns a job to pending |
| Protocol.RunningUntilEnded | src/meshonator/jobs/service.py:109-118 | from the step in which a worker wins a job the job is running with a start time, until a finish of it or a recovery that takes it |
| Protocol.HeldJobIsRunning | src/meshonator/jobs/worker.py:30-62 | a job that a worker holds or runs was pending when that worker claimed it, and is running unless it was finished or recovered since |
| Protocol.HeldIsRecorded | src/meshonator/jobs/worker.py:30-62 | the claim of a job a worker holds is on record as that worker's, and so is the run of a job it works on |
| Protocol.EmptyHandedMeansGone | src/meshonator/jobs/service.py:108-118 | a claim that returns None has seen every candidate of its snapshot leave pending |
| Protocol.OthersMadeProgress | src/meshonator/jobs/service.py:108-118 | without recovery, each candidate of an empty-handed worker was claimed since the snapshot by another worker |
| Runners.HasFailureMeans | src/meshonator/jobs/service.py:40-43 | a job has failed evidence exactly when some failed row names it |
| Runners.Abandon | src/meshonator/jobs/queue.py:213-216 | the outer handler adds one failed row and ends the job in failure |
| Runners.Conclude | src/meshonator/jobs/queue.py:195-216 | status agrees with evidence even when the audit call after `finish` raises and is caught: success exactly when told so and the audit returns |
| Runners.MutateNodeDb | src/meshonator/operations/service.py:185-248 | when the call returns, applied and failed targets are an order-preserving partition of the targets, and which are failed |
| Runners.InterleavesCounts | src/meshonator/operations/service.py:205-238 | the partition conserves number and multiplicity |
| Runners.NonBlank | src/meshonator/jobs/queue.py:119-121 | the targets are the payload's ids with surrounding whitespace removed and the blank ones left out, in order, each as often as it is listed |
| Runners.Except | src/meshonator/jobs/queue.py:141-143 | the target list with one id left out, the others in order, each as often as it is listed |
| Text.StripIs | src/meshonator/jobs/queue.py:119-121 | what is stripped is whitespace at the two ends, and none is left at either end |
| Runners.MutateOne | src/meshonator/jobs/queue.py:129-182 | one destination: the row it earns and the target list of the call it issues |
| Runners.MutateEach | src/meshonator/jobs/queue.py:125-182 | one row per listed destination in order, success exactly when earned, successes and failures add up, and exactly the due calls are issued |
| Runners.NoneIssuedToItself | src/meshonator/jobs/queue.py:141-143 | with self exclusion a destination is told every target but itself, in order and multiplicity, without it every target |
| Runners.RunBulkNodeDb | src/meshonator/jobs/queue.py:98-216 | each existing destination is told exactly the payload's ids, without its own when asked so, and leaves a success exactly when its mutation goes well; the job succeeds exactly when the payload is usable and all of them, the sync and the audit do; the sync is called exactly when due |
| Runners.RunNodeNodeDb | src/meshonator/jobs/queue.py:219-277 | the one call names exactly the payload's ids, and the job succeeds exactly when the payload is usable and nothing the call needs goes wrong |
| Runners.SyncAndConclude | src/meshonator/jobs/queue.py:184-216 | the automatic sync's row counts towards the status: success exactly when the work, a due sync and the audit succeed |
| Runners.RunDiscovery | src/meshonator/jobs/queue.py:280-405 | the job succeeds exactly when the scan finds something and a sync, if asked for, has no failure, and its status agrees with its evidence; the sync is called exactly when something is found and it is asked for |
| Runners.RunSync | src/meshonator/jobs/queue.py:408-442 | the job succeeds exactly when no endpoint failed, its row says so, and status agrees with evidence |
| Runners.RunNodePatch | src/meshonator/jobs/queue.py:519-563 | the job succeeds exactly when its patch is applied, with a row for the node, and status agrees with evidence |
| Runners.PatchEach | src/meshonator/jobs/queue.py:468-498 | one row per node in order, failed with the reason exactly where its patch raised |
| Runners.RunGroupPatch | src/meshonator/jobs/queue.py:445-516 | the job succeeds exactly when every member's patch is applied, every member has its row, and status agrees with evidence |
| Runners.RunMultiNodePatch | src/meshonator/jobs/queue.py:662-782 | an exception escapes exactly when the clone field is set and no dictionary, with the job left running and no row; otherwise the job succeeds exactly when the payload is usable and every patch is applied, every selected node has its row, and status agrees with evidence |
| Runners.RunJob | src/meshonator/jobs/queue.py:64-95 | for every job type the job ends in success exactly when its payload is usable and nothing it calls goes wrong, and in agreement with its evidence if and only if the payload is no batch patch with an unreadable clone field; that one leaves the job running; no other job and no other job's evidence is touched |
| Reachability.CounterIsFailedInARow | src/meshonator/inventory/service.py:144-149 | the counter is the number of failed probes since the last success, plus the initial counter if there was none |
| Reachability.OnlineAfterProbe | src/meshonator/inventory/service.py:144-151 | right after a probe an endpoint is online exactly when it was ever put online and its counter is below the threshold, or below one |
| Reachability.DropsAtTheLimit | src/meshonator/inventory/service.py:144-151 | after a success an endpoint survives n failures exactly when n is zero or below the threshold |
| Reachability.Endpoint.Record | src/meshonator/inventory/service.py:137-172 | one probe's effect on flag, counter and time stamp, with the numbers spelled out |
| Reachability.ProbeAll | src/meshonator/inventory/service.py:136-172 | every row gets its probe, and the online and offline counts are the numbers of such rows afterwards |
| Reachability.ProbeRows | src/meshonator/inventory/service.py:136-172 | the probing loop: every row is its own row after one probe, and the state names each endpoint with its flag |
| Reachability.UpdateNodes | src/meshonator/inventory/service.py:177-188 | node flags follow the endpoint states, and the change count is the number of flags that differ |
| Reachability.Refresh | src/meshonator/inventory/service.py:129-201 | every number of the summary is the number of rows it speaks of, every row has had its probe, and a node is reachable exactly when one of its endpoints is |
| Reachability.Scan | src/meshonator/discovery/service.py:45-69 | found endpoints are marked reachable and keep their failure counter, new ones are added, others are untouched; the scan fails and changes nothing exactly when an unknown endpoint is found twice |
| Visibility.CollectRow | src/meshonator/api/app.py:1026-1077 | one station's managed and unmanaged neighbours and the ids it sees |
| Visibility.ManagedIds | src/meshonator/api/app.py:1021-1024 | the managed ids are the non-empty station ids |
| Visibility.BuildSnapshot | src/meshonator/api/app.py:1018-1170 | the double loop computes the snapshot |
| Visibility.ClassifyRow | src/meshonator/api/app.py:1084-1142 | one row's turn: pairs, one-way edges and the row's counts |
| Visibility.EdgesAreSightings | src/meshonator/api/app.py:1034-1093 | edges and returned edges are exactly the sightings and mutual sightings |
| Visibility.PairsAreExact | src/meshonator/api/app.py:1089-1133 | mutual pairs are exactly the pairs that see each other, each once; one-way pairs are exactly the unreturned sightings |
| Visibility.RowsCountCandidates | src/meshonator/api/app.py:1034-1142 | each row counts its candidates one by one: those that name a managed station, the favorites among them, those that name none, and those whose station sees it back |
| Visibility.PairsAreHalf | src/meshonator/api/app.py:1096-1098 | a symmetric edge list has twice as many entries as pairs exactly when it repeats none |
| Visibility.Handshake | src/meshonator/api/app.py:1135-1169 | directed links are mutual peers plus one-way pairs, and mutual peers are at least twice the mutual pairs, with equality exactly without repeats |
| Visibility.LinksAddUpIff | src/meshonator/api/app.py:1158-1169 | links equal twice the mutual pairs plus the one-way pairs if and only if no row lists a mutual peer twice |
| Favorites.CollectSeen | src/meshonator/api/app.py:973-991 | the loops collect exactly the trimmed ids of allowed direct neighbours |
| Favorites.CollectCurrent | src/meshonator/api/app.py:994-1015 | the loops collect exactly the trimmed ids of current favorites with an allowed role |
| Favorites.Refresh | src/meshonator/api/app.py:2609-2623 | the two target lists, sorted: the trimmed ids of direct neighbours with an allowed role within the hop limit, and on request the favorites with an allowed role that are not among them |
| Favorites.DisjointWritesCommute | src/meshonator/jobs/queue.py:139-160 | setting and removing writes about different targets give the same favorites in any interleaving, whichever of them take effect |
| Favorites.RefreshOutcome | src/meshonator/api/app.py:2623-2647 | what every device ends with, for any interleaving of the two jobs |
| Favorites.OnlySelfFavoritesStayStale | src/meshonator/api/app.py:2609-2649 | after the jobs and a sync a target is still stale exactly when some source favorites itself under it |
| Favorites.RefreshConvergesIff | src/meshonator/api/app.py:2609-2649 | a second refresh finds nothing stale if and only if no source favorites itself unseen |
| Favorites.SecondRefreshIsIdle | src/meshonator/api/app.py:2609-2649 | a second refresh changes no device in any interleaving |
| Inventory.InventoryService.UpsertNodes | src/meshonator/inventory/service.py:19-101 | the loop, its flushes and its commit leave the tables the specification gives |
| Inventory.InventoryService.PlaceReport | src/meshonator/inventory/service.py:23-76 | own row, else provisional row of the endpoint, else a new flushed row; queries see only flushed rows |
| Inventory.InventoryService.LinkNode | src/meshonator/inventory/service.py:78-96 | the endpoint link is refreshed or added |
| Inventory.OneReportOneRow | src/meshonator/inventory/service.py:23-76 | a reported node ends in exactly one row, the table grows only when it had none and could take none over, no other row changes, and the key of the table holds |
| Inventory.TakerIs | src/meshonator/inventory/service.py:23-58 | the row that takes a report is its own; else, unless the id is `local-unknown`, a legacy row of the endpoint, `local-unknown` before any other; else a new row, first seen when the report says so or now |
| Inventory.OneReportOneLink | src/meshonator/inventory/service.py:78-96 | that row is linked to the endpoint, every node stays linked to an endpoint at most once, and the exact growth of the link table |
| Inventory.OtherLinksStay | src/meshonator/inventory/service.py:78-96 | every link of another node or endpoint is untouched |
| Inventory.IdentitiesLast | src/meshonator/inventory/service.py:19-101 | over any run of calls, each for one node or a list of real ids, the key of the node table holds and a row with a real id keeps provider, id and first-seen time |
| Inventory.ReportedNodesStay | src/meshonator/inventory/service.py:19-101 | a node that a call left in the table under a real id, as a call for one node always does, is there after any further calls |
| Inventory.OneHeirForAll | src/meshonator/inventory/service.py:29-50 | with a provisional row at the endpoint all nodes without a row are written over that same row, which ends with the id of the last |
| Inventory.OneRowForEach | src/meshonator/inventory/service.py:51-58 | without one each id without a row gets one new row, however often it is repeated |
| Inventory.ListKeptIff | src/meshonator/inventory/service.py:19-101 | for every list of real ids, repeated or not: each has a row afterwards if and only if there is no provisional row to take or at most one id lacks a row |
| Inventory.ReturnedRows | src/meshonator/inventory/service.py:19-101 | the call returns for each report in turn the row that carries its id, or with a legacy row to take the report's own row or that one |
| Inventory.SecondOverwritesFirst | src/meshonator/inventory/service.py:29-50 | two new nodes and one provisional row: the first node is lost |
| Inventory.ListsKeepIdentities | src/meshonator/inventory/service.py:19-101 | for every such list the key of the node table holds afterwards, real identities are kept, and the exact growth of the table |
| Inventory.ListSoundIff | src/meshonator/inventory/service.py:78-96 | links stay single if and only if no report repeats an id whose row was not linked to the endpoint, with no row created since the id was first reported |
| Inventory.RepeatedIdLinksTwice | src/meshonator/inventory/service.py:78-96 | two reports under one id, from empty tables: one node row and two equal links |
| Inventory.SoundOverRuns | src/meshonator/inventory/service.py:19-101 | over any run of calls for one node or for lists of real ids without repetition the tables stay sound, links included |

## Left out

- Merging.MergeDict: whether the result shares subtrees with its arguments; only the version in jobs/queue.py copies deeply.
- Channels.MergeChannels: the sibling merges at src/meshonator/api/app.py:610 and src/meshonator/jobs/queue.py:576 are not modelled. They merge rows in the same way, but pass over rows of the current list that have no index.
- Comparing.CompareNamesDiffs: below an empty key at the top of both trees the comparator starts its dotted names afresh; the theorems on key lists hold there, this one does not speak of it.
- Comparing.ReportedPathsSplit: keys that contain a dot make a dotted path ambiguous; it speaks of keys without one.
- Device.Message.Assign: the final value is stated when no two keys of one dictionary differ only in `-` and `_`; otherwise the later one wins, and the keys of a device patch have no order here. Protobuf messages, which take `ParseDict` instead, are not part of this model.
- Device.Message.AssignOne: has the same condition, and an attribute that refuses an assignment, whose exception the source swallows, is not modelled.
- Device.ApplySections: the order in which it reports the sections is that of the patch's keys, which are a set here.
- Device.LocalNode.Write: owner names, fixed position, channels and the `writeConfig` call itself go to the radio and are not part of this model, nor is a connection without a local node.
- Device.NodeRow.ApplyPatch: time stamps, the audit record, an unknown node id and a provider error in the middle of the write are left out.
- Cloning.ProtectedStays: a source whose `device` is no dictionary replaces the target's `device` as a whole, and its role with it.
- Cloning.CloneConverges: module sections, channels, role column and favorite flag, which a clone carries over as well, are left out.
- Cloning.AlignmentConverges: the two suffix patterns for channel settings are not among the exact paths.
- Cloning.AlignmentConvergesByName: speaks of keys that are not empty and contain no dot.
- Editor.RowsHoldTheirLeaves: a repeated field's value is kept as a list; the source shows its JSON text. Labels and the lists of enum options are left out.
- Editor.EditorRoundTrip: the coercion of submitted text by kind, the trimming of posted paths and the channel scopes are left out; values are arbitrary.
- Jobs.JobsService.Candidates: the twenty-first of several jobs with one creation time may be any of them.
- Protocol.AtMostOnce: concerns workers; a process that runs jobs inline does not claim.
- Protocol.OthersMadeProgress: assumes no recovery step and that only claimed jobs are started or finished, as the workers do.
- Runners.RunBulkNodeDb: payload entries that are no strings, which the source skips, and the wording of the evidence messages.
- Runners.RunJob: a recovery pass on the same job during the run is excluded, as are a database error while evidence is written and a payload that is no dictionary.
- Reachability.Scan: works on values; target expansion and the scan itself are input.
- Reachability.Refresh: the time stamps of matching node links are left out.
- Visibility.BuildSnapshot: takes the stations in the order given and leaves out the display columns and the final sorting; how candidates are read from metadata is input.
- Favorites.OnlySelfFavoritesStayStale: assumes that every write takes effect and that the sync finds nothing changed but the favorites.
- Inventory.InventoryService.UpsertNodes: one provider per call; whether `like` is case-sensitive depends on the database and is taken as exact.
- Inventory.ListKeptIff: lists of several nodes with a provisional id among them; Meshtastic, the one provider that makes such ids, reports a single node.
- Inventory.ListSoundIff: says nothing about such lists either.
- Python's equality of booleans, integers and floats, and NaN, are not modelled.
- HTTP routes, templates, login, browser sessions, schema migrations, heartbeat files, node labels and map drawing.
- The form-to-patch builders, which copy fields, and the location ring, which is trigonometry.
- Group membership and target expansion, which are set operations of the database and of `ipaddress`.

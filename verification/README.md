# A verified model of the runtime core

This Dafny project models six parts of the repository and proves what they promise:

- the append-only JSONL event log, the thread state machine replayed from it, and the live handle that
  checks an event on a clone, persists it and commits (`EventLog`, `Threads`, `ThreadHistory`,
  `ThreadLatest`, `ThreadHandles`, `ThreadRuns`, `JsonCodec`);
- the bounded-concurrency task scheduler (`Scheduler`);
- checkpoint snapshot, restore plan and restore (`Checkpoint`, `RestorePlan`, `Restore`,
  `CheckpointRoundTrip`, with the walk and secret rules in `CheckpointPaths`);
- the file-backed key/value store (`StorageKeys`, `Storage`, `StorageListing`);
- the exec policy and the expansion of its pattern rules (`ExecPolicy`, `ExecPolicyParser`);
- multi-edit replacement (`EditReplace`), name sanitising (`Names`) and sandboxed path resolution
  against its preview (`Canonicalize`, `Sandbox`).

`FileTree` is the directory tree that the checkpoint, storage and sandbox modules share, `FileOps` its
single operations, of which the steps of a restore or a put are made; `Basics` and `Text` hold common
types and string operations. Check everything with `dafny verify dfyconfig.toml`.

Code that updates state in place is a class whose methods are proved against a function of the old
state; the theorems are then about that function. Loops over entries whose order the operating system
or a hash set decides pick freely, so the results hold for every order.

## What turned out not to hold

- **A cleared tool list comes back.** `ThreadConfigUpdated.allowed_tools` is an option of an option,
  and a cleared list (`Some(None)`) is written as `null`, which is read back as an absent field. The live
  state clears the list; the next replay of the same log restores it. `ThreadRuns.ToolListSurvivesExactly`
  gives the exact condition on the log, `ThreadRuns.ClearedToolListComesBack` a concrete run. Elsewhere the
  model keeps the difference apart, so the rest of the state is proved equal. Only callers in the same process
  reach this: over JSON-RPC the parameter has the same type (`crates/app-server-protocol/src/lib/thread.rs:1273-1275`)
  and loses the clear when it is decoded, before `ThreadHandle::append` sees an event.
- **The torn-tail cut can remove the wrong bytes.** The repair subtracts the length of the first
  undecodable piece from the end of the file, which is right if and only if that piece is the last
  (`EventLog.RepairExact`); `EventLog.RepairCanMissTheTear` is a file it spoils. Appends and crashes never
  produce such a file (`EventLog.LogRunsRecover`).
- **Adding an exec rule can relax a decision**, in exactly one case: no rule matched the command before
  and the new rule is more permissive than the heuristics (`ExecPolicy.NewRuleRelaxes`);
  `ExecPolicy.AddingARuleRelaxes` is a rule and a command.
- **A restore is not the identity on an unedited workspace** that holds a file over the size limit: the
  snapshot skips the file and the restore deletes it (`CheckpointRoundTrip.RestoringAtOnce`, with the
  workspace `CheckpointRoundTrip.RestoreLosesAFile`), as the repository's own tests expect.
- **The globs a checkpoint reports as ignored** include `**/.env.*`, `**/.env_*` and `**/.env-*`, but environment
  examples and templates with such names are kept in snapshots; no other visible path matches any of the globs
  (`CheckpointPaths.VisibleYetGlobbed`, with `CheckpointPaths.EnvExampleIsKept`). The model follows the code.
- **A path that ends in `/.` resolves even when it leads to a file**, where a lookup would fail, because `.` is
  dropped first (`Sandbox.WalkWithoutCurDir` says exactly when the two differ).
- **A key and a key below its file name exclude each other** in the store (`k` and `k.json/x`): the
  second put is refused (`Storage.SecondPutIsRefused`). Two keys clash if and only if one begins with the
  other followed by `.json/` (`Storage.ClashOnKeys`), and without a clash the store is a map
  (`Storage.StoreRefinesMap`).

## Model

| member | source | states |
|---|---|---|
| EventLog.LogRunsRecover | crates/eventlog/src/lib.rs:36-120 | After any sequence of openings, interrupted openings, appends, crashes at any byte and closes, the file is recoverable and holds exactly the committed events |
| EventLog.LogStepRecovers | crates/eventlog/src/lib.rs:36-120 | Every single step of such a run keeps that |
| EventLog.CrashRecovery | crates/eventlog/src/lib.rs:249-356 | Cut an append at any byte: reopening yields every committed event in order, plus the one in flight exactly when all its JSON bytes landed; what is left is newline-ended records and the next number is the count plus one |
| EventLog.RecoverReachable | crates/eventlog/src/lib.rs:66-87 | The same for every log that appends and crashes can leave |
| EventLog.ReadersAgreeWithRecovery | crates/eventlog/src/lib.rs:123-310 | On every reachable log, torn or not, recovery yields events numbered 1, 2, 3, ... of this thread; reading since `s` gives these without the first `s`, before and after the repair |
| EventLog.RepairExact | crates/eventlog/src/lib.rs:288-307 | For every file the repair accepts, rereading the repaired file gives the same events if and only if no undecodable piece has another piece after it |
| EventLog.RepairCanMissTheTear | crates/eventlog/src/lib.rs:289-291 | A file on which the cut, measured from the end, removes the wrong piece: the repaired log is rejected afterwards |
| EventLog.SanitizeAndReadEvents | crates/eventlog/src/lib.rs:249-310 | The repairing reader returns the scanned events and leaves exactly the sanitised bytes; on an error the file is untouched |
| EventLog.ReadLines | crates/eventlog/src/lib.rs:259-296 | The line loop decides clean, torn or broken as the one scan all readers share, and finds the length to keep |
| EventLog.EnsureJsonlRecordBoundary | crates/eventlog/src/lib.rs:312-356 | A newline is added exactly to a nonempty file that does not end in one |
| EventLog.ReadEventsSince | crates/eventlog/src/lib.rs:123-170 | The listing reader returns exactly the scanned events with a number above the given one, in order: they are numbered `since + 1`, `since + 2`, ... and as many as that leaves; or the scan's error |
| EventLog.ScanExact | crates/eventlog/src/lib.rs:140-165 | For every file: the nonempty pieces between newlines are the events 1, 2, 3, ... of this thread up to the first that is not; the file is torn there when the piece does not decode and no newline ends the file, otherwise the error names what is wrong with that piece |
| EventLog.OpenWithEvents | crates/eventlog/src/lib.rs:36-90 | Opening yields the recovered events, the repaired file and the next number |
| EventLog.EventLogWriter.Append | crates/eventlog/src/lib.rs:100-120 | One append adds one line and advances the number by one |
| JsonCodec.CodecIsLawful | crates/eventlog/src/lib.rs:109-114 | A concrete JSON text codec meets the three laws the log needs: round trip, no newline byte, no decodable proper prefix (RFC 8259, sections 4, 5 and 7) |
| JsonCodec.EventRoundTrip | crates/eventlog/src/lib.rs:109 | Decoding an encoded event gives the event back, up to what serialisation forgets |
| JsonCodec.EventPrefix | crates/eventlog/src/lib.rs:288-291 | No proper prefix of an encoded event decodes |
| JsonCodec.ParsePrint | crates/eventlog/src/lib.rs:109 | Parsing a printed JSON value gives the value and what follows it |
| JsonCodec.KindRoundTrip | crates/agent-protocol/src/lib.rs:523-702 | Every event kind survives writing and reading, a cleared tool list and a null usage excepted |
| Threads.ThreadState.Apply | crates/eventlog/src/lib.rs:444-645 | Applying in place is the state machine's step function; a failing event changes nothing |
| Threads.ThreadState.TrackThread | crates/eventlog/src/lib.rs:461-505 | Creation, prompt snapshot, archive and pause branches |
| Threads.ThreadState.TrackTurn | crates/eventlog/src/lib.rs:570-600 | The turn branches, with their three refusals |
| Threads.ThreadState.TrackActivity | crates/eventlog/src/lib.rs:601-640 | Approval, process and usage branches never fail |
| Threads.ThreadState.UpdateConfig | crates/eventlog/src/lib.rs:506-569 | Each setting is overridden, cleared or kept |
| Threads.ThreadState.RecordTokenUsage | crates/eventlog/src/lib.rs:647-690 | Usage is added with saturation, once for each response id, as the step function says, whose sums `ThreadHistory.TokenTotalsAreExact` gives |
| Threads.ReadState | crates/eventlog/src/lib.rs:172-218 | The folding reader returns the replay of the scanned events, or the first error in reading order |
| ThreadHistory.AcceptedLogs | crates/eventlog/src/lib.rs:444-645 | A log replays if and only if it is numbered without gaps for this thread, keeps the turn protocol and never changes its prompt; the turn and prompt fields are then what the last relevant events say |
| ThreadHistory.RefusalsExactly | crates/eventlog/src/lib.rs:444-600 | An event after an accepted log is refused if and only if it has one of seven causes in the history, and each error has its own |
| ThreadHistory.StartsAndCompletionsAlternate | crates/eventlog/src/lib.rs:570-600 | Between two starts lies the completion of the first one's turn, with no start or completion before it |
| ThreadHistory.CompletionsAndInterruptsFallInTheirTurn | crates/eventlog/src/lib.rs:579-600 | Every completion or interrupt falls inside the turn it names |
| ThreadHistory.TurnStillOpen | crates/eventlog/src/lib.rs:570-600 | The first boundary after a start is the completion of the same turn |
| ThreadHistory.ProcessesAndApprovals | crates/eventlog/src/lib.rs:601-625 | Running, pending and failed ids are determined by their latest events; running and failed are disjoint |
| ThreadHistory.TokenTotalsAreExact | crates/eventlog/src/lib.rs:647-704 | Each of the five counters is min(u64::MAX, the sum over the counted events of its field); for the total, a total not reported is input plus output, and nothing when both are there and their sum exceeds u64::MAX |
| ThreadHistory.CountedIds | crates/eventlog/src/lib.rs:666-672 | The remembered ids are the trimmed nonempty ids of the earlier countable events, agent steps and messages alike |
| ThreadLatest.SettingsFollowLatestUpdates | crates/eventlog/src/lib.rs:506-569 | Each of the twelve settings is what the latest update that mentions it says, a clear winning over a value, and has its initial value when none mentions it |
| ThreadLatest.MarksFollowLatestEvents | crates/eventlog/src/lib.rs:484-503 | The archived and paused marks, with time and reason, are what the latest marking event leaves |
| ThreadLatest.PlaceAndLastTurnFollowLatestEvents | crates/eventlog/src/lib.rs:461-600 | The directory is the latest creation's, the last turn the latest completed one with its outcome |
| ThreadLatest.ToolsFollowLatestEvents | crates/core/src/threads.rs:316-336 | A handle tracks a tool if and only if the tool was started and not completed since |
| ThreadHandles.ThreadHandle.OpenNew | crates/core/src/threads.rs:216-225 | A new handle has the initial state and an empty tracking |
| ThreadHandles.ThreadHandle.Append | crates/core/src/threads.rs:263-297 | The redacted event is checked on a clone, written, then committed; a rejected one changes neither log nor handle |
| ThreadHandles.ThreadHandle.EventsSince | crates/core/src/threads.rs:299-301 | The handle lists exactly the events with a number above the given one, in order |
| ThreadHandles.ThreadHandle.TakeActiveProcessIds | crates/core/src/threads.rs:307-313 | Draining returns the tracked processes, leaves none tracked, and removes exactly them from the running ones |
| ThreadHandles.ApplyRuntimeEventTracking | crates/core/src/threads.rs:316-336 | Starts are added to and ends removed from the tracked processes and tools |
| ThreadHandles.ReplayEvents | crates/core/src/threads.rs:230-236 | The opening loop folds state and tracking over the log, or stops at the first refused event |
| ThreadHandles.OpenExisting | crates/core/src/threads.rs:227-245 | Opening recovers the log and yields the replayed handle |
| ThreadRuns.LiveStateRefinesReplay | crates/core/src/threads.rs:227-313 | In every run of appends, drains, crashes, closes and reopenings no opening fails and the live state is the replay of the log, up to the two timestamps, the drained processes and a cleared tool list; the next number is the last plus one |
| ThreadRuns.StepKeepsConsistent | crates/core/src/threads.rs:227-313 | Each step of a run keeps live state and log together |
| ThreadRuns.ReadersSeeTheRun | crates/eventlog/src/lib.rs:123-218 | Whatever a run leaves, the folding reader, the listing reader and a reopening see the same surviving events, numbered from one, the listing reader without the first `since`, repaired or not |
| ThreadRuns.ToolListSurvivesExactly | crates/agent-protocol/src/lib.rs:618-619 | Live configuration equals replayed configuration if and only if the last accepted tool-list update was not a clear, or no event written to the log sets a list |
| ThreadRuns.ReplayedToolList | crates/agent-protocol/src/lib.rs:618-619 | The replay of a log has a tool list if and only if some event written to it sets one; a clear does not count |
| ThreadRuns.ClearedToolListComesBack | crates/core/src/threads.rs:263-297 | A concrete run of a thread handle: set the tool list, clear it, reopen, and the list is back |
| ThreadRuns.ToolListOnDisk | crates/agent-protocol/src/lib.rs:618-619 | The stored form of a clear leaves the earlier list in force |
| Scheduler.RunTasks | crates/core/src/orchestrator.rs:402-595 | For every completion order and every mix of outcomes slot i holds what the coder returned for task i, or after an error or a panic a request under the id of task i with status failed, no head commit, the session's base branch, the branch `ai/<pr>/<session>/<task>/failed` and checks that record the error; no error exit is taken; the schedule is complete under the limit max(1, max_concurrency) |
| Scheduler.ScheduleFacts | crates/core/src/orchestrator.rs:480-584 | In a complete schedule every task is spawned and joined exactly once, spawned first, never more than the limit in flight, and the scheduler waits only when every slot is taken or every unfinished task is in flight |
| Scheduler.AwaitOne | crates/core/src/orchestrator.rs:500-571 | One join frees a place, settles one slot and keeps the loop invariant; the join set is not empty and the metadata is known |
| Scheduler.JobResult | crates/core/src/orchestrator.rs:507-562 | The same for one joined job; a panicked task is found by its metadata, and its error text begins with `task join error: ` |
| Scheduler.Refill | crates/core/src/orchestrator.rs:488-498 | Refilling stops only when every slot is taken or no task is left; unstarted plus in-flight tasks stay as many |
| Scheduler.SpawnTaskJob | crates/core/src/orchestrator.rs:435-469 | A spawn enters one job under a new id and records its index and task id |
| Scheduler.JoinSet.JoinNext | crates/core/src/orchestrator.rs:501-504 | Any live job may end next; there is none exactly when the set is empty |
| Scheduler.Collect | crates/core/src/orchestrator.rs:586-594 | The final pass finds a result in every slot |
| Checkpoint.SnapshotWorkspaceToDir | crates/checkpoint-runtime/src/lib.rs:68-143 | A snapshot succeeds exactly when the kept files fit the limit, in any walk order, and no older file of the directory is above or below one; it then has added exactly those; each walked file is counted once as kept, oversize or secret and the size is the sum of the copied ones; a refusal has its cause |
| Checkpoint.SnapshotOne | crates/checkpoint-runtime/src/lib.rs:92-139 | One entry: link, directory, secret, oversize or copied, with the two size errors and the refused copy |
| Checkpoint.FilesAreCountedOnce | crates/checkpoint-runtime/src/lib.rs:96-118 | The three counts add up to the regular files walked |
| Checkpoint.KeptExactly | crates/checkpoint-runtime/src/lib.rs:92-139 | A snapshot keeps exactly the visible files of at most the maximal size, as they are |
| CheckpointPaths.WalkedExactly | crates/fs-policy/src/lib.rs:64-95 | The walk reaches a path exactly when none of the directories above it has one of the ignored names, or a data name below `.omne_data` or `omne_data` |
| CheckpointPaths.SecretExactly | crates/checkpoint-runtime/src/lib.rs:383-403 | A path is secret exactly for a `.ssh`, `.aws` or `.kube` component, or a name that is `.envrc`, ends in `.pem` or `.key`, or is an environment file other than an example or a template |
| CheckpointPaths.VisibleYetGlobbed | crates/checkpoint-runtime/src/lib.rs:43-67 | Of the paths a checkpoint sees, exactly the environment examples and templates match one of the globs it reports as ignored |
| CheckpointPaths.EnvExampleIsKept | crates/checkpoint-runtime/src/lib.rs:58 | `.env.example` matches the glob for `.env.*` and is kept |
| RestorePlan.ComputeRestorePlanDetails | crates/checkpoint-runtime/src/lib.rs:161-268 | The plan lists exactly the created, deleted and modified paths, each once; creations before deletions before modifications, and in each group the strings of the paths ascend, each before the later ones at their first difference; and counts them |
| RestorePlan.PathStringExactly | crates/checkpoint-runtime/src/lib.rs:186 | The strings compared hold the names of a path between slashes, so no two paths share one |
| RestorePlan.CountChanges | crates/checkpoint-runtime/src/lib.rs:255-262 | The counting loop agrees with the list |
| Restore.EnsureRestorePathIsSymlinkFree | crates/checkpoint-runtime/src/lib.rs:345-365 | The component loop refuses exactly the paths with a link on the way or a file above, and tells the two apart |
| Restore.RestoreOne | crates/checkpoint-runtime/src/lib.rs:328-337 | One copy succeeds exactly when its place can hold a file; otherwise it changes nothing and says whether a link, a file above or a directory in the place is the reason; it goes by single operations, making the missing directories from the top down and then writing the file |
| Restore.RestoreWorkspaceFromSnapshot | crates/checkpoint-runtime/src/lib.rs:270-343 | A restore succeeds exactly when the tree is restorable and then leaves `Restored`; one that stops has deleted what the snapshot lacks, copied some files, and met one without a place; from the old tree to the one it ends with consecutive trees are one operation apart (a file removed, a directory made, a file written), and each is one `Underway` describes |
| Restore.OldOrTarget | crates/checkpoint-runtime/src/lib.rs:314-335 | In every tree `Underway` describes each visible file has its old or its target content, every secret, ignored entry, link and directory is as it was, and new entries that are no visible file are directories |
| Restore.EveryStepOldOrTarget | crates/checkpoint-runtime/src/lib.rs:314-335 | The same for the k-th tree of every run, finished or stopped |
| FileOps.MakeDirs | crates/checkpoint-runtime/src/lib.rs:331-334 | Making a directory and those above it: from the top down, each missing one by one operation, or nothing when something else is in the way |
| Restore.RestoredFiles | crates/checkpoint-runtime/src/lib.rs:314-335 | Afterwards the visible files are exactly the snapshot |
| CheckpointRoundTrip.RestorePerformsItsPlan | crates/checkpoint-runtime/src/lib.rs:215-335 | Executing the planned list change by change, deletions first, goes through if and only if the tree is restorable, and gives the tree the restore gives |
| CheckpointRoundTrip.RoundTrip | crates/checkpoint-runtime/src/lib.rs:68-367 | Snapshot, any edits of visible files, restore: it succeeds, the visible files are those kept, and the plan afterwards is empty |
| CheckpointRoundTrip.EmptyPlan | crates/checkpoint-runtime/src/lib.rs:367-381 | Between equal contents the plan lists exactly the files over the limit |
| CheckpointRoundTrip.RestoringAtOnce | crates/checkpoint-runtime/src/lib.rs:111-115 | Restoring with no edit in between changes nothing if and only if no walked file is over the limit |
| CheckpointRoundTrip.RestoreLosesAFile | crates/checkpoint-runtime/src/lib.rs:111-115 | A tree of one file over the limit: its snapshot is empty, and restoring it leaves the empty tree |
| StorageKeys.KeyToPath | crates/core/src/storage.rs:130-149 | A key is refused exactly for an empty, `.`, `..` or backslash segment; otherwise its segments are the path, `.json` added to the last |
| StorageKeys.KeyRoundTrip | crates/core/src/storage.rs:151-161 | The key is read back from its path |
| StorageKeys.KeysHaveTheirOwnFiles | crates/core/src/storage.rs:130-161 | No two keys share a file |
| StorageKeys.PathRoundTrip | crates/core/src/storage.rs:151-161 | A path that names a key is the path of the key it reads back as |
| StorageKeys.JsonStemExactly | crates/core/src/storage.rs:174 | A file is listed when `json` is what follows the last dot of its name and something precedes that dot |
| Storage.FsStorage.PutJson | crates/core/src/storage.rs:228-247 | A put goes through exactly when only directories are above its file and no directory is at it; a refused one leaves the tree as it was and says which of the three faults it met; from the old tree to the new one, refused or not, consecutive trees are one operation apart, and each is one a crash may leave |
| Storage.FsStorage.WriteAndRename | crates/core/src/storage.rs:236-246 | Three trees: before, with the temporary file, and with that file renamed over the target, or removed when the target is a directory |
| Storage.TempIsOwn | crates/core/src/storage.rs:236 | No two puts share a temporary file, and none is the file of a key |
| Storage.FsStorage.GetJson | crates/core/src/storage.rs:249-259 | The stored value, nothing when the place is free, an error when a file or directory is in the way |
| Storage.CrashLeavesOldOrNew | crates/core/src/storage.rs:236-246 | However far a put came, every key has its old value or, for the key put, the new one |
| Storage.StoreSurvivesCrashes | crates/core/src/storage.rs:228-259 | Over any run of finished, refused and interrupted puts every key has the last value put or that of a put interrupted since, and the tree stays one the store can use |
| Storage.PlacedStores | crates/core/src/storage.rs:228-247 | A finished put changes the value of its key and of no other |
| Storage.StoreRefinesMap | crates/core/src/storage.rs:228-259 | A run of puts all goes through if and only if no key clashes with another, and then every key reads as the last value put |
| Storage.ClashOnKeys | crates/core/src/storage.rs:130-149 | Two keys clash if and only if one begins with the other followed by `.json/` |
| Storage.SecondPutIsRefused | crates/core/src/storage.rs:130-149 | After a put on `k` the put on `k.json/x` is refused |
| StorageListing.ListJsonFiles | crates/core/src/storage.rs:163-180 | The stack walk terminates and finds every `.json` file below the start exactly once |
| StorageListing.ListPrefix | crates/core/src/storage.rs:261-289 | Exactly the keys of the `.json` files strictly below the prefix, whatever else the tree holds, each before the next at their first differing character; where only puts have written these are the stored keys that strictly extend the prefix; a `.`, `..` or backslash segment and a prefix below a file are errors |
| Text.PrecedesExactly | crates/core/src/storage.rs:287 | The comparison behind that order: up to some index the strings are the same, and there the first ends or has the smaller character |
| StorageListing.PrefixDir | crates/core/src/storage.rs:262-274 | Empty segments are skipped, `.`, `..` and backslashes refused |
| StorageListing.EmptyIsSkipped | crates/core/src/storage.rs:263-266 | Each empty segment is skipped and every other one kept in its place |
| ExecPolicy.MatchesPrefix | crates/execpolicy/src/rule.rs:39-52 | The early-return loop accepts exactly the commands whose positions the pattern accepts, and returns the matched prefix |
| ExecPolicy.EachRuleInItsPlace | crates/execpolicy/src/policy.rs:90-105 | Each rule contributes, in its place among all rules, exactly the words its positions accept, with its decision and justification, or nothing |
| ExecPolicy.IndexAgreesWithScan | crates/execpolicy/src/policy.rs:90-97 | The bucket of the program gives the same matches in the same order as scanning all rules in insertion order |
| ExecPolicy.Policy.AddRule | crates/execpolicy/src/policy.rs:28-33 | Adding appends to the insertion order and keeps every bucket in that order |
| ExecPolicy.Policy.AddPrefixRule | crates/execpolicy/src/policy.rs:35-55 | A literal prefix becomes a rule that accepts exactly the commands it begins; the empty prefix is refused |
| ExecPolicy.Policy.MatchesForCommand | crates/execpolicy/src/policy.rs:85-109 | The matches of a linear scan, or the heuristics when there are none |
| ExecPolicy.FromMatches | crates/execpolicy/src/policy.rs:120-133 | The strictest decision of the matches, `Prompt` when there is none |
| ExecPolicy.DecidesExactly | crates/execpolicy/src/policy.rs:120-133 | Forbidden when some match forbids, else strict prompting when some match asks for it, else prompting when some match does or there is none, else allowing |
| ExecPolicy.Policy.Check | crates/execpolicy/src/policy.rs:57-63 | A command is decided by its strictest match |
| ExecPolicy.Policy.CheckMultiple | crates/execpolicy/src/policy.rs:65-81 | Several commands are decided by the strictest of all their matches |
| ExecPolicy.StrictestCommandDecides | crates/execpolicy/src/policy.rs:65-81 | That is the strictest of the single-command decisions |
| ExecPolicy.NewRuleRelaxes | crates/execpolicy/src/policy.rs:85-132 | Adding a rule lowers the decision on a command if and only if no rule matched it before, the new one does, and it is more permissive than the heuristics; never when some rule already matched |
| ExecPolicy.AddingARuleRelaxes | crates/execpolicy/src/policy.rs:85-132 | With heuristics that forbid everything, adding the rule that allows `ls` turns the decision on `ls` from `Forbidden` to `Allow` |
| ExecPolicyParser.ParsePatternToken | crates/execpolicy/src/parser.rs:100-133 | A token accepts exactly the string or the listed strings; an empty or mixed list is refused |
| ExecPolicyParser.ParsePattern | crates/execpolicy/src/parser.rs:87-98 | A pattern parses when it is not empty and all its positions do |
| ExecPolicyParser.ExpansionPreservesMeaning | crates/execpolicy/src/parser.rs:238-257 | The rules made of a pattern, one for each alternative of its head, accept exactly the commands every position of the pattern accepts |
| ExecPolicyParser.RulesMatchWhatIsWritten | crates/execpolicy/src/parser.rs:87-133 | The rules made of a written pattern accept exactly the commands that begin with words its strings and lists stand for |
| ExecPolicyParser.ParseDecisionExactly | crates/execpolicy/src/decision.rs:16-24 | Which word stands for which decision; any other word for none |
| ExecPolicyParser.ValidateMatchExamples | crates/execpolicy/src/rule.rs:110-132 | Fails with exactly the examples that no rule accepts, in the order given |
| ExecPolicyParser.ValidateNotMatchExamples | crates/execpolicy/src/rule.rs:134-149 | Fails on the first example that some rule accepts, with the first rule that does |
| ExecPolicyParser.DeclarePrefixRule | crates/execpolicy/src/parser.rs:206-264 | A call adds the expansion if and only if its arguments parse and its examples agree with the pattern; the rules added match what is written, with the decision named (allowing when none is) and the justification given; otherwise it adds nothing and reports the first fault in the order of the code |
| ExecPolicyParser.ExamplesHoldInTheEnd | crates/execpolicy/src/parser.rs:259-262 | Whatever rules surround it, each match example keeps a match and is decided at least as strictly as asked, and no not-match example matches a rule of the call |
| EditReplace.CountNonOverlapping | crates/fs-runtime/src/lib.rs:558-570 | The loop counts the leftmost non-overlapping occurrences, none for the empty needle |
| EditReplace.FindsWhatIsThere | crates/fs-runtime/src/lib.rs:563-569 | A text around the needle contains it, no later than there, and what is found is the needle with text around it |
| EditReplace.CountIsMaximal | crates/fs-runtime/src/lib.rs:563-569 | No choice of disjoint occurrences has more of them |
| EditReplace.PiecesAreLeftmost | crates/fs-runtime/src/lib.rs:563-569 | The text is cut where the needle first occurs, again and again |
| EditReplace.LeftmostIsUnique | crates/fs-runtime/src/lib.rs:563-569 | There is only one leftmost way to cut a text |
| EditReplace.PiecesJoin | crates/fs-runtime/src/lib.rs:563-569 | Cutting loses nothing |
| EditReplace.Replacen | crates/fs-runtime/src/lib.rs:490 | Replacing the counted number of times puts the new text at every cut |
| EditReplace.ReplacingChanges | crates/fs-runtime/src/lib.rs:486-490 | One edit leaves the text as it was if and only if nothing occurs or new and old text are the same |
| EditReplace.EditReplaceWorkspace | crates/fs-runtime/src/lib.rs:429-516 | On success the file holds the last of a sequence of texts: each edit finds its old text as often as it asks, once by default, and puts its new text there; `replacements` is the sum, `changed` is whether some edit has a different new text, and false means identical. On any error the file is untouched, and each error has its cause, the first mismatch with its two numbers |
| EditReplace.EditedLength | crates/fs-runtime/src/lib.rs:475-491 | The final size in bytes is the initial one plus expected times growth of every edit |
| Names.ValidateNameWith | crates/core/src/domain.rs:128-147 | Accepts exactly the nonempty names of at most 64 bytes in the set other than `.` and `..`; each error has its own exact cause |
| Names.SanitizeNameWith | crates/core/src/domain.rs:149-186 | The flag-driven loop and the trimming compute the specified name |
| Names.SanitizedNames | crates/core/src/domain.rs:149-220 | For every name type and input the result is valid, has no dash at an edge and no two in a row, and sanitises to itself |
| Names.NamesAreWords | crates/core/src/domain.rs:149-186 | For every name type and input: the words of the input, lower-case runs of allowed characters between dashes, joined by single dashes and cut to 64 characters or to 63 where the cut leaves a dash; `repo`, `pr` or `task` exactly when nothing or only dots are left |
| Names.AllowedExactly | crates/core/src/domain.rs:120-126 | The characters of each name type |
| Canonicalize.CanonicalizeNonexistentPath | crates/core/src/sandbox.rs:397-429 | The loop terminates with the specified extension of an existing prefix, or the specified error; a missing path that ends in `..` has no file name |
| Canonicalize.ExtendedIsLongest | crates/core/src/sandbox.rs:397-429 | It succeeds if and only if all beyond some existing prefix is simply missing and holds no `..`, and returns the canonical form of that longest prefix followed by the rest |
| Canonicalize.PrefixExists | crates/core/src/sandbox.rs:410-421 | Existence is closed under taking prefixes, links included |
| Canonicalize.LinkMeansTarget | crates/core/src/sandbox.rs:402 | A path through a link leads where the path through its target does, from the root or from the directory that holds the link, one link fewer left to follow |
| Sandbox.EnsureDirTreeNoSymlink | crates/core/src/sandbox.rs:431-472 | Succeeds exactly when only directories are in between, and then adds the missing ones and nothing else; a refusal makes nothing |
| Sandbox.StripCurDirComponents | crates/core/src/sandbox.rs:375-384 | The loop computes the components without `.` |
| Sandbox.CurDirIsDropped | crates/core/src/sandbox.rs:375-384 | Each `.` is dropped and every other component kept in its place |
| Sandbox.WalkWithoutCurDir | crates/core/src/sandbox.rs:375-384 | What the stripped components lead to is what the given ones lead to, except that `.` components at the end of a path to a file are not looked up |
| Sandbox.SelectRoot | crates/core/src/sandbox.rs:151-157 | The root selected is the longest allowed one above the candidate |
| Sandbox.ResolveFile | crates/core/src/sandbox.rs:46-115 | A read resolves exactly when `MayResolveRead` holds before, to where the lookup of the input ends, which is below the canonical root, and changes nothing. A write resolves exactly when the prior tree allows it, to the path of the input; that lies, links followed, below the canonical root and is no link; its missing parents are made with `create_parent_dirs`, and a refused write changes nothing |
| Sandbox.ExtendedThatExists | crates/core/src/sandbox.rs:397-429 | A path extended from a missing one is still missing: links with more budget do not reach it |
| Sandbox.PreviewFileForSandboxWrite | crates/core/src/sandbox.rs:269-300 | The preview computes the specified preview, with or without writable roots, refuses `..`, and always lies below the thread's root or, for an absolute path, below one of the writable roots |
| Sandbox.ResolveFileWithWritableRoots | crates/core/src/sandbox.rs:117-160 | The same for several writable roots: the longest one above the candidate decides a write, reads are decided by the thread's root alone |
| Sandbox.ResolveFileForSandbox | crates/core/src/sandbox.rs:236-267 | Outside full access: a write resolves exactly when `MayResolveForSandbox` holds before; it names the file of the input (its last name, in the directory where the lookup of what precedes it ends); the preview made before succeeds and names the same file, inside an allowed root. A read resolves exactly when `MayResolveRead` holds before, to where the lookup of the input ends, below the root |

## Left out

- Locks, permissions, sync and async calls, and I/O errors other than those of a missing, misplaced or refused path: file operations are atomic steps on bytes or trees, and one writer is alive at a time.
- A failed write on a live writer: it is a crash of that writer, followed by a reopening.
- Redaction (`crates/core/src/redaction.rs`): an arbitrary total function applied to the event kind before validation.
- The readable history file: best-effort side output whose errors are ignored.
- Sequence numbers are unbounded; the token counters are 64 bits wide and saturate.
- JsonCodec.CodecIsLawful: the concrete codec writes fields by position instead of by name and accepts no white space, because only the three laws matter to the log.
- Threads.ThreadState.Apply: the flat fields of the state are grouped into records and the branches of `apply` into three methods, because one method over all of them is too large to verify; branches and order are those of the code.
- Threads.ThreadState.TrackActivity: event kinds the state machine and the handle ignore are one kind `Other`, and fields they do not read are dropped.
- Scheduler.RunTasks: the job of a task is its outcome; events emitted on the way and the cancellation of the whole run are not modelled, and runtime task ids are unique among live jobs only.
- Checkpoint.SnapshotWorkspaceToDir: the snapshot directory is the files in it; directories left empty there and links in it are not modelled, nor are files that change during the walk.
- FileOps.MakeDirs: writing, copying and renaming a file are single operations; a copy cut short halfway is not modelled, a put's temporary file cut short is. A link above the directory to be made counts as something in the way.
- Restore.RestoreWorkspaceFromSnapshot: paths are lists of names; lossy conversion to text and special files are not modelled, and the order of deletions and copies is not fixed.
- Storage.FsStorage.PutJson: the tree holds no links; a UUID is a fresh name of 36 characters without a dot; two processes writing at once are not modelled.
- Storage.FsStorage.GetJson: the tree holds no links; values are printed and parsed by an arbitrary pair of functions that round-trips.
- StorageListing.ListPrefix: no link is on the way to the prefix directory; links below it are skipped, as in the source.
- ExecPolicyParser.DeclarePrefixRule: arguments arrive as parsed values; Starlark evaluation and shell splitting are an input and a parameter.
- Canonicalize.CanonicalizeNonexistentPath: thread roots and absolute inputs start at the file-system root; a lookup follows at most 40 links.
- Sandbox.ResolveFileForSandbox: full access, directory resolution and changes to the file system between preview and write are not modelled; permission errors do not occur, and which error a refused call reports is not stated.
- EditReplace.EditReplaceWorkspace: which contents may be written (size limit, secret rules) is a parameter.
- Globs, modes, roles, routing, model limits, hooks, git, the app server, the clients and the type exports: their claims follow from one branch or lie in code outside this model.

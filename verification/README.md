# ClaudeFlow core in Dafny

A model of ClaudeFlow's session orchestration. ClaudeFlow runs a three-level hierarchy of language-model sessions: a manager splits a project into components, supervisors split components into tasks, and workers carry out tasks. The model covers the following parts.

- The **session executor** (`Executor`, with its properties in `ExecutorProps`):
  - the registry of sessions;
  - the set of running sessions, bounded by a concurrency limit;
  - activation, execution, failure, pause, resume and stop;
  - the routing of pending messages;
  - the `.flow` directory it mirrors every change into.
- The **reply parsers** (`Parsers`): the line scanners that turn a manager's or supervisor's reply into child descriptors.
- The **`.flow` file manager** (`FlowFiles`). Session files and message files are maps keyed by id. It covers:
  - pending and processed message status;
  - the clean-up of old messages;
  - the session hierarchy;
  - export and import.
- The **session store** (`SessionStore`): the UI's map of sessions, with checked parent and child creation, per-task and per-step updates, and query filters. `SessionStore.Wf` is its invariant: parent links fit the session kinds, and parent and child lists agree both ways.
- The **workflow simulator** (`Simulator`): each timer callback is one transition on the store. This covers the worker step progress and the roll-up of completion from tasks to supervisors to the manager.
- The **settings store** (`Settings`): API-key validation, daily token accounting, partial-merge updates and the persisted (redacted) state.
- The **rate limiter** (`RateLimiter`): a 60 000 ms sliding window of integer millisecond timestamps, a per-day token cap and the wait-time computation.
- The **model client** (`ClaudeService`):
  - the rate-limit gate of `sendMessage` and `streamMessage`;
  - usage accounting and connection status;
  - extraction of the reply text;
  - framing of a streamed body into `data: ` lines.

Every asynchronous handler is one atomic transition. The clock (`now`), the calendar day (`today`), freshly drawn identifiers (`ids: nat -> string`, or explicit id parameters), the model's reply and the HTTP response are all parameters. Directory listings are parameters too. Errors the source throws are `Result.Failure` values, or the `thrown` field of `Simulator.Outcome`. `wrappers.dfy` (`Option`, `Result`) and `text.dfy` (`Split`, `Join`, `Trim`, decimal rendering) are supporting modules.

Where the code and the project's design description disagree, the model follows the code:

- The executor's concurrency limit is checked before the activation precondition, so at the limit even a manager is only reported queued (`ExecutorProps.ManagerQueuedAtLimit`).
- The executor never appends a created child to its parent's `childIds`. The manager's and supervisor's child lists are left as they were (`ExecutorProps.ManagerSucceeds`, `ExecutorProps.SupervisorSucceeds`), so the supervisor's worker monitor walks an empty list.
- The design says children created by the executor wait idle for their `task_assignment`. In the code, supervisors and workers are created already holding their work plan or request call. The recheck after the parent completes therefore starts them at once, unless the limit is reached (`ExecutorProps.ManagerChildren`).
- The simulator's progress divisions have no zero guard. A supervisor with no tasks completes at once and shows `NaN` (`Simulator.SupervisorRollupNoTasks`).
- The API-key check's comment promises keys of 95 or more characters, but the pattern accepts 93 (`Settings.ValidateApiKeyLength`).
- A stream that ends without `[DONE]` marks the connection up but never calls `onComplete`.
- Each `message_delta` adds the stream's running total, not the new tokens, to the day's usage (`ClaudeService.HandleLine`).

## Model

| member | source | states |
|---|---|---|
| Executor.MakeConfig | src/flow/services/sessionExecutor.ts:19-26 | a configured limit or polling interval wins over the defaults 5 and 1000 |
| Executor.Activate | src/flow/services/sessionExecutor.ts:70-95 | an unknown or running id is ignored; at the limit the session is queued whatever its kind; below it a session failing its precondition is not ready; otherwise it joins the running set (which then holds at most the limit) with status active, and nothing else changes |
| Executor.Resume | src/flow/services/sessionExecutor.ts:366-371 | resuming is exactly the activation gate |
| Executor.Pause | src/flow/services/sessionExecutor.ts:354-363 | a running session leaves the running set and becomes idle; any other id changes nothing |
| Executor.Stop | src/flow/services/sessionExecutor.ts:40-52 | polling stops; every registered running session is paused and idle, others are unchanged; an unregistered running id stays |
| Executor.RecheckOver | src/flow/services/sessionExecutor.ts:543-552 | a recheck never shrinks the running set and sends nothing |
| Executor.NewSupervisor | src/flow/services/sessionExecutor.ts:434-451 | a generated supervisor is idle, a child of the manager with no children, and already meets its activation precondition |
| Executor.NewWorker | src/flow/services/sessionExecutor.ts:466-487 | a generated worker is idle, a child of the supervisor, and already holds a request call with its drawn task id |
| Executor.Drawn | src/flow/services/sessionExecutor.ts:434-500 | n identifiers are drawn, one per spawned child |
| ExecutorProps.DrawnAt | src/flow/services/sessionExecutor.ts:434-500 | the j-th child's identifier is drawn at position start + j·stride: a supervisor draws two ids (session, message), a worker three (session, task, message) |
| Executor.SpawnSupervisors | src/flow/services/sessionExecutor.ts:177-180 | creating supervisors starts no session |
| Executor.SpawnWorkers | src/flow/services/sessionExecutor.ts:213-216 | creating workers starts no session |
| Executor.GetSession | src/flow/services/sessionExecutor.ts:555-557 | the registered session, or none exactly when the id is unknown |
| Executor.Lookup | src/flow/services/sessionExecutor.ts:560-562 | the listed registered sessions, every one of them and nothing else |
| ExecutorProps.LookupAppend | src/flow/services/sessionExecutor.ts:560-562 | looking up a concatenation of id lists is the concatenation of the lookups |
| ExecutorProps.LookupInOrder | src/flow/services/sessionExecutor.ts:560-562 | sessions come out in insertion order: one id gives its session when registered and nothing otherwise, and a list is looked up id after id |
| Executor.GetActiveSessions | src/flow/services/sessionExecutor.ts:565-567 | exactly the registered sessions of the running set |
| ExecutorProps.InitValid | src/flow/services/sessionExecutor.ts:13-26 | a new executor satisfies the invariant (ids listed once, keyed, running ⊆ registered, at most the limit running, files mirror memory) |
| ExecutorProps.PutValid | src/flow/services/sessionExecutor.ts:347-351 | writing a session keeps the invariant, adds at most its id, keeps the order of a known id and touches no message file |
| ExecutorProps.PutOrder | src/flow/services/sessionExecutor.ts:347-348 | the insertion order keeps listing each registered id exactly once |
| ExecutorProps.SendValid | src/flow/services/sessionExecutor.ts:290-294 | sending a message keeps the invariant |
| ExecutorProps.ActivateValid | src/flow/services/sessionExecutor.ts:70-95 | activation keeps the invariant, the registered ids, the order and the message files |
| ExecutorProps.CreateSessionValid | src/flow/services/sessionExecutor.ts:55-67 | creating a session keeps the invariant and registers exactly its id |
| ExecutorProps.RecheckOverValid | src/flow/services/sessionExecutor.ts:543-552 | a recheck keeps the invariant, the ids and the order |
| ExecutorProps.KeyedActivate | src/flow/services/sessionExecutor.ts:70-95 | activation keeps sessions keyed and changes no session it does not start |
| ExecutorProps.RecheckOverChanges | src/flow/services/sessionExecutor.ts:543-552 | the only sessions a recheck changes are idle, activatable ones it starts, and they change only in status |
| ExecutorProps.RecheckOverSettles | src/flow/services/sessionExecutor.ts:543-552 | after a recheck every id it walked is settled (not idle and stopped, or at the limit, or not ready), and settled ids stay settled |
| ExecutorProps.RecheckOverSettled | src/flow/services/sessionExecutor.ts:543-552 | a recheck over settled ids changes nothing |
| ExecutorProps.RecheckIdempotent | src/flow/services/sessionExecutor.ts:543-552 | checking queued sessions twice is checking once, so no running entry is duplicated |
| ExecutorProps.ActivateIdempotent | src/flow/services/sessionExecutor.ts:70-82 | a second activation changes nothing and reports the same refusal, or finds the session running |
| ExecutorProps.ManagerQueuedAtLimit | src/flow/services/sessionExecutor.ts:75-78 | at the limit a manager, which may always start, is queued and nothing changes |
| ExecutorProps.ActivateStarts | src/flow/services/sessionExecutor.ts:84-87 | below the limit a session meeting its precondition runs, is active, and its file says so |
| ExecutorProps.PauseThenResume | src/flow/services/sessionExecutor.ts:354-371 | pausing a running session frees a place, so resuming it starts it again |
| ExecutorProps.PauseValid | src/flow/services/sessionExecutor.ts:354-363 | pausing keeps the invariant |
| ExecutorProps.StopValid | src/flow/services/sessionExecutor.ts:40-52 | after stop nothing runs, every session that ran is idle, and the invariant holds |
| ExecutorProps.StopKeyed | src/flow/services/sessionExecutor.ts:46-49 | stop keeps sessions and session files keyed by their ids |
| ExecutorProps.StopMirrored | src/flow/services/sessionExecutor.ts:46-49 | after stop every session file still holds the in-memory session |
| ExecutorProps.SupervisorStep | src/flow/services/sessionExecutor.ts:434-464 | one supervisor is registered under its id, nothing starts, and exactly one task_assignment carrying its work plan is queued; the invariant is kept |
| ExecutorProps.WorkerStep | src/flow/services/sessionExecutor.ts:466-500 | one worker is registered under its id, nothing starts, and exactly one task_assignment carrying its request call is queued; the invariant is kept |
| ExecutorProps.SpawnSupervisorsValid | src/flow/services/sessionExecutor.ts:177-180 | creating the manager's supervisors keeps the invariant |
| ExecutorProps.SpawnWorkersValid | src/flow/services/sessionExecutor.ts:213-216 | creating the supervisor's workers keeps the invariant |
| ExecutorProps.SpawnSupervisorsEffect | src/flow/services/sessionExecutor.ts:177-180 | the supervisors registered and the assignments queued are exactly those of the independent reference definitions |
| ExecutorProps.SpawnWorkersEffect | src/flow/services/sessionExecutor.ts:213-216 | the workers registered and the assignments queued are exactly those of the independent reference definitions |
| ExecutorProps.SupervisorSessionsKeys | src/flow/services/sessionExecutor.ts:434-453 | the reference registry gains exactly the drawn ids and leaves every other session alone |
| ExecutorProps.SupervisorSessionsAt | src/flow/services/sessionExecutor.ts:434-453 | with distinct ids, the j-th drawn id holds the j-th descriptor's supervisor |
| ExecutorProps.WorkerSessionsKeys | src/flow/services/sessionExecutor.ts:466-489 | the reference registry gains exactly the drawn ids and leaves every other session alone |
| ExecutorProps.WorkerSessionsAt | src/flow/services/sessionExecutor.ts:466-489 | with distinct ids, the j-th drawn id holds the j-th descriptor's worker with the j-th drawn task id |
| ExecutorProps.SupervisorAssignmentsAt | src/flow/services/sessionExecutor.ts:455-463 | one assignment per supervisor, from the manager, under the id drawn after the supervisor's, carrying the work plan |
| ExecutorProps.WorkerAssignmentsAt | src/flow/services/sessionExecutor.ts:491-499 | one assignment per worker, from the supervisor, under the third id drawn for it, carrying its request call |
| ExecutorProps.CompleteFacts | src/flow/services/sessionExecutor.ts:132-140 | the session is written completed and leaves the running set; the recheck changes only idle sessions it starts and sends nothing |
| ExecutorProps.CompleteValid | src/flow/services/sessionExecutor.ts:132-140 | completion keeps the invariant |
| ExecutorProps.CompleteSettles | src/flow/services/sessionExecutor.ts:132-140 | after completion no session is left idle and startable while there is room |
| ExecutorProps.FailFacts | src/flow/services/sessionExecutor.ts:374-393 | on failure the status is error with the message, the id leaves the running set, nothing else changes, and exactly one error message goes to a parent with a non-empty id |
| ExecutorProps.FailValid | src/flow/services/sessionExecutor.ts:374-393 | failure handling keeps the invariant |
| ExecutorProps.ExecuteValid | src/flow/services/sessionExecutor.ts:118-145 | execution keeps the invariant whatever the reply |
| ExecutorProps.ExecuteFailsValid | src/flow/services/sessionExecutor.ts:92-94 | a failing manager or supervisor, or a worker without a call, keeps the invariant |
| ExecutorProps.ExecuteSpawnsValid | src/flow/services/sessionExecutor.ts:148-222 | a manager's or supervisor's successful execution keeps the invariant |
| ExecutorProps.ExecuteWorkerFailsValid | src/flow/services/sessionExecutor.ts:225-251 | a worker whose call fails keeps the invariant |
| ExecutorProps.ExecuteWorkerSucceedsValid | src/flow/services/sessionExecutor.ts:225-287 | a worker whose call succeeds keeps the invariant |
| ExecutorProps.ExecuteFailure | src/flow/services/sessionExecutor.ts:92-94 | a failed call, or a worker without a request call, ends in error with the message; a worker keeps the progress written before the call; the id leaves the running set; only a parent with a non-empty id is told |
| ExecutorProps.ExecuteWorkerSuccess | src/flow/services/sessionExecutor.ts:241-286 | a worker records the reply and the result {success true, output reply}, has three progress steps, completes, and sends one result message to its parent |
| ExecutorProps.CompleteStartsIdle | src/flow/services/sessionExecutor.ts:139-140 | after a completion each idle startable session is started (changing only its status) or still idle because the limit is reached |
| ExecutorProps.SpawnSupervisorsFresh | src/flow/services/sessionExecutor.ts:177-180 | with fresh ids the invariant holds, nothing starts, the manager is untouched, exactly the assignments are queued and each supervisor is registered as built |
| ExecutorProps.SpawnWorkersFresh | src/flow/services/sessionExecutor.ts:213-216 | with fresh ids the invariant holds, nothing starts, the supervisor is untouched, exactly the assignments are queued and each worker is registered as built |
| ExecutorProps.PutActivateValid | src/flow/services/sessionExecutor.ts:306-313 | writing a session and offering it for activation keeps the invariant, the ids and the message files |
| ExecutorProps.DispatchValid | src/flow/services/sessionExecutor.ts:304-330 | handling a message for a registered session keeps the invariant and the ids and touches no message file |
| ExecutorProps.RouteValid | src/flow/services/sessionExecutor.ts:300-334 | one message: the invariant holds; a registered destination gets its file marked processed; an unknown destination leaves everything, its file still pending; results, errors and queries change no session |
| ExecutorProps.RouteAssignment | src/flow/services/sessionExecutor.ts:305-315 | a task_assignment installs a supervisor's work plan or a worker's request call, after which the session runs or the limit is reached; any other pairing changes no session |
| ExecutorProps.AssignValid | src/flow/services/sessionExecutor.ts:305-315 | installing an assignment keeps the invariant, the ids and the message files |
| ExecutorProps.StatusUpdateValid | src/flow/services/sessionExecutor.ts:537-541 | a status update keeps the invariant, the ids and the message files |
| ExecutorProps.ActivateOutcome | src/flow/services/sessionExecutor.ts:70-95 | a startable session ends running or the limit is reached, and only its status can change |
| ExecutorProps.RouteStatusUpdate | src/flow/services/sessionExecutor.ts:537-541 | progress takes the payload's value when it is truthy (not 0 or NaN) and stays otherwise; nothing else changes |
| ExecutorProps.RouteAllValid | src/flow/services/sessionExecutor.ts:300-334 | a batch keeps the invariant, the ids and the set of message files |
| ExecutorProps.RouteFiles | src/flow/services/sessionExecutor.ts:332-333 | a message touches only its own file, which it marks processed when the destination is registered |
| ExecutorProps.RouteAllKeepsProcessed | src/flow/services/sessionExecutor.ts:300-334 | a processed file stays processed |
| ExecutorProps.RouteAllMarks | src/flow/services/sessionExecutor.ts:300-334 | every message of the batch for a registered session ends processed |
| ExecutorProps.RouteAllUntouched | src/flow/services/sessionExecutor.ts:300-302 | a file no routed message for a registered session names is left exactly as it was |
| ExecutorProps.ProcessMessagesFacts | src/flow/services/sessionExecutor.ts:297-335 | the invariant holds, processed files and messages to unknown sessions are untouched, and with a complete listing every pending message to a registered session is processed |
| ExecutorProps.ManagerSucceeds | src/flow/services/sessionExecutor.ts:148-183 | a successful manager records the reply, completes, leaves the running set, queues one assignment per child, and its child list is not extended |
| ExecutorProps.ManagerChildren | src/flow/services/sessionExecutor.ts:434-464 | each created supervisor is registered as built, and the recheck starts it unless the limit is reached |
| ExecutorProps.ExecuteManagerSpawns | src/flow/services/sessionExecutor.ts:148-183 | one supervisor per parsed descriptor, each sent its plan, the manager completed with the reply recorded |
| ExecutorProps.SupervisorSucceeds | src/flow/services/sessionExecutor.ts:186-222 | a successful supervisor records the reply, completes, leaves the running set, queues one assignment per child, and its child list is not extended |
| ExecutorProps.SupervisorChildren | src/flow/services/sessionExecutor.ts:466-500 | each created worker is registered as built, and the recheck starts it unless the limit is reached |
| ExecutorProps.ExecuteSupervisorSpawns | src/flow/services/sessionExecutor.ts:186-222 | one worker per parsed descriptor, each sent its request call, the supervisor completed with the reply recorded |
| Parsers.IndexOf | src/flow/services/sessionExecutor.ts:408 | the first position of the separator |
| Parsers.LabelChoice | src/flow/services/sessionExecutor.ts:408 | a label is never empty; it is the trimmed second field whenever that is not blank, and the fallback when there is no second field or it is blank |
| Parsers.SecondField | src/flow/services/sessionExecutor.ts:408 | the second field is exactly the text between the first separator and the next one or the end of the line |
| Parsers.MarkedLineHasField | src/flow/services/sessionExecutor.ts:406-408 | a marked line always has a second field, so the fallback is taken only for a blank one |
| Parsers.ScanAppend | src/flow/services/sessionExecutor.ts:405-412 | the scan works line by line: a concatenation scans to the concatenated results |
| Parsers.ScanOne | src/flow/services/sessionExecutor.ts:406-411 | one line yields one descriptor if it carries a marker and none otherwise |
| Parsers.ParseManagerResponse | src/flow/services/sessionExecutor.ts:400-415 | at most one supervisor descriptor per line, each with a non-empty component and the fixed description |
| Parsers.ParseSupervisorResponse | src/flow/services/sessionExecutor.ts:417-432 | at most one worker descriptor per line, each with a non-empty task and the single fixed requirement |
| Parsers.ScanLabels | src/flow/services/sessionExecutor.ts:406-411 | every manager descriptor has a non-empty component |
| Parsers.ScanTasks | src/flow/services/sessionExecutor.ts:423-428 | every worker descriptor has a non-empty task and the fixed requirement |
| Parsers.ParseManagerByLines | src/flow/services/sessionExecutor.ts:400-415 | the parse of a reply is the concatenation of its lines' parses; a single line gives exactly one descriptor when marked |
| Parsers.ParseSupervisorByLines | src/flow/services/sessionExecutor.ts:417-432 | the parse of a supervisor reply is the concatenation of its lines' parses; a single line gives exactly one worker descriptor when marked |
| FlowFiles.StemOf | src/flow/utils/flowFileManager.ts:104 | a listed name stands for an id exactly when it ends in `.json`, and the id plus `.json` is the name |
| FlowFiles.StemOfFileName | src/flow/utils/flowFileManager.ts:83 | the file name of an id gives back the id |
| FlowFiles.WriteSessionFileFacts | src/flow/utils/flowFileManager.ts:51-65 | the written file holds the stamped session; no other file changes |
| FlowFiles.WriteSessionFiles | src/flow/utils/flowFileManager.ts:51-65 | a batch of writes stores each session stamped and leaves other files |
| FlowFiles.ReadSessionFile | src/flow/utils/flowFileManager.ts:68-78 | none exactly when no file exists, otherwise the file's record |
| FlowFiles.WriteThenReadSession | src/flow/utils/flowFileManager.ts:51-78 | reading back a written session gives it with its write time; other ids read as before |
| FlowFiles.WriteMessageFacts | src/flow/utils/flowFileManager.ts:81-92 | the message file holds the message as pending, replacing any same-id file; nothing else changes |
| FlowFiles.ReadPending | src/flow/utils/flowFileManager.ts:95-119 | every message returned is a stored pending message |
| FlowFiles.ReadPendingComplete | src/flow/utils/flowFileManager.ts:95-119 | with a complete listing every pending message is returned |
| FlowFiles.ReadPendingFinds | src/flow/utils/flowFileManager.ts:103-111 | a listed pending file's message is returned |
| FlowFiles.MarkProcessedFacts | src/flow/utils/flowFileManager.ts:122-134 | an existing file becomes processed with the time and nothing else changes; an absent id changes nothing |
| FlowFiles.MarkProcessedIdempotent | src/flow/utils/flowFileManager.ts:122-134 | marking twice is marking once, and a processed message stays processed |
| FlowFiles.Cutoff | src/flow/utils/flowFileManager.ts:208-209 | the cutoff is not after now, and before now when days are kept |
| FlowFiles.CleanupOldMessages | src/flow/utils/flowFileManager.ts:206-228 | cleanup only deletes message files, and only processed ones created before the cutoff |
| FlowFiles.CleanupRemovesExactlyExpired | src/flow/utils/flowFileManager.ts:214-223 | with a listing naming each file once, a listed record is deleted exactly when it is expired |
| FlowFiles.CleanupKeeps | src/flow/utils/flowFileManager.ts:214-223 | an unlisted record is kept |
| FlowFiles.ReadAllSessions | src/flow/utils/flowFileManager.ts:166-185 | every record returned is a stored session file |
| FlowFiles.ReadAllSessionsListed | src/flow/utils/flowFileManager.ts:173-179 | with every listed name a session file, one record per listed name, in listing order, each the file the name stands for |
| FlowFiles.ReadAllSessionsComplete | src/flow/utils/flowFileManager.ts:166-185 | with a listing that names exactly the session files, every stored session is returned |
| FlowFiles.ById | src/flow/utils/flowFileManager.ts:190 | every read session is keyed by its id, and each entry is one of the records read |
| FlowFiles.ByIdLastWins | src/flow/utils/flowFileManager.ts:190 | a record no later record shares its id with is the one the map holds for that id, so of repeated ids the last wins |
| FlowFiles.ByIdRecordsAreFiles | src/flow/utils/flowFileManager.ts:189-190 | over files that hold the sessions their names announce, every map entry is that id's session file |
| FlowFiles.ByIdOfDirectory | src/flow/utils/flowFileManager.ts:189-190 | with a listing that names exactly the session files, the map holds exactly the stored session files under their ids |
| FlowFiles.Present | src/flow/utils/flowFileManager.ts:198 | the child ids that have a record, and only those |
| FlowFiles.Build | src/flow/utils/flowFileManager.ts:192-200 | none exactly for an unknown id, otherwise a node holding that record |
| FlowFiles.BuildChildrenRecords | src/flow/utils/flowFileManager.ts:198 | one sub-tree per child id that has a record, in child-list order |
| FlowFiles.SessionHierarchy | src/flow/utils/flowFileManager.ts:188-203 | none exactly for an unknown root, otherwise the tree rooted at its record |
| FlowFiles.ExportSessionData | src/flow/utils/flowFileManager.ts:244-257 | fails with "Session not found" exactly when no session file exists; otherwise the hierarchy, version 1.0.0 |
| FlowFiles.ImportTree | src/flow/utils/flowFileManager.ts:269-285 | importing a tree writes, for every id in it, a file holding one of the tree's sessions with that id, stamped with the import time; other session files and all message files are kept |
| FlowFiles.ImportSessionData | src/flow/utils/flowFileManager.ts:260-288 | fails with "Invalid import file format" exactly when there is no session; otherwise writes every session of the tree under its id, stamped, keeps other files, and returns the root |
| FlowFiles.BuildSessionsFrom | src/flow/utils/flowFileManager.ts:192-200 | a tree built from a keyed map holds only the sessions the map holds for their ids |
| FlowFiles.BuildChildrenSessionsFrom | src/flow/utils/flowFileManager.ts:198 | the sub-trees built for a child list hold only the map's sessions |
| FlowFiles.ImportTreeFrom | src/flow/utils/flowFileManager.ts:269-285 | importing a tree of a map's sessions writes, for each id, exactly that map's session stamped with the import time |
| FlowFiles.ExportedRoot | src/flow/utils/flowFileManager.ts:244-257 | an export from a completely listed directory holds the session's file at the root of its tree |
| FlowFiles.ExportedSessions | src/flow/utils/flowFileManager.ts:188-257 | an export from a completely listed directory holds only the sessions the directory's files hold for their ids |
| FlowFiles.ExportImportRoundTrip | src/flow/utils/flowFileManager.ts:244-288 | importing an export from a completely listed directory recreates every exported session with its contents, stamped with the import time, returns the exported session and keeps the target's other files |
| SessionStore.EmptyWf | src/flow/stores/sessionStore.ts:53-55 | the initial store satisfies the invariant |
| SessionStore.SameShapeWf | src/flow/stores/sessionStore.ts:164-202 | rewriting sessions without touching links or kinds keeps the invariant |
| SessionStore.CreateManagerSession | src/flow/stores/sessionStore.ts:57-76 | an idle root with no parent, no children and no assignments is added; nothing else changes |
| SessionStore.AdoptFacts | src/flow/stores/sessionStore.ts:105-115 | the child is stored and the parent's child list gains exactly its id at the end |
| SessionStore.CreateSupervisorSession | src/flow/stores/sessionStore.ts:79-85 | fails with "Invalid parent session" exactly when the parent is missing or not a manager |
| SessionStore.CreateWorkerSession | src/flow/stores/sessionStore.ts:120-126 | fails with "Invalid parent session" exactly when the parent is missing or not a supervisor |
| SessionStore.CreateSupervisorFacts | src/flow/stores/sessionStore.ts:87-115 | an idle supervisor with an empty plan naming its parent is the parent's new last child; nothing else changes |
| SessionStore.CreateWorkerFacts | src/flow/stores/sessionStore.ts:128-159 | an idle worker holding its call naming its parent is the parent's new last child; nothing else changes |
| SessionStore.CreateManagerWf | src/flow/stores/sessionStore.ts:57-76 | creating a manager under a fresh id keeps the invariant |
| SessionStore.AdoptWf | src/flow/stores/sessionStore.ts:105-115 | adopting a fresh child whose parent fits keeps the invariant |
| SessionStore.CreateSupervisorWf | src/flow/stores/sessionStore.ts:79-118 | creating a supervisor under a fresh id keeps the invariant |
| SessionStore.CreateWorkerWf | src/flow/stores/sessionStore.ts:120-162 | creating a worker under a fresh id keeps the invariant |
| SessionStore.UpdateSessionStatus | src/flow/stores/sessionStore.ts:164-176 | status and error are both overwritten, so an update without an error clears it; nothing else changes |
| SessionStore.UpdateSessionProgress | src/flow/stores/sessionStore.ts:178-189 | the progress is set; nothing else changes |
| SessionStore.AddMessage | src/flow/stores/sessionStore.ts:191-202 | fails exactly for a missing session; otherwise the turn is appended and nothing else changes |
| SessionStore.SendSessionMessage | src/flow/stores/sessionStore.ts:204-216 | the message is appended; sessions are untouched |
| SessionStore.DeliverAssignment | src/flow/stores/sessionStore.ts:218-224 | a task_assignment makes its destination active with no error; other types change nothing; no other session and no message changes |
| SessionStore.AssignSupervisorToManager | src/flow/stores/sessionStore.ts:227-244 | fails exactly when the session is missing or not a manager; otherwise the assignment is appended, the manager's update time is the call's time, and no other field of it, no other session, no message and not the selection changes |
| SessionStore.AssignWorkerToSupervisor | src/flow/stores/sessionStore.ts:246-263 | fails exactly when the session is missing or not a supervisor; otherwise the assignment is appended, the supervisor's update time is the call's time, and no other field of it, no other session, no message and not the selection changes |
| SessionStore.UpdateWorkPlan | src/flow/stores/sessionStore.ts:265-276 | a supervisor's plan is replaced and its update time is the call's time; no other field of it, no other session, no message and not the selection changes |
| SessionStore.SetTaskStatus | src/flow/stores/sessionStore.ts:281-283 | only tasks with the id take the status; all others and the order are kept |
| SessionStore.SetTaskStatusTwice | src/flow/stores/sessionStore.ts:281-283 | setting a task's status twice is setting it once with the later status |
| SessionStore.UpdateTaskStatus | src/flow/stores/sessionStore.ts:278-299 | fails exactly when the session is missing, not a supervisor or without a plan; otherwise the plan's tasks are updated by id, the update time is the call's time, and no other field of the supervisor, no other session, no message and not the selection changes |
| SessionStore.FindStep | src/flow/stores/sessionStore.ts:304-306 | the first step with the name, or none exactly when no step has it |
| SessionStore.SetStep | src/flow/stores/sessionStore.ts:308-320 | the step count grows by at most one |
| SessionStore.SetStepFacts | src/flow/stores/sessionStore.ts:308-320 | the first step with the name carries the new status and time, others are kept, and the list grows exactly when no step had the name |
| SessionStore.FindStepAt | src/flow/stores/sessionStore.ts:304-306 | a step with the name and none before it is what the search finds |
| SessionStore.SetStepIdempotent | src/flow/stores/sessionStore.ts:301-336 | repeating the same progress update changes nothing more |
| SessionStore.UpdateWorkerProgress | src/flow/stores/sessionStore.ts:301-336 | fails exactly when the session is missing or not a worker; otherwise the step list is updated by name, the update time is the call's time, and no other field of the worker or its progress record, no other session, no message and not the selection changes |
| SessionStore.CompleteWorkerTask | src/flow/stores/sessionStore.ts:338-360 | fails exactly on an unknown id (the source throws reading a field of the missing session); otherwise the status is completed exactly on success and error otherwise, the result is recorded and the progress closed at the time, with no other field of the worker changed; a known session that is not a worker holding a request call leaves the store as it was; no other session, no message and not the selection changes |
| SessionStore.GetSessionById | src/flow/stores/sessionStore.ts:362 | the stored session, or none exactly when missing |
| SessionStore.ChildIds | src/flow/stores/sessionStore.ts:364-369 | exactly the ids of sessions naming the parent |
| SessionStore.GetChildSessions | src/flow/stores/sessionStore.ts:364-369 | exactly the sessions naming the parent |
| SessionStore.ChildIdsAreChildList | src/flow/stores/sessionStore.ts:364-369 | under the invariant the sessions naming a parent are exactly its child list, one per entry |
| SessionStore.DistinctCard | src/flow/stores/sessionStore.ts:364-369 | a list without repeats has as many distinct ids as entries |
| SessionStore.Involving | src/flow/stores/sessionStore.ts:373-375 | exactly the messages from or to the id |
| SessionStore.InvolvingAppend | src/flow/stores/sessionStore.ts:373-375 | the filter keeps order: a concatenation filters to the concatenated parts |
| SessionStore.GetSessionMessages | src/flow/stores/sessionStore.ts:371-376 | exactly the stored messages from or to the id |
| SessionStore.SetActiveSession | src/flow/stores/sessionStore.ts:378-380 | only the selection changes |
| SessionStore.ClearAllSessions | src/flow/stores/sessionStore.ts:382-384 | no sessions, no messages, nothing selected, and the invariant holds |
| Simulator.RoundPercent | src/flow/utils/sessionSimulator.ts:153 | the nearest integer to 100·c/t (halves up); NaN for 0/0 and Infinity for c/0 |
| Simulator.RoundPercentRange | src/flow/utils/sessionSimulator.ts:153 | the share lies in 0..100; it is 100 exactly when at most half a percent is missing and 0 exactly when less than half a percent is done |
| Simulator.PlanProgressSteps | src/flow/utils/sessionSimulator.ts:151-153 | with the three-task plan, 0, 1, 2 or 3 completed tasks show 0, 33, 67 or 100 percent |
| Simulator.Lower | src/flow/utils/sessionSimulator.ts:26 | each character lowered, the length kept |
| Simulator.SimulateManager | src/flow/utils/sessionSimulator.ts:7-8 | the manager turns active |
| Simulator.ManagerPlanned | src/flow/utils/sessionSimulator.ts:44 | the manager reports 30 percent |
| Simulator.SpawnSupervisorFacts | src/flow/utils/sessionSimulator.ts:14-41 | throws "Invalid parent session", changing nothing, exactly when the manager is missing or not a manager; otherwise the supervisor is the newest child and assignment and its task_assignment the newest message |
| Simulator.SpawnSupervisorWf | src/flow/utils/sessionSimulator.ts:14-41 | spawning a supervisor under a fresh id keeps the store invariant |
| Simulator.PlanTasks | src/flow/utils/sessionSimulator.ts:58-66 | three pending tasks, priorities high, medium, medium |
| Simulator.PlanTaskIdsDistinct | src/flow/utils/sessionSimulator.ts:59-61 | the three task ids differ |
| Simulator.SimulateSupervisor | src/flow/utils/sessionSimulator.ts:49-103 | a non-supervisor is left alone; a supervisor turns active, gets the three-task plan and reports 20 percent |
| Simulator.SpawnWorkerFacts | src/flow/utils/sessionSimulator.ts:70-98 | throws exactly when the supervisor is missing or not a supervisor (or, later, has no plan); otherwise the worker holds the task, is the newest child and assignment, the task is assigned and the assignment is the newest message |
| Simulator.SpawnWorkerWf | src/flow/utils/sessionSimulator.ts:70-98 | spawning a worker under a fresh id keeps the store invariant |
| Simulator.WorkerStart | src/flow/utils/sessionSimulator.ts:106-109 | stops exactly when the supervisor is missing, not a supervisor or without a plan |
| Simulator.WorkerStartFacts | src/flow/utils/sessionSimulator.ts:106-109 | the worker is active; under a supervisor with a plan the task is in progress |
| Simulator.WorkerStepBegins | src/flow/utils/sessionSimulator.ts:120-121 | stops exactly when the session is not a worker |
| Simulator.WorkerStepBeginsFacts | src/flow/utils/sessionSimulator.ts:120-121 | the step is recorded in progress |
| Simulator.CountCompleted | src/flow/utils/sessionSimulator.ts:151 | at most the task count, and equal to it exactly when every task is completed |
| Simulator.CompletedChildren | src/flow/utils/sessionSimulator.ts:163-164 | exactly the completed sessions naming the parent |
| Simulator.ManagerRollup | src/flow/utils/sessionSimulator.ts:160-174 | the manager shows the rounded share of completed children (counted by parent link) in its child list and completes when the counts agree, its error then being cleared; apart from progress, status, error and update time nothing of it changes, and no other session, no message and not the selection changes |
| Simulator.AllChildrenCompleted | src/flow/utils/sessionSimulator.ts:163-171 | under the invariant the completed children are as many as the child list exactly when every listed child is completed |
| Simulator.ManagerRollupWf | src/flow/utils/sessionSimulator.ts:160-174 | under the invariant the manager completes exactly when every child on its list is completed |
| Simulator.ManagerRollupAllDone | src/flow/utils/sessionSimulator.ts:160-169 | under the invariant a manager whose listed children are all completed shows 100 percent (NaN with no children) |
| Simulator.SupervisorDone | src/flow/utils/sessionSimulator.ts:156-176 | the supervisor is completed; only managers may change otherwise |
| Simulator.SupervisorRollup | src/flow/utils/sessionSimulator.ts:148-177 | the roll-up changes no parent or child link, no kind and no message |
| Simulator.SupervisorRollupFacts | src/flow/utils/sessionSimulator.ts:148-177 | stops exactly without a plan; otherwise the supervisor shows the rounded share of completed tasks and completes exactly when they all are |
| Simulator.SupervisorRollupNoTasks | src/flow/utils/sessionSimulator.ts:151-157 | a plan with no tasks completes the supervisor at once, showing NaN |
| Simulator.SupervisorDoneReachesManager | src/flow/utils/sessionSimulator.ts:156-176 | under the invariant the manager completes exactly when every other child on its list is already completed |
| Simulator.OthersCompleted | src/flow/utils/sessionSimulator.ts:157-171 | completing one session completes a list exactly when all others on it already were |
| Simulator.WorkerStepEndsProgress | src/flow/utils/sessionSimulator.ts:123-126 | before the last step: stops exactly for a non-worker, otherwise the step is completed and progress is (index+1)·20 |
| Simulator.FinishTaskFacts | src/flow/utils/sessionSimulator.ts:127-146 | the worker completes with the simulated output, its task is completed, and the result message to the supervisor is the newest message |
| Simulator.WorkerLastStep | src/flow/utils/sessionSimulator.ts:123-146 | after the last step the worker shows 100 percent and is completed |
| Settings.Initial | src/flow/stores/settingsStore.ts:42-70 | no key, no tokens, disconnected and no error |
| Settings.UpdateApiSettings | src/flow/stores/settingsStore.ts:72-76 | each key in the patch takes its value, every other setting and field is kept |
| Settings.UpdateApiSettingsThen | src/flow/stores/settingsStore.ts:72-76 | two updates are one with the combined patch; an empty patch changes nothing |
| Settings.UpdateRateLimits | src/flow/stores/settingsStore.ts:78-82 | each key in the patch takes its value, every other limit and field is kept |
| Settings.UpdateApiUsage | src/flow/stores/settingsStore.ts:84-106 | same day: tokens added; new day: the count restarts at the tokens and the day is recorded |
| Settings.UpdateApiUsageSameDay | src/flow/stores/settingsStore.ts:84-106 | within a day the count is the sum of the day's updates |
| Settings.ResetApiUsage | src/flow/stores/settingsStore.ts:108-116 | zero tokens, dated today; nothing else changes |
| Settings.SetConnectionStatus | src/flow/stores/settingsStore.ts:118-123 | the flag is set, and an absent or empty error is stored as none |
| Settings.ClearSettings | src/flow/stores/settingsStore.ts:131-139 | every default restored (usage dated at load time), disconnected |
| Settings.KeyCharRun | src/flow/stores/settingsStore.ts:127 | the length of the leading run of key characters |
| Settings.ValidateApiKey | src/flow/stores/settingsStore.ts:125-129 | accepted exactly when the key is `sk-ant-` followed by at least 86 characters of [A-Za-z0-9_-] and nothing else |
| Settings.ValidateApiKeyLength | src/flow/stores/settingsStore.ts:126-127 | accepted keys have at least 93 characters, and a 93-character key is accepted |
| Settings.Partialize | src/flow/stores/settingsStore.ts:143-150 | the persisted key is empty; every other setting, the limits and the usage are kept |
| Settings.Rehydrate | src/flow/stores/settingsStore.ts:143-150 | the stored fields replace the current ones; the connection state is kept |
| Settings.PersistRoundTrip | src/flow/stores/settingsStore.ts:143-150 | a reload keeps everything but the key, which comes back empty; persisting again is stable |
| RateLimiter.CheckDailyReset | src/flow/utils/rateLimiter.ts:26-33 | on a new day the timestamps are cleared and the day recorded; on the same day nothing changes |
| RateLimiter.Recent | src/flow/utils/rateLimiter.ts:64-66 | exactly the timestamps less than 60 000 ms old |
| RateLimiter.RecentAppend | src/flow/utils/rateLimiter.ts:64-66 | the filter keeps order: a concatenation filters to the concatenated parts |
| RateLimiter.RecentLater | src/flow/utils/rateLimiter.ts:64-66 | pruning now and again later is pruning later |
| RateLimiter.CeilSeconds | src/flow/utils/rateLimiter.ts:76 | the least whole number of seconds covering the milliseconds |
| RateLimiter.CheckRateLimit | src/flow/utils/rateLimiter.ts:42-81 | the token cap refuses first, with "Daily token limit exceeded" and the window untouched; otherwise the window is pruned and the request proceeds exactly when it holds fewer than the limit; a refusal waits 60 000 − (now − oldest), positive and at most 60 000 when the oldest is not in the future |
| RateLimiter.WaitSecondsRange | src/flow/utils/rateLimiter.ts:69-77 | a full window asks to wait between 1 and 60 seconds |
| RateLimiter.RecordRequest | src/flow/utils/rateLimiter.ts:83-86 | exactly one timestamp is appended |
| RateLimiter.AdmitKeepsWindow | src/flow/utils/rateLimiter.ts:42-86 | checking then recording never puts more than the limit in the window |
| RateLimiter.GetRemainingRequests | src/flow/utils/rateLimiter.ts:96-106 | never negative, positive exactly below the limit, and then the limit minus the window's count |
| RateLimiter.RemainingAgreesWithCheck | src/flow/utils/rateLimiter.ts:42-106 | under the token cap, on the recorded day, the check proceeds exactly when requests remain |
| RateLimiter.GetRemainingTokens | src/flow/utils/rateLimiter.ts:108-111 | never negative, positive exactly below the cap, and then the cap minus the total |
| RateLimiter.WaitForRateLimit | src/flow/utils/rateLimiter.ts:88-94 | sleeps exactly for a refusal carrying a non-zero numeric wait, and for that wait; never for the token cap |
| Text.SplitJoin | src/flow/services/claudeService.ts:165 | joining the pieces of a split with the separator gives back the text |
| Text.JoinSplit | src/flow/services/claudeService.ts:165 | splitting a join of separator-free pieces gives back the pieces |
| Text.TrimSpec | src/flow/services/sessionExecutor.ts:408 | trimming removes exactly the leading and trailing whitespace and keeps the middle slice |
| ClaudeService.TextsOf | src/flow/services/claudeService.ts:97-99 | at most one text per block |
| ClaudeService.TextsOfAppend | src/flow/services/claudeService.ts:97-99 | the filter works block by block |
| ClaudeService.TextsOfBlock | src/flow/services/claudeService.ts:97-99 | each text block contributes its text (or "") at its place; other blocks contribute nothing |
| ClaudeService.ExtractTextSplit | src/flow/services/claudeService.ts:97-100 | splitting the reply on newlines gives back the texts, when none holds a newline |
| ClaudeService.ErrorText | src/flow/services/claudeService.ts:71-74 | the API's message when non-empty, else "API error: " and the status |
| ClaudeService.Fail | src/flow/services/claudeService.ts:103-106 | the error is rethrown and the connection marked down |
| ClaudeService.SendMessageRefused | src/flow/services/claudeService.ts:45-48 | a refused request fails with the limiter's reason (default "Rate limit exceeded"), records nothing and leaves the settings |
| ClaudeService.SendMessageOutcome | src/flow/services/claudeService.ts:50-106 | without a key nothing is recorded; with one exactly one request is recorded; failures mark the connection down with the message; success returns the reply text, marks the connection up and adds input plus output tokens |
| ClaudeService.Feed | src/flow/services/claudeService.ts:164-166 | neither the complete lines nor the kept buffer holds a newline |
| ClaudeService.FeedFrames | src/flow/services/claudeService.ts:164-166 | the lines and the kept buffer, newline-joined, are the old buffer plus the chunk |
| ClaudeService.ChunksOfAppend | src/flow/services/claudeService.ts:168-199 | chunks and token counts are accumulated line by line |
| ClaudeService.UsageDeltasRecountTotal | src/flow/services/claudeService.ts:180-195 | two `message_delta` lines of t1 and t2 tokens add t1 and then t1 + t2 (plus any earlier stream tokens, each time) to the day's usage |
| ClaudeService.HandleLineAccounted | src/flow/services/claudeService.ts:168-199 | one line keeps the chunks and token total equal to those of the lines seen |
| ClaudeService.HandleLinesAccounted | src/flow/services/claudeService.ts:168-199 | a buffer-full sees all its lines unless `[DONE]` stops it, keeping the account |
| ClaudeService.JoinFeed | src/flow/services/claudeService.ts:164-166 | feeding a chunk extends the framed text by exactly that chunk |
| ClaudeService.PumpFrames | src/flow/services/claudeService.ts:160-200 | until `[DONE]`, the lines seen and the buffer, newline-joined, are exactly the body read; the chunks and tokens are those of the lines seen |
| ClaudeService.JoinAppend | src/flow/services/claudeService.ts:165 | joining two runs puts one newline between them |
| ClaudeService.StreamFail | src/flow/services/claudeService.ts:203-206 | onError gets the message and the connection is marked down |
| ClaudeService.StreamMessageReads | src/flow/services/claudeService.ts:151-206 | a readable stream hands on exactly the non-empty text deltas of the lines read and counts their tokens; it completes exactly when `[DONE]` was read; otherwise the lines and discarded buffer make up the body read, a rejected read reports its message after the chunks already handed on and marks the connection down, and a body that runs out marks it up |
| ClaudeService.StreamMessageFails | src/flow/services/claudeService.ts:117-154 | refusal, a missing key, a failed fetch, an error status (the API's message or "API error: " and the status) or an unreadable body report the message, hand on nothing and change no usage; all but the refusal mark the connection down |

## Left out

- Timers and scheduling: the executor's message polling interval, the worker monitor's 2-second loop, every `setTimeout` chain of the simulator and the store's 100 ms callback. Each callback is a separate transition (`Simulator.*`, `SessionStore.DeliverAssignment`, `Executor.ProcessMessages`). Their order in time is the caller's.
- Asynchronous interleaving, for example a model call that resolves after its session was paused. Every handler is atomic.
- Event emission (`session:activated`, `session:queued`, …). `Executor.Activation` reports the outcome the events would announce.
- Tauri file-system calls, the keyring and `fetch`. The directory is a pair of maps, listings are parameters, the key is an `Option` and the response is a `Result`. `writeConversationHistory`, `saveArtifact`, the history copy of session files, `initializeFlowDirectory`'s directory creation and `calculateChecksum` hash JSON text or only create directories, so they are not modelled.
- JSON: `JSON.parse`/`JSON.stringify` of files and stream payloads. Files hold typed records. A stream payload's reading is the parameter `decode`, and `Unparsable` stands for a payload `JSON.parse` rejects. The simulator's worker output is its JSON text, and `success: true` is the text "true".
- Prompt construction, and the messages sent to the model. The reply is a parameter.
- Floating point: cost per token and `totalCost`, the usage-percentage warning and its log line, and temperature (kept as an uninterpreted `real`).
- Identifier generation with `Date.now()` and `Math.random()`. Ids are parameters. The three `task_${Date.now()}_k` ids share one time stamp.
- `validateConnection`, `getApiKey`'s keyring call, the limiter's constructor and its `localStorage` persistence, and `TextDecoder`. Body chunks arrive decoded.
- `response.json()` failing on an error response. The error body is read as an optional message.
- SessionStore.UpdateSessionStatus: on an unknown id the source stores a partial record made only of the spread fields. The model leaves the store unchanged, and so do `UpdateSessionProgress`, `DeliverAssignment` and `UpdateWorkPlan`.
- SessionStore.UpdateWorkPlan: on a session that is not a supervisor the source adds a `workPlan` field to it. The model changes nothing.
- SessionStore.CompleteWorkerTask: on a session that is not a worker holding a request call, the source writes the fields anyway. The model changes nothing.
- SessionStore.GetChildSessions: returns a set. The source's list is in insertion order.
- Executor.GetActiveSessions: returns a set. The source's list is in the running set's insertion order.
- Executor.ResultNotice: a worker without a parent addresses its result to the empty id. The source leaves `toSessionId` undefined, which the message file then omits.
- Executor.Assign: a task_assignment whose payload has the wrong shape for its session changes nothing. The source would store the wrongly shaped object and then activate the session, since any defined payload, `null` included, passes its `!== undefined` test.
- Simulator.RoundPercent: is exact rational rounding. The source computes `(c / t) * 100` in floating point before `Math.round`, which can differ on exact halves.
- Simulator.Lower: lowers ASCII letters only. `toLowerCase` is only applied to the three fixed component names.
- FlowFiles.Build: recursion is bounded by a fuel parameter. The source relies on the child lists forming a tree; on a cycle its synchronous recursion exhausts the call stack and throws a RangeError, which rejects `getSessionHierarchy` and `exportSessionData`. The model instead returns a tree cut off where the fuel runs out.
- FlowFiles.Cutoff: a day is a fixed 86,400,000 ms. The source's `setDate` steps back local calendar days, which are an hour longer or shorter across a daylight-saving change; time zones are not modelled. The default of 7 days (`FlowFiles.DefaultDaysToKeep`) is the caller's to pass.
- FlowFiles.ReadPending: a listed file that cannot be read ends the scan with the messages gathered so far. This is the source's catch-all, but which errors can occur is not modelled.
- RateLimiter.CheckRateLimit: the check and the recording of a request use one clock value. In the source each call reads `Date.now()` separately.
- ClaudeService.SendMessage: the settings are read once at the start, as the source does. Concurrent changes to the store during the call are not modelled.
- ClaudeService.HandleLine: a `message_delta` records the running total through `updateApiUsage`, as the source does, so a day's usage counts earlier stream tokens again.
- Text.Split, Text.Trim and Text.IsWhitespace: a character is a Unicode scalar value. JavaScript counts lengths and indices in UTF-16 code units, so the two agree only on text inside the Basic Multilingual Plane; the results of split and trim are the same text either way.
- Settings.UpdateApiSettings: a patch key present with the value `undefined` overwrites the setting in the source. In the model a key is either absent or carries a value.

# QRMI: models and proofs

Dafny models of the parts of QRMI that hold state, follow a protocol, or parse and lay out data,
with proofs about them. `dafny verify dfyconfig.toml` checks everything.

- `MaestroWorld`, `MaestroServer`, `MaestroLocal`, `MaestroRuns`: the Maestro client, with its
  retained session and its cache of terminal task states, talking to a server through separate
  exchanges. The server's workers and other clients may step any number of times before each
  exchange, and an exchange may take effect although its answer is lost. Tasks have serial numbers,
  because the server recycles ids, so "the task an entry was observed on" has a meaning.
- `TaskRunner`: the submit-poll-fetch-clean-up run over any resource, and over the Maestro client.
- `MaestroPayload`: the Rust and the Python decoder of one payload contract.
- `BackendFilter`, `ProviderPipeline`: the filter string, and discovery against its simple form.
- `JobPaging`, `IbmSession`: the paging loop with 32-bit offsets, and session reuse.
- `PathExpansion`, `PasqalConfigFile`, `Felis`, `IqmResults`: scanners, names and layouts.
- `LogSink`, `LuaResource`: lock discipline, and ownership of an acquisition token.
- `Text`, `Wrappers`: string operations of the standard library, results and error kinds.

## What the code does not keep

Seven statements one might expect are false of the code. Each has its exact condition and an instance.

- The Maestro cache is not always about the newest task of an id. `task_start` removes the entry of
  the id it returns, but a call that fails after the server has created a task under a cached id
  leaves the old entry (src/maestro/local.rs:495 and 536-539), and `task_status` then answers for
  the older task. Before a call, no outcome can do that exactly if nothing is cached or the session
  is over (`SubmissionSafeExactly`); for every other cache `OvertakingSubmit` gives the outcome that
  does. After a call, it has happened exactly if the call failed, created a task under an id that
  was cached before it, and the session is still live (`Client.TaskStart`, through `Submitted`).
  `CreateMakesStale` is the reason and `StaleEntryExample` a concrete state.
- Session reuse is not `100 * active_ttl > max_ttl` for all 32-bit values, since division truncates
  (`ReuseRuleExactly`, `ReuseRuleFails`).
- A successful IBM `release` of another token forgets the retained session without closing it.
  `ReleaseSafeExactly` gives the condition before the call under which no server behaviour makes
  that leave a session open, and `ReleaseCanLeak` a run that does.
- A Lua `release` of another token makes the handle forget its own: `LuaResource.ReleaseSafeExactly`
  is the condition before the call, `LeaksExactly` the event, `OwnTokenCanBeForgotten` a run.
- User code can run under the lock of the log sink: the destructor of a replaced sink, exactly when
  no call of that sink is in progress (`DestructorRunsUnderLockExactly`). If it logs, its thread
  waits for itself (`LoggingDestructorDeadlocks`). Sinks that log are safe, as the documentation in
  src/common/logging.rs:28-32 intends.
- `strip_quotes` slices `[1..0]` of a text that is one quote character, so the configuration parser
  panics on such a value, and only then (`ParsePasqalConfigContent`, `PanicLine`, `PanicExample`).
- A Felis target name does not always survive the trip through its device name (`TargetRoundTrip`,
  `TargetRoundTripFails`).

## What is assumed

- Maestro server: GET_RESULTS and a positive CANCEL remove the task; CANCEL is positive only for a
  task that has not settled; failure is settled once the task has finished; diagnostics start anew
  for every task, outlive it, and end with its session; a session id this client holds is not given
  out again, and an id that was used in a live session is given to another task only by this client's
  submissions. A refusal of SUBMIT with a known code means that nothing was created.
- Felis: a refusal of job creation with a status the classifier knows means that nothing was created.
- IBM: session ids are not given out twice. An error answer leaves open whether a request worked.
- The signal flag of the runner clears after some number of loads, unless a terminal status is seen.
- JSON printing and parsing are inverse; Python's lower-casing maps ASCII letters to ASCII letters,
  and of the other characters only the Kelvin sign to an ASCII character alone.
- Destructors of log sinks that run under the write lock do not use the library, except where a
  lemma is about those that do; a thread that waits for a lock it holds waits, where the standard
  library may also panic.
- IQM: measurement keys are distinct, agree on the length of their register and the number of rows,
  and hold zeros and ones; no more shots are requested than there are rows.

## Model

| member | source | states |
|---|---|---|
| `MaestroWorld.RunRely` | src/maestro/local.rs:34-38 | Whatever the server's workers and other clients do, in any number and order of steps, the server state stays consistent and the past stays as it was: outcomes are not rewritten, and a key of the held session keeps naming one task that only moves forward. |
| `MaestroWorld.StepKeepsValid` | src/maestro/local.rs:34-38 | Each step of the server's workers or of another client keeps the server state consistent. |
| `MaestroWorld.ThreeReadsMatchOutcome` | src/maestro/local.rs:254-295 | With others free to step between the reads, a terminal answer of FAILED, FINISHED, FAILED is the outcome the task settled on; in particular a failed task is never reported completed. |
| `MaestroWorld.TwoReadsCanMissFailure` | src/maestro/local.rs:277-278 | Without the second read of FAILED there is a run in which a failed task is reported completed. |
| `MaestroLocal.KeyOfDecimal` | src/maestro/local.rs:184-199 | A decimal id in a retained session names that task; a text that is no 32-bit number is judged before the missing session. |
| `MaestroServer.CodesOfKinds` | src/maestro/local.rs:111-122 | Which codes of the native API stand for which kind of error; all others are Other. |
| `MaestroLocal.Client.EnsureTaskExists` | src/maestro/local.rs:201-211 | Success means the task was there; TaskNotFound means it was not; Other only after an exchange went wrong. |
| `MaestroLocal.Client.TaskResponse` | src/maestro/local.rs:215-231 | A usable answer is passed on; a refusal is followed by one EXISTS, and becomes TaskNotFound exactly if that is answered with no. |
| `MaestroLocal.Client.ServerTaskStatus` | src/maestro/local.rs:254-311 | A terminal answer is the settled outcome of the task the id names now; a task that had failed or finished before the call is not reported as active; Running and Queued are told apart by the server's state; never Cancelled. |
| `MaestroLocal.Client.UnfailedStatus` | src/maestro/local.rs:271-310 | The reads after FAILED answered with no. |
| `MaestroLocal.Client.FinishedStatus` | src/maestro/local.rs:271-295 | For a task that has finished, the second read of FAILED gives the settled outcome. |
| `MaestroLocal.Client.CancellationRecorded` | src/maestro/local.rs:236-251 | One LOGS exchange; a yes means the task the id names has settled as cancelled. |
| `MaestroLocal.Client.TaskStatus` | src/maestro/local.rs:576-602 | A remembered state is returned without an exchange; otherwise only reads are sent and the cache gains exactly a terminal answer; Cancelled needs a recorded final cancellation; TaskNotFound means the record was asked for and shows no cancellation, and a task known before is gone; Other means an exchange went wrong. |
| `MaestroLocal.Client.ObservedStatus` | src/maestro/local.rs:583-594 | A missing task is reported cancelled exactly if its record says so. |
| `MaestroLocal.Client.TaskStop` | src/maestro/local.rs:543-574 | Besides reads, at most one CANCEL; succeeds exactly when the task is cached as terminal afterwards; a task cached before costs no exchange and changes nothing; if a refused CANCEL is the only trouble and the task had ended by then, it succeeds; Cancelled is cached only after a positive CANCEL or a recorded cancellation; TaskNotFound means a task known before is gone. |
| `MaestroLocal.Client.StopActive` | src/maestro/local.rs:554-573 | For a task not known to have ended: exactly one CANCEL; after a refusal the stop fails with Other only if the task had not ended when the CANCEL was refused, or something else went wrong. |
| `MaestroLocal.Client.RefusedStop` | src/maestro/local.rs:564-573 | After a refused CANCEL the status is read again: success exactly if it is terminal; an error without trouble is about a task that had not ended. |
| `MaestroLocal.Client.TaskResult` | src/maestro/local.rs:604-625 | A result is the answer exactly if the server handed one over; only for a completed task, once for each task of the server, as the server settled it, and Completed stays cached; other statuses give TaskNotReady, without an exchange if remembered; TaskNotFound means a task known before is gone; with no stale entry the result is that of the task observed. |
| `MaestroLocal.Client.FetchCompleted` | src/maestro/local.rs:612-624 | EXISTS, then the fetch; a result handed over is the answer; TaskNotFound comes with a last EXISTS answered with no. |
| `MaestroLocal.Client.FetchPresent` | src/maestro/local.rs:616-624 | GET_RESULTS: a result handed over is the answer, of a task that was not delivered before and as settled; no reply is Other; after a refusal EXISTS is asked again. |
| `MaestroLocal.Client.TaskLogs` | src/maestro/local.rs:627-631 | The answer to one LOGS, with the kind of error its code stands for; diagnostics are those retained under the id. |
| `MaestroLocal.Client.Acquire` | src/maestro/local.rs:420-440 | A retained session is always asked about, and kept with its cache, unless the server answered that it is missing; then it is forgotten with its cache and another is asked for; on success the retained session is live and returned in decimal. |
| `MaestroLocal.Client.OpenSession` | src/maestro/local.rs:434-439 | One SESSION_NEW; a new session starts with an empty cache; on failure none is retained. |
| `MaestroLocal.Client.Release` | src/maestro/local.rs:442-466 | The token says which session is deleted; success forgets exactly the entries of that session, and the retained session only if it is that one; failure changes nothing. |
| `MaestroLocal.Client.TaskStart` | src/maestro/local.rs:468-541 | An error of another kind than Other means this call created no task; local refusals send nothing; on success the id names the created task, the newest one of that id, and exactly its entry is forgotten; an entry is left about an older task exactly if the call failed, created a task under an id that was cached before, and the session is still live. |
| `MaestroLocal.Client.StartRequest` | src/maestro/local.rs:484-498 | A native request: one SUBMIT, with the same promises; the kind of a refusal is the one its code stands for. |
| `MaestroLocal.Client.StartLegacy` | src/maestro/local.rs:500-540 | A legacy payload: malformed input is refused, check by check, before anything is sent; then CREATE, the commands in order, and CANCEL exactly if a command failed. |
| `MaestroLocal.Client.SubmitLegacy` | src/maestro/local.rs:314-369 | Every failure is Other, whatever it wraps; success means CREATE and every command of the plan, in order, was accepted. |
| `MaestroLocal.Client.ConfigureAndExecute` | src/maestro/local.rs:321-347 | The commands go out in order up to the first that is not accepted; observables only for an estimate. |
| `MaestroLocal.Client.ConfigureOrCancel` | src/maestro/local.rs:348-368 | A failed command is followed by exactly one CANCEL. |
| `MaestroLocal.Client.Configured` | src/maestro/local.rs:371-379 | One command; success exactly on a plain yes. |
| `MaestroLocal.CacheKept` | src/maestro/local.rs:34-38 | Cache entries stay terminal, of the current session, and equal to the settled outcome of the task they were observed on, whatever others do. |
| `MaestroLocal.CurrentKept` | src/maestro/local.rs:34-38 | Others cannot give a cached id to another task: an entry that is about the newest task of its id stays so. |
| `MaestroLocal.StillCurrent` | src/maestro/local.rs:34-38 | Others cannot give the id of the newest task of an id in the held session to another one. |
| `MaestroLocal.CreateMakesStale` | src/maestro/local.rs:495-539 | Creating a task makes an entry stale exactly when it is created under a cached id. |
| `MaestroLocal.AfterSubmission` | src/maestro/local.rs:468-541 | Over a whole submission with others stepping in between, the created task is the newest one of its id, entries of other ids stay current, and an entry is overtaken exactly if the created task has a cached id in a live session. |
| `MaestroLocal.SubmissionSafeExactly` | src/maestro/local.rs:468-541 | Before the call: every outcome of a submission leaves only entries about the newest tasks of their ids exactly if nothing is cached or the session is over. |
| `MaestroLocal.OvertakingSubmit` | src/maestro/local.rs:484-498 | For every cached entry of a live session there is a SUBMIT, answered with an error of unknown meaning, that leaves the entry about an older task. |
| `MaestroLocal.StaleEntryExample` | src/maestro/local.rs:486-495 | The exception occurs: a cached Completed, and a SUBMIT that creates a task under its id but is answered with an unknown error, reported as Other, leave an entry about the older task. |
| `MaestroLocal.GoneStaysGone` | src/maestro/local.rs:236-251 | A known task of the held session that was found missing is missing at the end of the status call. |
| `MaestroRuns.AnyRun` | src/maestro/local.rs:420-631 | For every script of operations, the recorded steps lead from the client's state before the run to that after it; each is answered without an exchange exactly if the client knows the answer, logged as its answer says, and delivers a result exactly if the server handed one over; terminal answers about an id are the same, and about the same task, until that id is returned for a new task or its own session ends; they are the settled outcomes; results are the settled ones, and none is handed out twice. |
| `MaestroRuns.StableMeansUnchanged` | src/maestro/local.rs:576-602 | Two terminal answers about one id are equal unless the id was returned for a new task, or the session of that id ended, in between. |
| `MaestroRuns.Extend` | src/maestro/local.rs:420-602 | The step of that argument: the answers in force are those in the cache, and an operation drops only the entries its event ends. |
| `MaestroRuns.Observer.Status` | src/maestro/local.rs:576-602 | The log grows by a terminal answer, with the task it was observed on, exactly if one was given. |
| `MaestroRuns.Observer.Result` | src/maestro/local.rs:604-625 | The log grows by the result and the task the server gave it for, exactly if one was handed out. |
| `MaestroRuns.Observer.Start` | src/maestro/local.rs:468-541 | The log grows by the restart of the returned id for the created task, exactly if the call succeeded. |
| `MaestroRuns.Observer.Acquire` | src/maestro/local.rs:420-440 | The log grows by the end of the retained session, exactly if an answered SESSION_EXISTS found it missing. |
| `MaestroRuns.Observer.Release` | src/maestro/local.rs:442-466 | The log grows by the end of the session that the token names, exactly if it was deleted. |
| `TaskRunner.RunTask` | src/bin/task_runner.rs:595-649 | For every resource, the run is a start, polls, at most one result, logs and a stop; the outcome is the one its start, writes, last status and result explain, whatever logs and stop give; a run that announced its task and saw no terminal status has seen the flag cleared; on a Maestro client the calls account for every exchange, CANCEL is sent at most once and not after a terminal status, a terminal outcome is the one the server settled for the task this run created, and a run that succeeds has written the result of that task to its output. |
| `TaskRunner.OutcomeExactly` | src/bin/task_runner.rs:604-648 | Exactly when a run succeeds, fails to start, ends with a failed or cancelled task, without a result, with a failed write, or interrupted. |
| `TaskRunner.StartAndSupervise` | src/bin/task_runner.rs:604-648 | The run itself: a failed start ends it, a successful one is supervised. |
| `TaskRunner.Supervise` | src/bin/task_runner.rs:605-648 | Everything after a successful start: whatever the block before it gave, the clean-up follows, and the outcome is decided without it. |
| `TaskRunner.Watch` | src/bin/task_runner.rs:605-633 | Everything before the clean-up: if the id could be written, it polls until a terminal status or until it has seen the flag cleared, and otherwise not at all; a result is fetched exactly after a Completed status; a Maestro client then remembers the terminal status seen. |
| `TaskRunner.Poll` | src/bin/task_runner.rs:607-628 | The polling loop ends with the first terminal status or when it has seen the flag cleared; failed status reads are retried; the number of polls is bounded by the flag's patience. |
| `TaskRunner.CleanUp` | src/bin/task_runner.rs:634-647 | Logs exactly for an error, stop always and last; on Maestro, a stop after a terminal status succeeds with no exchange of the wire. |
| `TaskRunner.CallOrder` | src/bin/task_runner.rs:595-649 | A run whose start succeeded is accepted by the automaton of start status* result? logs? stop. |
| `TaskRunner.AcceptedExactly` | src/bin/task_runner.rs:595-649 | That automaton accepts exactly the sequences in which each call may follow the one before it. |
| `TaskRunner.RunInOrder` | src/bin/task_runner.rs:595-649 | Start is first, stop is last, and each is only there; logs only directly before stop; result only directly after a Completed status; no status after a terminal one. |
| `TaskRunner.AtMostOneCancel` | src/bin/task_runner.rs:595-649 | On a Maestro client the calls of a run count at most one CANCEL, and none once a terminal status was seen. |
| `TaskRunner.AccountedMore` | src/bin/task_runner.rs:595-649 | Exchanges and CANCELs on the wire grow by exactly what the calls count. |
| `TaskRunner.Resource.TaskStop` | src/maestro/local.rs:543-552 | The call counts its exchanges on the wire; for a remembered terminal task there are none, although the result was already fetched. |
| `TaskRunner.Resource.TaskStatus` | src/maestro/local.rs:576-602 | A terminal status is the settled outcome of the task the run created and leaves it remembered; remembered tasks stay so. |
| `TaskRunner.Resource.TaskStart` | src/maestro/local.rs:468-541 | After a successful start the id names the task that this call created, until its session ends. |
| `TaskRunner.Resource.TaskResult` | src/maestro/local.rs:604-625 | A result is that of the task the run created, and is the answer exactly if the server handed it over. |
| `TaskRunner.Fetch` | src/bin/task_runner.rs:609-619 | The text to write is the settled result of the task the run created; it is written to the output exactly if there is one and writing succeeds. |
| `MaestroPayload.DecodersAgree` | python/qrmi/maestro.py:60-117 | The Rust and the Python decoder accept the same JSON values and give the same payload up to re-parsing JSON texts. |
| `MaestroPayload.NewFormsAgree` | src/bin/task_runner.rs:278-331 | Agreement on wrapped and bare native documents. |
| `MaestroPayload.LegacyFormsAgree` | src/bin/task_runner.rs:297-370 | Agreement on envelopes and legacy objects. |
| `MaestroPayload.RequestsAgree` | python/qrmi/maestro.py:34-57 | The request readers agree on every value, serialized or not. |
| `MaestroPayload.LegacyAgree` | python/qrmi/maestro.py:89-117 | Shape checks, integer ranges, defaults and configuration forms of legacy objects agree. |
| `MaestroPayload.KindsSame` | python/qrmi/maestro.py:79-88 | Comparing the kind without regard to ASCII case and lower-casing it first come to the same, context-dependent and multi-character images included. |
| `MaestroPayload.PyLowerIs` | python/qrmi/maestro.py:79-79 | A lower-cased text is a given ASCII word without k exactly if its ASCII-lowered form is. |
| `MaestroPayload.SpellingsOfOneDocument` | src/bin/task_runner.rs:281-331 | A value decodes to the request for a document exactly if that is a native document and the value spells it: bare, wrapped, serialized, or in a job_type=request envelope. |
| `MaestroPayload.LegacyRoundTrip` | src/bin/task_runner.rs:332-370 | A payload written as a legacy object, with or without the optional fields, decodes to itself, field by field. |
| `MaestroPayload.NativeExactly` | src/bin/task_runner.rs:281-331 | A bare document is accepted exactly if its schema_version is 2 and it has none of the listed keys. |
| `MaestroPayload.LegacyKeysOnly` | python/qrmi/maestro.py:74-78 | Without the keys of the new forms only the seven legacy keys are accepted, with an input and a textual kind. |
| `MaestroPayload.UnknownKindRefused` | python/qrmi/maestro.py:79-88 | A kind that is none of the three words in any case is refused on both sides. |
| `MaestroPayload.SameLists` | python/qrmi/maestro.py:10-31 | The key lists of both sides are the same. |
| `BackendFilter.Parse` | src/ibm/quantum_compute_service_provider/provider_filter.rs:70-133 | The loop gives, for every key, the last setting of that key, and refuses exactly the strings with a malformed segment. |
| `BackendFilter.ParseJoin` | src/ibm/quantum_compute_service_provider/provider_filter.rs:70-133 | a & b parses exactly if both do, and is b overriding a, key by key. |
| `BackendFilter.UnknownKeyIgnored` | src/ibm/quantum_compute_service_provider/provider_filter.rs:128-129 | A segment with an unknown key changes nothing, wherever it stands. |
| `BackendFilter.PrintThenParse` | src/ibm/quantum_compute_service_provider/provider_filter.rs:70-133 | Printing any filter, integer bounds included, and parsing it gives the filter back. |
| `BackendFilter.QubitsRequested` | src/ibm/quantum_compute_service_provider/provider_filter.rs:154-174 | One more num_qubits segment is a lower bound that replaces an earlier one and leaves the other tests alone. |
| `BackendFilter.ShotsRequested` | src/ibm/quantum_compute_service_provider/provider_filter.rs:154-174 | The same for max_shots and 64-bit values. |
| `BackendFilter.SimulatorsRequested` | src/ibm/quantum_compute_service_provider/provider_filter.rs:146-157 | A missing simulator flag counts as no simulator; the configuration has to say the same, and pass the other tests. |
| `BackendFilter.NameRequested` | src/ibm/quantum_compute_service_provider/provider_filter.rs:137-142 | The last pattern decides on names. |
| `BackendFilter.StatusRequested` | src/ibm/quantum_compute_service_provider/provider_filter.rs:118-127 | A status segment asks for online backends and changes nothing else. |
| `BackendFilter.RefusedExactly` | src/ibm/quantum_compute_service_provider/provider_filter.rs:70-133 | A filter string is refused exactly if some segment has no = or gives a known key a value of the wrong form. |
| `BackendFilter.NoNameMeansAny` | src/ibm/quantum_compute_service_provider/provider_filter.rs:137-142 | A filter string without a name accepts every name. |
| `BackendFilter.NoSimulators` | src/ibm/quantum_compute_service_provider/provider_filter.rs:146-157 | Without a word on simulators, devices and configurations of simulators are excluded. |
| `BackendFilter.NoNumbersMeanAny` | src/ibm/quantum_compute_service_provider/provider_filter.rs:154-174 | Without numbers a configuration is judged by its simulator flag alone. |
| `BackendFilter.NoStatusMeansAny` | src/ibm/quantum_compute_service_provider/provider_filter.rs:178-180 | Without a status none is asked for. |
| `ProviderPipeline.Provider.Resources` | src/ibm/quantum_compute_service_provider/mod.rs:137-244 | Discovery returns, in order, the services for the stable sort by queue length of the backends that satisfy the whole filter and have a readable configuration; no backend is lost in construction; malformed filters and failed listings are errors. |
| `ProviderPipeline.Provider.LeastBusy` | src/resource_provider.rs:74-79 | A backend of minimal queue length among all that satisfy the filter, and none only if none does. |
| `ProviderPipeline.ChainIsDiscovery` | src/ibm/quantum_compute_service_provider/mod.rs:162-217 | Filters, zips with statuses and configurations, sort and last filter together are the simple form. |
| `ProviderPipeline.PreparedIs` | src/ibm/quantum_compute_service_provider/mod.rs:162-199 | Before the last filter every listed candidate is paired with its own configuration, in stable queue order. |
| `ProviderPipeline.ZipFlagged` | src/ibm/quantum_compute_service_provider/mod.rs:171-181 | Zipping with the status answers and keeping the positive ones is a filter. |
| `ProviderPipeline.ZipAligned` | src/ibm/quantum_compute_service_provider/mod.rs:187-197 | Zips stay aligned. |
| `ProviderPipeline.SortKeep` | src/ibm/quantum_compute_service_provider/mod.rs:199-244 | Sorting commutes with a later filter. |
| `ProviderPipeline.SortStable` | src/ibm/quantum_compute_service_provider/mod.rs:199-199 | Backends with equal queue length keep their order. |
| `ProviderPipeline.StableSortUnique` | src/ibm/quantum_compute_service_provider/mod.rs:199-199 | A sorted sequence that keeps the order of equal keys is unique, so the sorting algorithm does not matter. |
| `ProviderPipeline.FirstIsLeastBusy` | src/resource_provider.rs:74-79 | The first discovered backend has minimal queue length; nothing is found exactly if nothing satisfies the filter. |
| `ProviderPipeline.Unfiltered` | src/ibm/quantum_compute_service_provider/mod.rs:162-224 | Without a filter, discovery is about the backends that are no simulators and have a readable configuration that says so too. |
| `ProviderPipeline.OnlineOnly` | src/ibm/quantum_compute_service_provider/mod.rs:102-114 | Asking for online backends adds exactly that the status can be fetched and is active or online, in any case. |
| `ProviderPipeline.Provider.InjectBackendEnv` | src/ibm/quantum_compute_service_provider/mod.rs:96-100 | Every provider setting is stored under the backend's prefix and no other variable changes, in any order of the keys. |
| `ProviderPipeline.RequiredExactly` | src/ibm/quantum_compute_service_provider/mod.rs:70-100 | The keys a provider is refused without are exactly those without which no service could be constructed from the injected settings. |
| `ProviderPipeline.VariableNames` | src/ibm/quantum_compute_service_provider/mod.rs:96-100 | The variable of a setting is the backend's name, an underscore and the setting. |
| `ProviderPipeline.Provider.ConstructionSucceeds` | src/ibm/quantum_compute_service_provider/mod.rs:226-230 | After the injection, the look-ups of the service constructor find the provider's own settings. |
| `ProviderPipeline.Provider.Construct` | src/ibm/quantum_compute_service_provider/mod.rs:201-244 | The last filter drops exactly the candidates without a wanted, readable configuration. |
| `JobPaging.HasDedicatedActiveSession` | src/ibm/quantum_compute_service.rs:136-194 | The paging loop ends, its 32-bit offset does not overflow, and it requests 0, 200, 400, ... up to at most 2147483647, for any server. |
| `JobPaging.PagingIsFlatSearch` | src/ibm/quantum_compute_service.rs:136-194 | On a fixed job list it equals a flat search of the first 2147483800 jobs. |
| `JobPaging.FirstPageDecides` | src/ibm/quantum_compute_service.rs:136-194 | For any server, the first page that fails, is short or holds an answer decides, with its failure or its answer; otherwise the last possible page does. |
| `JobPaging.SearchMeans` | src/ibm/quantum_compute_service.rs:161-183 | The search reports the first job that is a hit or whose session look-up fails, and false exactly if there is none. |
| `JobPaging.SearchPage` | src/ibm/quantum_compute_service.rs:161-183 | The loop over one page is that search. |
| `IbmSession.Service.Acquire` | src/ibm/quantum_compute_service.rs:307-353 | A session that is still good is reused; otherwise it is closed before another is created, or the error is returned; no second known session is left open. |
| `IbmSession.Service.Release` | src/ibm/quantum_compute_service.rs:360-423 | Pending jobs decide between cancelling and closing; success forgets the retained session whichever the token names; the sessions afterwards are those of the release function for some behaviour of the server; failed and safe releases leave no known session behind. |
| `IbmSession.ReleaseSafeExactly` | src/ibm/quantum_compute_service.rs:360-423 | A release leaves no known session behind for every behaviour of the server exactly if, before it, the token is the retained one, or none is retained, or the retained one is not a known open session of this client. |
| `IbmSession.ReleaseCanLeak` | src/ibm/quantum_compute_service.rs:360-423 | The exception occurs: after acquiring its own session, a client releases another one, and its own stays open unknown. |
| `IbmSession.AnyRun` | src/ibm/quantum_compute_service.rs:307-423 | For every script, the requests are those its operations demand, step by step; and if every release passes the token in hand, at most one known session of this client is open, and it is the retained one. |
| `IbmSession.ReuseRule` | src/ibm/quantum_compute_service.rs:323-327 | For lifetimes that are not negative, a session is reused exactly if 100 * active_ttl > max_ttl. |
| `IbmSession.ReuseRuleExactly` | src/ibm/quantum_compute_service.rs:323-327 | For all 32-bit values that rule fails in exactly one case: a negative lifetime, not divisible by 100, that truncates to the active time. |
| `IbmSession.ReuseRuleFails` | src/ibm/quantum_compute_service.rs:323-327 | The case exists: a lifetime of -150 and an active time of -1. |
| `IbmSession.StillGoodExactly` | src/ibm/quantum_compute_service.rs:323-327 | The rule with missing times, which count as one. |
| `IbmSession.Service.ModesKnown` | src/ibm/quantum_compute_service.rs:334-338 | The modes batch and dedicated are known, in any case, and no others. |
| `PathExpansion.ExpandEnvVars` | src/pasqal/cloud_config.rs:161-232 | The character loop refuses exactly the texts with a malformed token and otherwise gives the values of the tokens, in order. |
| `PathExpansion.ReadDollar` | src/pasqal/cloud_config.rs:172-228 | The branches after a dollar sign read exactly one token. |
| `PathExpansion.ReadBraced` | src/pasqal/cloud_config.rs:180-198 | The inner loop finds the first closing brace, or reads to the end. |
| `PathExpansion.ReadBare` | src/pasqal/cloud_config.rs:213-222 | The inner loop reads the longest run of name characters. |
| `PathExpansion.TokensSpell` | src/pasqal/cloud_config.rs:161-232 | The tokens are the text, cut into pieces. |
| `PathExpansion.DoubledIsLiteral` | src/pasqal/cloud_config.rs:173-178 | Doubling every dollar sign and expanding gives back any text, for every environment. |
| `PathExpansion.ValueIsNotReexpanded` | src/pasqal/cloud_config.rs:207-210 | The value of a variable, in braces or bare, is inserted as it is, whatever it contains; the texts around it expand as they do alone. |
| `PathExpansion.LoneDollar` | src/pasqal/cloud_config.rs:224-225 | A dollar sign before anything else stands for itself. |
| `PathExpansion.BadBracesRefused` | src/pasqal/cloud_config.rs:193-205 | An unclosed brace, an empty name and a name with another character are refused. |
| `PathExpansion.NameCharExactly` | src/pasqal/cloud_config.rs:201-203 | The characters of names are the underscore, the ten digits and the ASCII letters. |
| `PasqalConfigFile.ParsePasqalConfigContent` | src/pasqal/cloud_config.rs:299-329 | Every field has the last value given for it; the parser panics exactly on a file with a value that is one quote character. |
| `PasqalConfigFile.PanicLine` | src/pasqal/cloud_config.rs:126-133 | A line panics exactly if its value is one quote character. |
| `PasqalConfigFile.PanicExample` | src/pasqal/cloud_config.rs:126-133 | A line that the parser does not survive. |
| `PasqalConfigFile.StripQuoted` | src/pasqal/cloud_config.rs:126-133 | Quoting a value and stripping the quotes gives it back. |
| `PasqalConfigFile.LineSets` | src/pasqal/cloud_config.rs:302-324 | A known key, in any case, sets its own field to its value. |
| `PasqalConfigFile.OtherLinesSkipped` | src/pasqal/cloud_config.rs:302-309 | Comments and lines without = set nothing. |
| `PasqalConfigFile.OnlyKnownKeysSet` | src/pasqal/cloud_config.rs:314-324 | A line sets a field only under the key of that field. |
| `IqmResults.FormatSingleCircuitResults` | python/qrmi/qiskit_iqm/iqm_provider.py:405-427 | Refuses exactly the measurements that are not one value per shot; otherwise gives the specified text of every requested shot. |
| `IqmResults.Fill` | python/qrmi/qiskit_iqm/iqm_provider.py:409-418 | The arrays hold the measured bits, each register in its own. |
| `IqmResults.AddEntry` | python/qrmi/qiskit_iqm/iqm_provider.py:410-418 | One measurement changes exactly its column of its register. |
| `IqmResults.BitPosition` | python/qrmi/qiskit_iqm/iqm_provider.py:421-427 | Counted from the end, the character for a bit, 1 or 0, stands behind the summed lengths and separators of the registers before its own, with a separator between registers. |
| `IqmResults.OffsetOfRegisters` | python/qrmi/qiskit_iqm/iqm_provider.py:421-427 | That offset is the sum of the lower registers' lengths and one separator each. |
| `IqmResults.TextLength` | python/qrmi/qiskit_iqm/iqm_provider.py:421-427 | Every text has the summed length of the registers plus the separators between them. |
| `IqmResults.BitUnmeasured` | python/qrmi/qiskit_iqm/iqm_provider.py:415-417 | A bit without a measurement is zero. |
| `IqmResults.BitOfEntry` | python/qrmi/qiskit_iqm/iqm_provider.py:418-418 | A bit with a measurement has the measured value. |
| `IqmResults.OrderIrrelevant` | python/qrmi/qiskit_iqm/iqm_provider.py:409-427 | The order of the dictionary does not matter. |
| `LogSink.NoSinkRunsUnderLock` | src/common/logging.rs:26-56 | In every reachable state, for any number of threads and any nesting, a thread that runs a sink or idles does not hold the lock. |
| `LogSink.RecordsReachCurrentSinks` | src/common/logging.rs:44-56 | Every record went to a sink that was current at some moment of its dispatch. |
| `LogSink.SetInstalls` | src/common/logging.rs:37-42 | A thread that sets a sink and finds the lock free makes it the current one and changes nothing else. |
| `LogSink.LogDelivers` | src/common/logging.rs:44-56 | A thread that logs and finds the lock free has its record go to the current sink, outside the lock. |
| `LogSink.WaiterGetsLock` | src/common/logging.rs:26-56 | From every state that keeps the invariant, each waiting thread can get the lock by steps of the library and the end of destructors alone, without any sink returning, whether or not waiting writers keep readers out. |
| `LogSink.OnlyDestructorsHoldLock` | src/common/logging.rs:37-42 | In every reachable state, user code runs under the lock exactly if it is the destructor of a replaced sink. |
| `LogSink.DestructorRunsUnderLockExactly` | src/common/logging.rs:37-42 | That happens exactly when a sink is replaced of which no call is in progress. |
| `LogSink.LoggingDestructorDeadlocks` | src/common/logging.rs:37-56 | A destructor that logs or replaces the sink there waits for its own lock forever, whatever other threads do. |
| `LogSink.RunKeepsInv` | src/common/logging.rs:37-56 | The invariant holds along every run. |
| `LuaResource.AnyRun` | lua/lua_qrmi.c:457-1208 | Any sequence of calls on a handle, ended by the finalizer: the trace grows by exactly the events of those calls, one after the other, each allowed by the ones before it, and the handle is freed. |
| `LuaResource.FreedIsLast` | lua/lua_qrmi.c:1162-1171 | Nothing happens after the handle is freed, so it is freed once. |
| `LuaResource.FreedHoldsNothing` | lua/lua_qrmi.c:1162-1171 | A freed handle holds no token. |
| `LuaResource.DetachedStaysOut` | lua/lua_qrmi.c:546-557 | A detached token is released automatically only if it was acquired again. |
| `LuaResource.LeaksExactly` | lua/lua_qrmi.c:497-514 | The handle drops a token by an event about another one exactly if an explicit release of another token succeeds. |
| `LuaResource.ReleaseSafeExactly` | lua/lua_qrmi.c:497-514 | Before the call: an explicit release drops no token unaccounted, however it ends, exactly if it names none, or none is held, or it names the held one. |
| `LuaResource.AcquiredIsAccounted` | lua/lua_qrmi.c:457-557 | Without such releases every acquired token is held, or was passed to release or detached. |
| `LuaResource.NothingHeldWhenFreed` | lua/lua_qrmi.c:1162-1171 | So by the time the handle is freed every acquired token was passed to release or detached. |
| `LuaResource.OwnTokenCanBeForgotten` | lua/lua_qrmi.c:497-514 | The exception occurs: acquire, release of another token, free, and the own token is never released. |
| `LuaResource.Resource.Acquire` | lua/lua_qrmi.c:457-476 | A held token is released first and forgotten even if that fails; the new token is the held one. |
| `LuaResource.Resource.Release` | lua/lua_qrmi.c:497-514 | The given token or else the held one; success forgets the held one, failure keeps it. |
| `LuaResource.Resource.Detach` | lua/lua_qrmi.c:546-557 | Hands out the held token without releasing it. |
| `LuaResource.Resource.ReleaseResource` | lua/lua_qrmi.c:1162-1208 | free and the finalizer: a held token is released, then the handle is freed, and nothing else; on a freed handle nothing happens. |
| `Felis.TargetRoundTrip` | src/alice_bob/felis.rs:117-127 | An ASCII target name survives the trip through its device name exactly if it has no lower-case letter and its colons are exactly its first separators, up to two. |
| `Felis.TargetRoundTripFails` | src/alice_bob/felis.rs:117-127 | A third colon and a lower-case letter do not come back. |
| `Felis.DeviceRoundTrip` | src/alice_bob/felis.rs:117-127 | An ASCII device name survives exactly if it has the prefix and neither capitals nor colons after it. |
| `Felis.Resource.TaskStart` | src/alice_bob/felis.rs:144-175 | An error of another kind than Other means no job was created; at most one job is; success means exactly the described job exists with its input; a failed upload is Other whatever it wraps; local refusals send nothing. |
| `Felis.KindsOfStatus` | src/alice_bob/error.rs:58-87 | Which statuses stand for which kind of error; all others, and no response, are Other. |

## Left out

- The Maestro socket protocol, HTTP, dlopen, C and Python bindings: an exchange is one step that gives a value, a refusal or nothing.
- The simulator settings, circuit and options that the Maestro commands carry: the commands and their order are modelled, not their arguments.
- `status`, `is_accessible`, `target` and `metadata` of all resources, and construction from the environment: one branch each.
- The texts of errors, warnings and output, the waiting between polls, and the renewal of bearer tokens.
- The process environment: names with `=` or NUL, on which `env::set_var` panics, and values that are not Unicode, which `env::var` treats as not set.
- The home directory in configuration paths and the choice of the configuration file (src/pasqal/cloud_config.rs:135-159 and 234-297).
- JSON texts, duplicate keys, numbers that are not integers, and glob matching: abstract functions.
- Case mapping beyond ASCII of Felis names, on which the standard library's tables decide.
- Poisoned locks of the log sink, and the destructor of a sink that goes with its last call, which holds no lock and counts as part of that call.
- Failure of `strdup` in the Lua binding, and calls on one handle from several Lua states.
- Felis `task_stop`, `task_status`, `task_result` and `target`: no state of their own.
- Broadcasting of measurement columns of different lengths, and measurement arrays that are not rectangular.
- The service `name` given to IQM circuits and their counts (python/qrmi/qiskit_iqm/iqm_provider.py:390-402).
- The Qiskit Runtime Service, its provider and the IBM Quantum System filter: near copies of what is modelled.
- LogSink.WaiterGetsLock: says that the lock can be had by steps of the library and the end of destructors from every state; that a scheduler takes those steps is not modelled.
- TaskRunner.Poll: the bound on the number of polls is the patience of the flag, a parameter; without a signal or a terminal status the loop of the source does not end.

# taskmaster core, modelled in Dafny

taskmaster is a process supervisor. It has two parts:

- **A daemon** reads a TOML configuration of *programs*. It keeps one *job* per program, each made of `numprocs` process instances sharing one process group. It drives every instance through the states STOPPED, STARTING, RUNNING, BACKOFF, STOPPING, EXITED and FATAL.
- **A client shell** sends `start`, `stop`, `restart`, `status`, `reload` and `quit` commands over a local socket. The socket protocol delimits messages with a carriage return.

This project models the core of the daemon and the client:

- `jobs.dfy` (module `Jobs`): the `Job` class of `internal/job/job.go`. It covers NewJob, Start with its group-leader rule, Stop, Restart, Reload, reread and setLog. Its fields are updated in place.
- `worker.dfy` (module `Worker`): the per-instance worker loop of `startJobWorker`, written as a specification over what each spawn attempt ends in. The lemmas cover retry limits, terminal states, the reset of the retry counter, and the ignored exit codes. The method `Jobs.Job.StartJobWorker` runs the loop on the job's fields and is proved against this specification.
- `environment.dfy` (module `Environment`): reread's occurrence-count check over the old and new environment lists.
- `states.dfy` (module `States`): the state names of `internal/job/states.go`.
- `manager.dfy` (module `Manager`): the `JobManager` of `internal/manager/manager.go` and `Execute` of `internal/manager/execute.go`. It covers:
  - `Init` and `reload`;
  - the autostart pass;
  - `Run` and its dispatch;
  - `setJobs`, `getStatus`, `getStatusFmt` and `finish`.

  Job operations that the manager launches as goroutines are returned as a list of tasks.
- `responses.dfy` (module `Responses`): the `Response` value and its constructors.
- `socket.dfy` (module `Socket`): `parse`, and the framing, dispatch and reply of `handleConnection` in `internal/server/socket.go`.
- `client.dfy` (module `Client`): `Send` and `Read` of `internal/client/client.go`. This includes the round trip from a line the server writes to the response the client reads back, however the line is cut into chunks. Go's `ReadString` returns a nil error only when what it read ends with the delimiter. So the empty-chunk and no-delimiter branches of the read loops (socket.go:70-79, client.go:51-59) never run in the source; the lemmas model the loops as written, those branches included.
- `interpreter.dfy` (module `Interpreter`): the shell's line classifier, `internal/parser/interpreter/interpreter.go`.
- `validator.dfy` (module `Schema`): the schema validator of `internal/parser/config/validator.go`. It covers:
  - the `required`, `default`, `min`, `max` and `enum` rules;
  - the walk into structs and maps over key paths;
  - the Setup defaults of `internal/utils/setup.go`.
- `legacy_config.dfy` (module `LegacyConfig`): `validate` and `Parse_config` of `internal/parser/config/config.go`. This is the older validator that checks `required` on a value's string form.
- Helpers:
  - `text.dfy` (`Text`): `strings.Split` and `strings.Join` for a one-character separator, and Go map iteration orders;
  - `strconv.dfy` (`Strconv`): `strconv.Atoi`, `strconv.ParseBool` and `%d`;
  - `utils.dfy` (`Utils`): `ParseSignal`, `Hello` and `DynamicWriter`;
  - `wrappers.dfy` (`Wrappers`): `Option`.

Not modelled, and passed in as parameters instead:
- **What the operating system reports.** Whether a spawn fails, how long a process ran, its exit code, and the result of `syscall.Kill`.
- **What the decoder produced.** The configuration that `config.ParseConfig` returns to the manager, and the decoded value tree with its TOML metadata that the validators walk.
- **Go map iteration order.** It is unspecified in Go. Each loop over a map either picks an order and returns it, or takes the order it is given. Either way, the contract holds for every order.

Where the source departs from its evident intent, the model follows the source:
- **0 is added to the exit codes only when the list is empty.** NewJob means to add 0 to the accepted exit codes, but `for exit := range exit_codes` ranges over indices, not codes (`Jobs.Job.constructor`).
- **Under `autorestart = "unexpected"` every exit asks for a restart.** The exit-code scan binds indices too, and its `break` leaves only the scan (`Worker.ExitCodesIgnored`). The relaunch never runs the program again. Each worker builds one `exec.Cmd` (job.go:140-143), and tryStart calls `Start` on that same command at every pass (job.go:230). `exec.Cmd.Start` refuses a command that has already started. So after the worker's first successful spawn, every later attempt fails: a restart after an exit, and a retry after an early exit, go to BACKOFF until StartRetries and then FATAL (`Worker.LateExitEndsFatal`), or go on failing for ever when StartRetries <= 0. A worker therefore writes RUNNING at most once (`Worker.RunningOnce`).
- **A Start that fails leaves the start mutex locked.** The "process could not be running" return (job.go:118) comes before `j.mustart.Unlock()`, and the lock is not deferred (job.go:97). So a later Start of the same job blocks for good. The mutexes are not modelled.
- **A group leader that never reaches RUNNING leaves Start waiting.** Start is meant to return once the leader is RUNNING or FATAL. But it waits for the leader's report, and the worker sends that only after RUNNING (`Worker.SpawnFailuresSendNoDone`). The check after the wait reads instance 0, not the leader.
- **Stop with a process group never sets the group id back to 0.** After SIGKILL and the grace period the group id is still recorded, so Stop sends the stop signal and returns, unless SIGKILL itself failed (`Jobs.Job.Stop`).
- **A request after `quit` kills the daemon.** QUIT makes Run close the action queue (manager.go:160, 289-291), but the server keeps accepting connections. A later `quit`, `reload`, or `start`/`stop`/`restart` of a known job sends on the closed queue (execute.go:42, 55). That send panics, and nothing recovers it (`Manager.ClosedQueueNeverGrows`, `Socket.Connection.HandleChunk`).
- **`states.go` and `job.go` disagree on SetState's signature.** `states.go` declares `SetState(state)` and `Is(state)` on one state string, while `job.go` calls them with an instance index on a `[]string`. The model follows `job.go`: one state per instance, with the name check of `states.go`.

## Model

| member | source | states |
|---|---|---|
| States.InvalidState | internal/job/states.go:30-31 | the refusal text is "invalid state: " followed by the refused name |
| States.RefusalNamesState | internal/job/states.go:24-33 | the refusal text of a name SetState does not accept determines that name, and is itself never an accepted name |
| Utils.Signal.Number | internal/utils/utils.go:40-59 | every signal the name table yields is a Linux signal number between 1 and 15 |
| Utils.ParseSignal | internal/utils/utils.go:40-59 | a name that is not the name of the returned signal yields SIGTERM (the default case) |
| Utils.ParseSignalName | internal/utils/utils.go:40-59 | each of the seven signal names parses back to its own signal, so the table is one-to-one |
| Utils.Hello | internal/utils/utils.go:16-19 | the greeting is "Hello " followed by exactly the name |
| Utils.DynamicWriter.constructor | internal/utils/utils.go:11-14 | a new writer has no destination and has delivered nothing |
| Utils.DynamicWriter.Write | internal/utils/utils.go:61-70 | with no destination nothing is delivered and the result is (0, ErrClosedPipe); otherwise the buffer goes to the current destination, appended to what it has received, and that destination's result is returned |
| Utils.DynamicWriter.SetWriter | internal/utils/utils.go:72-76 | later writes go to the new destination |
| Strconv.Atoi | internal/parser/config/validator.go:24 | a parsed value fits in a 64-bit int and comes from text that starts with a digit or a sign |
| Strconv.Itoa | internal/manager/manager.go:234 | the decimal rendering is non-empty, all digits, with no sign |
| Strconv.AtoiFormatInt | internal/parser/config/validator.go:107 | Atoi reads back every 64-bit integer in its decimal form |
| Text.Split | internal/parser/interpreter/interpreter.go:10 | a split gives at least one piece, and no piece holds the separator |
| Text.SplitJoin | internal/parser/config/validator.go:40-41 | splitting a join of separator-free pieces gives the pieces back |
| Text.JoinSplit | internal/parser/config/validator.go:40 | joining the pieces of a split gives the text back, so no character is lost |
| Interpreter.Command | internal/parser/interpreter/interpreter.go:10-11 | the deciding word is the prefix of the line up to its first space, or the whole line |
| Interpreter.Parse | internal/parser/interpreter/interpreter.go:9-27 | output is silent iff the first word is empty; the process exits iff the word is neither empty nor a verb; the exit code is 0 iff the word is "exit", otherwise 1 |
| Interpreter.CommandOfWord | internal/parser/interpreter/interpreter.go:10-12 | a space-free word is the command, whatever follows its first space |
| Interpreter.FirstWordDecides | internal/parser/interpreter/interpreter.go:10-12 | text after the first space never changes the outcome |
| Interpreter.LeadingSpaceIsSilent | internal/parser/interpreter/interpreter.go:13-14 | an empty line, or one starting with a space, returns without output or exit |
| Interpreter.WordOutcome | internal/parser/interpreter/interpreter.go:16-25 | "exit" prints a newline and exits 0; each verb prints "Running '<verb>'"; any other word prints the unknown-syntax line and exits 1 |
| Interpreter.QuitIsUnknown | internal/parser/interpreter/interpreter.go:23-25 | "quit" is not a shell command: it is reported unknown and exits 1, with or without arguments |
| Environment.CountTableCounts | internal/job/job.go:317-323 | the table's keys are the listed entries and each row holds that entry's number of occurrences |
| Environment.DistinctChangedIff | internal/job/job.go:316-332 | for lists without repeats, a restart is flagged iff the lists are not permutations of each other |
| Environment.PermutationUnchanged | internal/job/job.go:316-332 | reordering a repeat-free environment is never a change |
| Environment.AddedOrRemovedChanged | internal/job/job.go:316-332 | an entry in one list and not the other always flags a change |
| Environment.DoubledEntryUnnoticed | internal/job/job.go:324-330 | dropping a doubled entry is not noticed, although the multisets differ, so the check is not a multiset comparison |
| Jobs.EligibleBelowExact | internal/job/job.go:101-106 | an instance below n is in the list Start works through iff it is neither STOPPING nor running |
| Jobs.NoneEligibleWhenStopping | internal/job/job.go:102-105 | with every instance STOPPING, Start launches nothing |
| Jobs.LeaderIsFirst | internal/job/job.go:109-120 | the instance that leads a new group is the first eligible one, and it alone has been marked running when Start gives up |
| Jobs.CountInto | internal/job/job.go:318-323 | the counting loop yields the occurrence table of everything counted so far followed by the list |
| Jobs.FindUnpaired | internal/job/job.go:324-330 | the scan finds an entry iff some row is not 2, in any iteration order |
| Jobs.EnvironmentChanged | internal/job/job.go:316-332 | the two loops compute exactly the "some entry not counted twice" check |
| Jobs.Reattached | internal/job/job.go:283-297 | a writer changes only when its path changed, and then it is the new target unless the new file failed to open |
| Jobs.Job.constructor | internal/job/job.go:43-90 | NewJob copies the program; every instance is STOPPED and not running; there is no group; both writers are fresh with no destination; 0 is added to the exit codes only when the list is empty |
| Jobs.Job.SetPgid | internal/job/job.go:274 | the group id becomes the given id |
| Jobs.Job.SetState | internal/job/states.go:24-34 | the eight names are stored for the instance and nothing else changes; any other name is refused with "invalid state: <name>" and nothing changes |
| Jobs.Job.Pass | internal/job/job.go:146-189 | one loop pass leaves the state, retry counter, written states and loop end that the worker specification's Attempt gives |
| Jobs.Job.StartJobWorker | internal/job/job.go:130-197 | the worker writes exactly the states Worker.Work gives, consumes Worker.Used outcomes, and clears the instance's running flag iff it returns |
| Jobs.Job.Start | internal/job/job.go:94-128 | STOPPING or running instances are skipped and the others marked running and spawned in order; without a group, the first leads and either Start fails with "process could not be running" (instance 0 not RUNNING) or the group becomes the leader's pid; on success NumProcs dones are awaited |
| Jobs.Job.Stop | internal/job/job.go:246-277 | without a group nothing changes; with one, every instance is STOPPING, SIGKILL goes to the group, then the stop signal unless the kill failed; the error is returned and the group id is kept |
| Jobs.Job.Restart | internal/job/job.go:238-277 | Stop then Start, reporting nil; without a group Stop changes nothing and Start's effect is as Start states; with a group every instance is STOPPING, the workers of running instances that return during the grace period (none when SIGKILL failed) leave theirs STOPPED and not running, and Start relaunches exactly those instances in the existing group, with no error; an instance not running before stays STOPPING and is never spawned |
| Jobs.Job.WorkersReturn | internal/job/job.go:191-196 | each worker of a running instance that returns while the instance is STOPPING leaves it STOPPED and clears its running flag; the others stay STOPPING with their flags unchanged |
| Jobs.RelaunchedExactly | internal/job/job.go:101-110 | after a stop, Start's loop relaunches exactly the instances whose workers returned |
| Jobs.RelaunchedSpawns | internal/job/job.go:101-111 | a Start on a stopped group reports no error, keeps the group, and spawns into it exactly the instances whose workers returned |
| Jobs.Job.SetLog | internal/job/job.go:199-211 | a configured file that fails to open returns the error and leaves the writer; otherwise the writer gets the file or the daemon's stream |
| Jobs.Job.Reread | internal/job/job.go:303-356 | every setting is copied from the program; a restart is asked iff command, directory or umask differ or the environment check flags a change, and only then is the environment replaced |
| Jobs.Job.CopyPolicy | internal/job/job.go:339-353 | log paths and restart policy equal the program's afterwards |
| Jobs.Job.Reload | internal/job/job.go:279-301 | the settings are reread; when a restart is needed and some instance runs, a Restart is launched with no done and writers untouched; otherwise each writer whose path changed is re-attached and one done is sent |
| Worker.Used | internal/job/job.go:146-190 | the loop consumes no more outcomes than it is given |
| Worker.RunFromStates | internal/job/job.go:146-190 | a loop that ends stops in BACKOFF, STOPPING or EXITED |
| Worker.TerminalStates | internal/job/job.go:191-196 | a worker that returns leaves its instance FATAL, STOPPED or EXITED |
| Worker.FailuresCount | internal/job/job.go:149-175 | each failing attempt adds one BACKOFF and raises the counter; the loop ends on the attempt that makes the counter equal StartRetries, and not before |
| Worker.RetryLimitReached | internal/job/job.go:153-192 | with StartRetries N >= 1 and failing attempts, exactly N BACKOFFs, then FATAL, after exactly N attempts |
| Worker.NoLimitNeverEnds | internal/job/job.go:153-155 | with StartRetries <= 0 failing attempts never end the loop |
| Worker.ExitResetsRetries | internal/job/job.go:178-179 | a run that lasts StartSecs resets the counter, restoring the full retry budget |
| Worker.ExitWithoutRestart | internal/job/job.go:180-182 | under autorestart "false" such a run ends the worker with the instance EXITED |
| Worker.StopEndsStopped | internal/job/job.go:166-194 | an exit seen while STOPPING ends the worker with the instance STOPPED |
| Worker.ExitCodesIgnored | internal/job/job.go:183-189 | exit codes never change the run under any autorestart mode |
| Worker.SpawnFailuresSendNoDone | internal/job/job.go:147-162 | a worker whose spawns all fail never writes RUNNING, so never sends the done Start waits for |
| Worker.FailuresAddNoRunning | internal/job/job.go:147-157 | spawn failures add no RUNNING to what the worker writes |
| Worker.RunningAtMostOnce | internal/job/job.go:140-162 | on the outcomes one command allows (every pass after a successful spawn fails to spawn), the loop writes RUNNING at most once more |
| Worker.RunningOnce | internal/job/job.go:140-196 | a whole worker on such outcomes writes RUNNING at most once |
| Worker.LateExitEndsFatal | internal/job/job.go:178-189 | under autorestart other than "false", a run lasting StartSecs is followed by StartRetries failed respawns and FATAL, with no second RUNNING |
| Responses.NewResponse | internal/manager/execute.go:14-19 | no body and no error |
| Responses.NewResponseWithBody | internal/manager/execute.go:21-26 | exactly the given body and no error |
| Responses.BadRequest | internal/manager/execute.go:28-33 | no body and exactly the given error |
| Responses.ContentOnlyFromBody | internal/manager/execute.go:35-37 | a response has content iff its body is non-empty; empty responses and bad requests never do |
| Manager.Launch | internal/manager/manager.go:195-199 | one task with the operation per name, in order |
| Manager.Refresh | internal/manager/manager.go:106-121 | per configured name in order: Reload with its new program when the job existed, Start otherwise |
| Manager.RefreshSameAnswers | internal/manager/manager.go:108-112 | the second pass depends only on whether each name is already in the table |
| Manager.StatusLines | internal/manager/manager.go:233-238 | one "[name_i]: state" line per instance, in instance order |
| Manager.StateList | internal/manager/execute.go:52-54 | the STATUS body is the states separated by spaces in brackets |
| Manager.StatusTextLines | internal/manager/manager.go:232-239 | a multi-instance status splits on newlines into exactly one line per instance |
| Manager.SingleStatus | internal/manager/manager.go:228-230 | a single-instance status is one line "[name]: state" with no instance number |
| Manager.GetStatusFmt | internal/manager/manager.go:227-240 | the += loop builds exactly the job's status text |
| Manager.QueuedAnswers | internal/manager/execute.go:39-58 | an action Execute queued is never answered with the argument error; its only possible failure is a job gone from the table |
| Manager.JobManager.constructor | internal/manager/manager.go:38-44 | a new manager holds its configuration path, no jobs and an empty open queue |
| Manager.JobManager.Init | internal/manager/manager.go:46-75 | a parse error is returned; a program named "all" is refused; otherwise one new NewJob per program under its name; the table is untouched on error |
| Manager.JobManager.Reload | internal/manager/manager.go:77-133 | a parse error leaves the table; otherwise stale jobs get Stop and leave, existing ones get Reload, new ones are made and get Start, and the table ends keyed by exactly the configured names |
| Manager.JobManager.RemoveStale | internal/manager/manager.go:94-103 | exactly the unconfigured jobs are stopped and removed; every other job stays as it was |
| Manager.JobManager.AddConfigured | internal/manager/manager.go:105-121 | every configured name is visited once; old jobs are kept and new names get a freshly configured job |
| Manager.JobManager.Launches | internal/manager/manager.go:105-121 | the goroutines of the second pass are Refresh of the order it visits |
| Manager.JobManager.MakeNew | internal/manager/manager.go:115-118 | names not yet in the table get a fresh NewJob from their program; existing entries are unchanged |
| Manager.Statuses | internal/manager/manager.go:263-269 | each listed job's status text, in order |
| Manager.Autostarted | internal/manager/manager.go:138-142 | a name is kept iff it is listed and its job has Autostart set |
| Manager.JobManager.Start | internal/manager/manager.go:135-149 | in some map order, exactly the autostart jobs get Start in that order |
| Manager.JobManager.LaunchAll | internal/manager/manager.go:193-205 | every job gets the operation exactly once, in some map order |
| Manager.JobManager.SetJobs | internal/manager/manager.go:207-225 | a wrong argument count or unknown name fails with Done false and no task; one name launches its job's operation, which answers Done; "all" launches every job and answers Done true |
| Manager.JobManager.GetStatus | internal/manager/manager.go:242-274 | the same errors as setJobs; one job answers its status text, "all" every job's text separated by newlines; Done true |
| Manager.JobManager.Finish | internal/manager/manager.go:289-291 | the queue is closed |
| Manager.JobManager.Dispatch | internal/manager/manager.go:154-184 | one action is handled as Handled states from the table before it: QUIT stops every job in some map order, answers Done true and closes the queue; RELOAD answers Done true and leaves the table reload makes (unchanged on a parse error); the job verbs answer and launch as setJobs does, STATUS answers as getStatus does, both leaving the table; an unknown verb is refused; jobs a reload adds are fresh and configured |
| Manager.HandledAnswers | internal/manager/manager.go:154-184 | a handled action's reply carries the data and Done value its verb sends |
| Manager.QueuedStillKnown | internal/manager/manager.go:207-221 | a job verb queued for a job still in the table launches that job's operation alone, leaves the table, and leaves the reply to the operation |
| Manager.ServedRound | internal/manager/manager.go:151-186 | in a served history, round k is handled from the table round k-1 left, with the configuration of the reloads before it |
| Manager.JobManager.Run | internal/manager/manager.go:135-186 | start launches Start for exactly the autostart jobs in some map order of the initial table; then the actions are taken in queue order, each handled as Handled states from the table the previous one left, reloads parsing successive configurations; none is taken after a QUIT; the queue is closed iff the last taken was QUIT, and otherwise it is empty |
| Manager.JobManager.Serve | internal/manager/manager.go:152-185 | the loop of Run: the same history from the table it starts with |
| Manager.JobManager.Round | internal/manager/manager.go:153-184 | the next action leaves the queue and is dispatched on the table the history left, with the configuration its reloads select; the served history grows by that round, and the queue is closed iff the action was QUIT |
| Manager.JobManager.Execute | internal/manager/execute.go:39-59 | as Executed states: QUIT/RELOAD are queued; job verbs need one argument naming a known job; STATUS answers the job's states at once; others are queued as they are; unknown verbs are refused; a request that would be queued after finish closed the queue panics instead and the queue is unchanged; only the queue changes |
| Manager.JobManager.Enqueue | internal/manager/execute.go:42-43 | on an open queue the action is appended and an empty response returned; on a closed queue (manager.go:289-291) the send panics and the queue is unchanged |
| Manager.ClosedQueueNeverGrows | internal/manager/execute.go:39-59 | once the queue is closed Execute never adds to it, and its send panics exactly for QUIT, RELOAD and a well-formed START, STOP or RESTART of a known job |
| Socket.Word | internal/server/socket.go:32-34 | the longest separator-free prefix of the text |
| Socket.Fields | internal/server/socket.go:32-34 | every field is non-empty and separator-free, and there are none iff the text is blank |
| Socket.WordOfField | internal/server/socket.go:32-34 | a field followed by a separator or nothing is read as that field |
| Socket.FieldsOfJoin | internal/server/socket.go:32-34 | fields joined by single spaces split back into the same fields |
| Socket.Parse | internal/server/socket.go:31-39 | the command and arguments are exactly the non-blank line's fields; a blank line is excluded because args[0] panics |
| Socket.ParseJoin | internal/server/socket.go:31-39 | a command line written with single spaces parses back to its command and arguments |
| Socket.Frame | internal/server/socket.go:70-79 | an empty chunk is skipped; one without the delimiter is buffered after the buffer; otherwise the line is the buffer and chunk without the delimiter |
| Socket.Wire | internal/server/socket.go:87-91 | the reply is the error text if any, else the body, then the delimiter |
| Socket.Connection.constructor | internal/server/socket.go:20-25 | a new connection has nothing buffered and nothing written |
| Socket.Connection.HandleChunk | internal/server/socket.go:70-91 | partial chunks only update the buffer; a blank line panics; a complete non-blank line is parsed and executed, and the manager's outcome and queue are as Executed states for that command on the queue as it is, open or closed; an answer writes exactly Wire of its response, a send on the closed queue panics and writes nothing; the buffer is cleared |
| Client.Send | internal/client/client.go:35-38 | the bytes written are the line followed by the delimiter |
| Client.ReadFromShape | internal/client/client.go:40-66 | a read with content ends on a chunk ending with the delimiter; an error response carries the error of the last read; reads are used only when there is input |
| Client.ReadOn | internal/client/client.go:51-58 | a chunk that does not complete a line costs one read and changes only the buffer |
| Client.ReadDone | internal/client/client.go:61-64 | a chunk that completes a line answers with that line and clears the buffer |
| Client.ReadPieces | internal/client/client.go:40-66 | delimiter-free pieces then one ending with the delimiter read as one answer: all text buffered and read minus the delimiter |
| Client.SendThenRead | internal/client/client.go:35-66 | whatever a peer sends with Send, however it is cut into chunks, Read returns the line itself and leaves the buffer empty |
| Client.SendThenReadOnce | internal/client/client.go:35-66 | Send(x) read in one piece gives x |
| Client.Connection.constructor | internal/client/client.go:18-29 | a new client has nothing buffered |
| Client.Connection.Read | internal/client/client.go:40-66 | the read loop returns the response, reads used and buffer that ReadFrom specifies |
| LegacyConfig.StringForm | internal/parser/config/config.go:35 | a value's string form is empty iff it is the empty string |
| LegacyConfig.CheckRules | internal/parser/config/config.go:31-43 | the rules fail iff one is "required" and the string form is empty, with "<Field> is required" |
| LegacyConfig.CheckField | internal/parser/config/config.go:29-43 | a field fails its tag iff the tag lists required and the value is the empty string |
| LegacyConfig.ValidateFields | internal/parser/config/config.go:24-60 | any error validate returns is a "... is required" error |
| LegacyConfig.ValidateEntries | internal/parser/config/config.go:47-56 | any error of the map loop is a "... is required" error |
| LegacyConfig.TagOnlyChecks | internal/parser/config/config.go:29-43 | once its required check passes, the field is treated as if untagged |
| LegacyConfig.RequiredEmptyFails | internal/parser/config/config.go:34-40 | an empty required string fails with "<Field> is required" before anything else |
| LegacyConfig.UntaggedScalarSkipped | internal/parser/config/config.go:44-57 | an untagged scalar field is not checked |
| LegacyConfig.StructFieldDecides | internal/parser/config/config.go:45-46 | a struct field answers for the whole struct; later fields are never checked |
| LegacyConfig.MapFieldThenRest | internal/parser/config/config.go:47-56 | a map field yields its first entry error, otherwise validation continues with the rest |
| LegacyConfig.EntriesFirstError | internal/parser/config/config.go:48-55 | the map loop passes iff every entry does, else returns the first failing entry's error |
| LegacyConfig.Entries | internal/parser/config/config.go:20-22 | one entry per listed program, in order, holding its struct |
| LegacyConfig.ProgramCheck | internal/parser/config/config.go:11-18 | a program fails only on an empty Command; required on a bool never fails |
| LegacyConfig.EntriesCheck | internal/parser/config/config.go:47-56 | the map loop fails with "Command is required" iff some program has an empty command, in any order |
| LegacyConfig.ConfigCheck | internal/parser/config/config.go:20-22 | validating a Config fails iff some program has an empty command, in any order |
| LegacyConfig.ParseConfig | internal/parser/config/config.go:62-83 | the validation error wins over the decode error, with nothing printed; otherwise every program is listed and the decode error returned |
| Schema.HandleMin | internal/parser/config/validator.go:23-29 | a non-numeric bound fails as malformed; otherwise it passes iff the bound is at most the int value, an interface being asserted through to what it holds, and panics on a non-int; a numeric bound's failure text is "<field> must be less than <bound>" |
| Schema.HandleMax | internal/parser/config/validator.go:31-37 | the same with the bound at least the value; its failure text also says "<field> must be less than <bound>" |
| Schema.HandleEnum | internal/parser/config/validator.go:39-42 | a string value passes iff it is one of the pipe-separated alternatives; the error lists them as %v prints a slice; an interface is asserted through to what it holds; a non-string panics |
| Schema.ParseRule | internal/parser/config/validator.go:83-88 | the name is the rule up to its first "="; neither part holds "=" |
| Schema.ParseRuleOf | internal/parser/config/validator.go:83-88 | "name=value" parses to (name, value), a bare name to (name, "") |
| Schema.ApplyRule | internal/parser/config/validator.go:89-122 | a rule keeps the value's kind; required passes iff the key is defined; default leaves a defined key alone and refuses non-scalars; unknown names panic |
| Schema.MinRuleStep | internal/parser/config/validator.go:23-29 | applied by the rule switch (validator.go:117-122), a min rule stops with the malformed text on an unparsable bound, keeps an int value at least the bound, stops with "<field> must be less than <bound>" on a smaller one, and panics on a non-int, whether the key is defined or not |
| Schema.MaxRuleStep | internal/parser/config/validator.go:31-37 | applied by the rule switch (validator.go:117-122), a max rule does the same with an int value at most the bound kept |
| Schema.EnumRuleStep | internal/parser/config/validator.go:39-42 | applied by the rule switch (validator.go:117-122), an enum rule keeps a string value that is one of the alternatives, stops with "<field> must be in [alternatives]" otherwise, and panics on a non-string |
| Schema.DefaultFills | internal/parser/config/validator.go:99-113 | on a missing key a bool or int default is parsed and stored or refused; a string is stored as given |
| Schema.RulesResult | internal/parser/config/validator.go:82-123 | the rule loop never changes a value's kind |
| Schema.FirstFailureDecides | internal/parser/config/validator.go:82-122 | the first failing rule decides; later rules are never run |
| Schema.UnknownRulePanics | internal/parser/config/validator.go:117-118 | a rule outside the schema table, required and default calls a nil function and panics |
| Schema.TagResult | internal/parser/config/validator.go:80-124 | the tag stage keeps the field value's kind |
| Schema.FieldResult | internal/parser/config/validator.go:74-131 | validating a field changes only its value |
| Schema.StructResult | internal/parser/config/validator.go:73-134 | the struct keeps its number of fields |
| Schema.EntryResult | internal/parser/config/validator.go:56-66 | an entry keeps its key; an interface-kind value is skipped, passing unchanged |
| Schema.InterfaceMapSkipped | internal/parser/config/validator.go:56-66 | a map whose values are all interfaces passes unchanged |
| Schema.MapResult | internal/parser/config/validator.go:55-66 | the map keeps its number of entries |
| Schema.RulesInOrder | internal/parser/config/validator.go:82-123 | rules run in sequence; the second part runs on what the first leaves, only if it passed |
| Schema.DefinedKeptAsIs | internal/parser/config/validator.go:89-98 | no rule changes a value whose key is defined |
| Schema.RequiredMissing | internal/parser/config/validator.go:91-94 | a required field with an undefined key fails with "<Field> is required", unchanged |
| Schema.DefaultMissing | internal/parser/config/validator.go:95-116 | a default on a missing key stores a value of the field's kind or fails leaving the field, and never panics |
| Schema.DefinedFieldKept | internal/parser/config/validator.go:89-98 | a scalar field with a defined key is left exactly as it is |
| Schema.StructFirstFailure | internal/parser/config/validator.go:74-132 | a struct passes iff each field passes; otherwise it ends with the first failing field's status |
| Schema.MapFirstFailure | internal/parser/config/validator.go:56-66 | a map passes iff each entry passes under its key; otherwise it ends with the first failing entry's status |
| Schema.DefaultString | internal/parser/config/validator.go:112-113 | a string default field passes, keeping the document's value or getting the default |
| Schema.SetupDefaults | internal/utils/setup.go:8-12 | validating a Setup passes: missing socket and config get their defaults, given ones and the prompt are kept |
| Schema.SetupThroughPtr | internal/utils/setup.go:26 | the same when validation starts from `&setup`, as ParseSetupFile calls it |
| Schema.ApplyRules | internal/parser/config/validator.go:82-123 | the rule loop computes RulesResult |
| Schema.ValidateField | internal/parser/config/validator.go:75-131 | the loop body for one field computes FieldResult |
| Schema.ValidateStruct | internal/parser/config/validator.go:73-134 | validate_struct computes StructResult: fields in order, the first error or panic ending it |
| Schema.ValidateEntry | internal/parser/config/validator.go:57-65 | one map entry computes EntryResult and hands back the path it was given |
| Schema.Validate | internal/parser/config/validator.go:50-71 | validate computes ValueResult: one pointer or interface followed, a nil one passing |
| Schema.ValidateKind | internal/parser/config/validator.go:54-69 | the kind switch computes KindResult, the map loop keeping the path unchanged between entries |

## Left out

- Goroutines, channels, mutexes and the WaitGroup are not modelled. Concurrent operations become lists of launched tasks. A done channel becomes a count of dones sent or awaited. The start and stop mutexes are not modelled, and neither is Stop's mutex staying locked on its early returns.
- Restart launched by Reload is asynchronous, so its interleaving with other operations is not modelled. `Jobs.Job.Restart` runs Stop and Start in sequence on one state. The only concurrent effect it takes in is the set of workers that return during Stop's grace period, a parameter.
- Process spawning, waiting, `syscall.Kill`, opening log files, privilege de-escalation and `os.Exit` are outside the model. Their results are parameters: spawn outcomes, kill results, open errors, the leader's pid, and whether instance 0 reads RUNNING.
- Timing is outside the model. Sleeps, the StartSecs window, the StopWaitSecs polling and wall-clock reads are folded into each spawn outcome.
- `HasPgid`, `IsRunning` and `SetPgid` are not part of this model's source files. They are taken to mean `pgid != 0`, "some running flag is set" and a plain store.
- Jobs.Job.constructor: a negative numprocs makes NewJob panic in `make` (job.go:56, 61), so the daemon dies during Init or a reload; the model takes NumProcs as a nat and does not model that panic.
- Jobs.Job.Stop: does not model another goroutine clearing the group during the grace period, so the branch that waits and sets the group id to 0 is never reached.
- Jobs.Job.Restart: does not model a worker that sleeps in BACKOFF during the grace period. Such a worker wakes, writes STARTING over STOPPING and tries to spawn again (job.go:147, 156-157). The model has every instance STOPPING until its worker returns.
- Worker.ExitResetsRetries, Worker.ExitCodesIgnored: they hold for every outcome sequence, including ones with a second outcome other than SpawnFailed, which one `exec.Cmd` per worker rules out (job.go:140-143, 230). Such a sequence describes a run the source cannot produce; `Worker.OneCommand` names the sequences it can, and `Worker.LateExitEndsFatal` states what a restart then comes to. The same holds for `Worker.Work` and `Jobs.Job.StartJobWorker` given such outcomes.
- Manager.JobManager.Run: stops when the queue is empty, where Run would block. The reload error is ignored, as Run ignores it. Replies are values, not channel sends. Actions that `Execute` queues carry nil `Data` and `Done` channels (execute.go:42, 55), and a send on a nil channel blocks forever. So the source's Run blocks for good on `action.Done <- true` after QUIT (manager.go:161), after RELOAD (manager.go:167) and after "all" (manager.go:204). The model's Run keeps taking actions after those rounds. A single job's operation gets the nil channel as its done, so its deferred `_done <- true` (job.go:95, 247) never completes either.
- Manager.JobManager.Reload: the second pass over the configuration is one loop in the source. The model takes it as two loops over the same order: the goroutines it launches, then the jobs it makes. It does not refuse a program named "all", and neither does the source.
- Manager.JobManager.Execute: the queue is a channel with one buffered slot (manager.go:41). A send completes at once while the slot is free and blocks while an earlier action is still unread. Each queued action carries nil `Done` and `Data` channels, so Run stops receiving after the first round that sends a reply. From then on one more send fills the slot, and the next one blocks for good. The model appends to the queue at once. The STATUS branch passes `j.State`, a `[]string` (job.go:27), to `NewResponseWithBody(data string)` (execute.go:21, 53). That does not compile, because the files come from different revisions. For this mismatch the model chooses the body "[S0 S1 ...]", the way `%v` renders a slice.
- `logger`, `server.go` (except the DEL constant), the signal bridge, `main` and `ParseSetupFile`'s file I/O are not part of this model.
- The socket's I/O loop is not modelled: `select` on done, the sleep after a read error, and EOF closing the connection. Only the handling of one successful chunk is modelled.
- Client.Connection.Read: the delimiter parameter is fixed to DEL, the only value its callers pass.
- TOML decoding and reflection are replaced by explicit value trees. The metadata is the set of defined key paths. `reflect.Value.Set` in place is modelled by returning the updated tree. Pointer aliasing is not modelled.
- Schema.ValidateEntry: Go's `append` on the shared path slice can alias between calls; the model treats the path as a value.
- Schema.Validate: the exported `config.Validate` that `setup.go` calls is not part of this model; it is assumed to call `validate` with an empty path. The root is assumed to be a pointer, as setup.go:26 passes `&setup`. A bare struct root, and a value held in an interface root (`ValueResult` follows an interface as it follows a pointer), are not addressable. So storing a default in either makes `Set` panic (validator.go:105-113), while the model stores the default.
- `fmt.Errorf(err)` in validate_struct treats the rule's message as a format string. The model keeps the message as literal text, so a "%" in a field name or tag value is not rendered as fmt would.
- LegacyConfig.ParseConfig: the print order of the program listing is a parameter, and printing is returned as text instead of written to stdout.
- `utils.Logf`, `utils.Errorf` and `OpenLogFile` are I/O and are not modelled.

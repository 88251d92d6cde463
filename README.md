# natzka-exercise supervisor, modelled in Dafny

The program reads a list of tasks. Each task has a name, an executable path,
arguments, a list of non-error exit codes and a restart condition
(`Never`, `OnError` or `Always`). The program launches each task and then
supervises it forever. Each pass of its loop asks every child, in order,
whether it has ended. An exit not seen before is reported as `Stopped-Ok`
when the child has an exit code and as `Stopped-Err` when it has none. The
restart condition then decides whether the task's executable is launched
again, which is reported as `Restarted`. Every failure to query or to
launch a child is an `unwrap` that aborts the whole supervisor.

This project models that core, which is all of `src/main.rs` except
command-line and file handling:

- `wrappers.dfy` holds `Option` and `IoResult`, the result of a call into the operating system.
- `config.dfy` holds the configuration entry (`ProcessConfig`), the restart condition, the exit status, Rust's integer widths and the spawn request `new_process` makes.
- `events.dfy` holds the four event kinds (`MajorEvents`), their fixed description and type texts from `printerror`, and predicates over an event log.
- `supervisor.dfy` has one poll of one record as a function (`PollRecord`), the body of `for service in &mut servicevec`. It also has a record's history over many polls (`Run`) and the per-policy properties of those histories.
- `registry.dfy` covers the whole registry as values. `Start` is `start_services`, `Cycle` is one pass of the loop over all records, and `Cycles` is the loop bounded to a given number of passes. They come with independence and panic properties.
- `runtime.dfy` is the imperative form. The class `Record` is `ChildAndConfig`, with fields updated in place by `Poll`. `StartServices` builds the vector of records. `PollCycle` and `Supervise` update the records in place. Each method is proved equal to the value-level function it implements.
- `relaunch.dfy` covers the status that is kept across a relaunch, the code as written against a poll that clears it (see "## Findings").

The operating system is not called. Each answer it would give is an input
instead:

- A `PollInput` holds the result of `try_wait` (an error, still running, or ended with or without an exit code).
- It also holds the result of the spawn that a relaunch would make (an error, or the new child's pid).

Outputs are the events reported, in order, and the spawn requests made, in
order. A `panicked` flag stands for an `unwrap` that failed. After a panic
nothing more happens and the records stay as the source leaves them.

Three behaviours of the code are modelled as written:

- Any exit code, zero or not, counts as `OkStopped`. The task's `non_error_codes` are never read.
- A relaunch spawns the task's path alone. The task's `arguments` are never passed.
- After a relaunch the record still stores the status just observed for the old child.

The intended behaviour differs from the code in two places. A relaunched
record should be running again, with no stored status, and a relaunch
should pass the task's arguments. The model follows the code in both cases.
The first difference is listed under "## Findings".

## Model

| member | source | states |
|---|---|---|
| Supervisor.Classify | src/main.rs:142-145 | an ended child is always a stop; it is `OkStopped` exactly when it has an exit code, whatever the code |
| Supervisor.PollIsEdgeTriggered | src/main.rs:138-164 | a poll reports something iff the child is seen ended now and the previous poll had not seen it ended; a child already seen ended only has its status stored again |
| Supervisor.PollReportsStopThenRestart | src/main.rs:141-162 | a poll reports nothing, a stop, or a stop then `Restarted`; the stop carries the classification and the old pid, `Restarted` the new pid; `Restarted` appears iff a spawn was requested and succeeded |
| Supervisor.PollAppliesPolicy | src/main.rs:149-162 | a spawn is requested iff the exit is new and the restart condition says so (never for `Never`, only without an exit code for `OnError`, always for `Always`); the request is the task's path with no arguments |
| Supervisor.PollStoresObservation | src/main.rs:138-164 | the configuration never changes; a poll panics iff `try_wait` fails or a requested spawn fails; a panic leaves the record as it was; otherwise the observed status is stored, also after a relaunch |
| Supervisor.PollIgnoresArgumentsAndCodes | src/main.rs:137-165 | two records differing only in arguments and non-error codes poll identically |
| Supervisor.RunStoresLastObservation | src/main.rs:136-165 | over any number of polls the configuration is kept; a history without a panic saw only successful queries and stores the last status observed |
| Supervisor.RunLogWellFormed | src/main.rs:147-161 | in any history every `Restarted` directly follows a stop of the same task |
| Supervisor.RunSpawnsPathsOnly | src/main.rs:149-162 | in any history every spawn request is the task's path with no arguments, and without a panic there are exactly as many `Restarted` events as spawn requests |
| Supervisor.NeverKeepsChild | src/main.rs:149-150 | under `Never` the child is never replaced, nothing is spawned and no `Restarted` is reported |
| Supervisor.NeverReportsAtMostOneStop | src/main.rs:138-164 | under `Never`, while an ended child stays ended, at most one stop is reported, and only after an exit was observed |
| Supervisor.RunReportsFirstExit | src/main.rs:138-147 | whatever the policy, a record starting with no stored status reports the first exit it observes: a history without a panic that saw an exit holds at least one stop |
| Supervisor.NeverReportsExactlyOneStop | src/main.rs:138-164 | under `Never`, while an ended child stays ended, a record starting with no stored status and not panicking reports exactly one stop iff some poll saw the child ended, and never more than one |
| Supervisor.OnErrorRestartsFollowErrors | src/main.rs:151-156 | under `OnError` every `Restarted` directly follows an `ErrStopped` |
| Supervisor.OnErrorRestartsOnlyAfterErrors | src/main.rs:151-156 | under `OnError` no `Restarted` follows an `OkStopped` |
| Supervisor.OnErrorRelaunchesEveryError | src/main.rs:151-156 | under `OnError`, without a panic, every `ErrStopped` is directly followed by `Restarted` |
| Supervisor.AlwaysRestartsAfterEveryStop | src/main.rs:158-161 | under `Always`, without a panic, every stop of either kind is directly followed by `Restarted` |
| Supervisor.StaleStatusStrandsRecord | src/main.rs:141-164 | a record that stores an ended status while every later poll finds its child ended is never reported, relaunched or changed again |
| Events.TablesIdentifyKind | src/main.rs:101-113 | the description table and the event-type table each tell the four kinds apart |
| Registry.StartRecordsEachTask | src/main.rs:78-86 | `start_services` makes one record per task in input order, with the spawned pid and no status, and reports one `Started` per record with that pid; without a panic every task has its record |
| Registry.StartPanicsAtFirstFailure | src/main.rs:78-92 | `start_services` panics iff some spawn fails, and then at the first failure: the tasks before it have records, the rest do not |
| Registry.StartSpawnsPathsOnly | src/main.rs:78-92 | `start_services` requests one spawn per task it reaches, in order, each the task's path with no arguments |
| Registry.StartPanicSticks | src/main.rs:78-86 | after a failed spawn the later tasks change nothing |
| Registry.CycleKeepsConfigs | src/main.rs:137-165 | a pass of the loop never changes any record's configuration |
| Registry.CyclePollsEachRecordAlone | src/main.rs:137-165 | a pass panics iff polling some record on its own would; without a panic each record ends as polling it alone would, and the events are the records' own events in registry order |
| Registry.CyclePanicsAt | src/main.rs:137-165 | a pass whose poll of record `j` panics ends there: the records from `j` on keep their values, and the events and spawns are those up to and including record `j` |
| Registry.CycleStopsAtFirstPanic | src/main.rs:137-165 | when record `j` is the first whose poll panics, the records before it are as polled alone, it and the later records are untouched, and the events are those of records `0..j` |
| Registry.CycleLogWellFormed | src/main.rs:137-165 | in the events of a pass every `Restarted` directly follows a stop of the same task |
| Registry.CyclePanicSticks | src/main.rs:137-165 | after a panic in a pass, the later records are left untouched |
| Registry.CyclesFollowEachRecord | src/main.rs:136-166 | after several passes without a panic, each record is where its own history of polls alone takes it, and that history did not panic |
| Registry.CyclesLogWellFormed | src/main.rs:136-166 | in the events of several passes every `Restarted` directly follows a stop of the same task |
| Registry.CyclesPanicSticks | src/main.rs:136-166 | once a pass has panicked, later passes change nothing |
| Runtime.Record.constructor | src/main.rs:79-83 | a new record holds the spawned pid, the task's configuration and no status |
| Runtime.Record.Poll | src/main.rs:138-164 | updating a record in place does exactly what `PollRecord` says on its old value |
| Runtime.StartServices | src/main.rs:74-88 | builds a vector of fresh, distinct records whose values, events, spawn requests and panic are exactly those of `Start` |
| Runtime.PollCycle | src/main.rs:137-165 | polling the records of the vector in place, in order, gives exactly the values, events, spawns and panic of `Cycle` on the old values |
| Runtime.Supervise | src/main.rs:136-166 | running the loop for the given passes in place gives exactly what `Cycles` gives on the old values |
| StatusAfterRelaunch.PollIntended | src/main.rs:153-164 | the intended poll keeps the record invariant: after a poll without a panic the record holds a status exactly when its current child was seen ended and not replaced |
| StatusAfterRelaunch.IntendedPollAlways | src/main.rs:158-164 | under `Always` and with no stored status, the intended poll keeps no status, panics iff the query fails or the relaunch after an exit fails, and reports one stop and one `Restarted` per observed exit |
| StatusAfterRelaunch.IntendedAlwaysForgetsStatus | src/main.rs:158-164 | under `Always`, over any history of intended polls, the configuration is kept, no status is ever stored, and a panic happens iff some query or relaunch fails |
| StatusAfterRelaunch.IntendedAlwaysReportsEveryExit | src/main.rs:158-164 | under `Always`, over any history of intended polls without a panic, the number of stops and the number of `Restarted` events both equal the number of polls that found the child ended |
| StatusAfterRelaunch.QuickExitAfterRestartGoesUnreported | src/main.rs:158-164 | as written, under `Always`: after one relaunch, a new child found ended by every later poll is never reported nor relaunched, so of `1 + n` observed exits only one stop is reported |

## Left out

- Command-line parsing and the configuration file check (`get_path`, `Cli`) are not modelled. They come before the supervision core.
- Reading the configuration file and parsing it as TOML (`toml::from_str(..).unwrap()`) are not modelled. `Start` receives the already parsed task list, so a parse failure, which panics, is not modelled.
- Process creation and status queries are not performed. Their results are inputs: the `IoResult` of `try_wait` and of each spawn.
- Standard output is piped into each child and never read. The model does not capture the pipe or the risk that a child blocks on a full pipe.
- Log lines are not formatted. The timestamp from the local clock, the line layout and `eprintln!` are left out. An event keeps its kind, task name and pid, and the two fixed texts are modelled.
- The loop in `main` never ends. `Cycles` and `Supervise` run it for a given finite list of passes, each with one answer per record.
- Exit codes are Rust's `i32` values as `ExitStatus::code` returns them. What a platform puts in them is not modelled, and no signal numbers are carried.
- Supervisor.NeverReportsAtMostOneStop, Supervisor.NeverReportsExactlyOneStop: assume that once the operating system reports a child ended, it keeps reporting it ended. The source relies on this without stating it.

## Findings

| source | as written | input that shows it | evidently intended | confidence | as-written member | corrected member |
|---|---|---|---|---|---|---|
| src/main.rs:164 | after a relaunch the record stores the old child's ended status, so the new child is treated as already seen ended | restart condition `Always`; one poll finds the child ended and the relaunch succeeds; the new child has ended by the next poll, and every later poll finds it ended: one stop is reported, the second exit never is, and the task is never relaunched again | a relaunched record is running again, with no stored status, so every exit is reported and relaunched | not executed | StatusAfterRelaunch.QuickExitAfterRestartGoesUnreported | StatusAfterRelaunch.IntendedAlwaysReportsEveryExit |

# granules, modelled in Dafny

granules is a TypeScript orchestrator that splits work into small task
records called *granules* and hands them to worker processes. This project
models its core and proves properties of that model:

- **The granule store**, in two implementations of one contract:
  - `GranuleStore` (src/store.ts), kept in memory;
  - `FileStore` (src/file-store.ts), which adds retry accounting, content
    updates with a content hash, and a full snapshot written after every
    successful change.

  Creating a granule issues the id `G-<n>` from a counter. A claim moves a
  granule from unclaimed to claimed. Release and complete are allowed only
  for the worker that holds the claim. Claims older than a threshold are
  reclaimed.
- **The orchestrator's tick** (src/orchestrator.ts). A tick:
  - releases stale claims;
  - forgets workers whose process has ended;
  - spawns one worker per unclaimed granule, in list order, up to
    three active workers, with worker ids `W-<n>` taken from a second
    counter.

  `start` bootstraps an empty store with a plan granule. `stop` empties the
  active set.
- **The session log** (src/session-log.ts). It is an append-only list of work
  sessions, with at most one running at a time.
- **The dashboard's model-level parts** (src/ui.ts):
  - `truncate` and `formatDuration`;
  - the counts and worker lines `update` builds;
  - the line editor behind the stdin key handler.
- **The command-line parser** `parseArgs` (src/index.ts).

## How the model is built

- Every `Date.now()` is a parameter `now`.
- A JavaScript `Map` is modelled as a Dafny `map` together with a `seq` of its
  keys in insertion order, because listing order matters to dispatch.
- Classes whose fields the source updates in place are Dafny classes with
  the same fields, and their methods state the whole new state. The two
  stores and the orchestrator also keep an invariant `Valid()`. The session
  log and the dashboard need none: their methods are total over every state.
- Loops are `while`/`for` loops proved against specification functions:
  - `releaseStaleClaims` → `ReleaseEach`;
  - the dispatch loop → `Dispatch` against `Dispatched` and `Attempts`;
  - cleanup → `FinishedWorkers` and `DeleteWorkers`;
  - `stop` → `KillAll`;
  - `update` → `WorkerInfos`;
  - `parseArgs` → `ParseArgs` against `LastFlagValue`.
- Writing a file is modelled as a ghost field holding what was written, plus
  a ghost write counter. Reading a file is modelled as a datatype of what
  the read yields (`DiskFile`, `LogFile`).
- Spawning a worker process is modelled by a function parameter
  `(workerId, granule) -> Option<ProcessHandle>`; `None` is a spawn that
  throws. A process handle holds only the two fields the orchestrator
  reads: `killed` and `exitCode`.
- The process `exit`/`error` events are methods (`WorkerExited`). So is the
  runtime changing a handle (`ProcessStateChanged`).
- The content hash (`computeContentHash`, SHA-256) is a function the
  `FileStore` is given.
- Files and modules:

  | file | module | source |
  |---|---|---|
  | text.dfy | `Text` | decimal rendering, `String.prototype.trim` and `Array.prototype.find` |
  | granules.dfy | `Granules` | the record of src/types.ts, plus the fields file-store.ts writes, and the record transitions both stores share |
  | memory_store.dfy | `MemoryStore` | src/store.ts |
  | durable_store.dfy | `DurableStore` | src/file-store.ts |
  | orchestrator.dfy | `Orchestration` | src/orchestrator.ts |
  | session_log.dfy | `SessionLogging` | src/session-log.ts |
  | ui.dfy | `Ui` | src/ui.ts |
  | cli.dfy | `Cli` | src/index.ts |

## Model

| member | source | states |
|---|---|---|
| Text.IntToString | src/store.ts:8 | `${n}` renders a number with at least one character, starting with `-` exactly when the number is negative |
| Text.NatToStringDigits | src/store.ts:8 | the rendering of a counter value consists of decimal digits only |
| Text.DecimalRoundTrip | src/store.ts:8 | reading the decimal rendering of a natural number back gives the number |
| Text.IntRoundTrip | src/store.ts:8 | reading `${n}` back gives `n` for every integer |
| Text.NumberedInjective | src/store.ts:8 | two ids `prefix + ${a}` and `prefix + ${b}` are equal only when `a == b`, so ids from distinct counter values differ |
| Text.Trim | src/ui.ts:28 | the result of `trim()` is no longer than its input and neither starts nor ends with whitespace |
| Text.TrimOffset | src/ui.ts:28 | `trim()` keeps one contiguous slice of its input and drops only whitespace before and after it |
| Text.TrimUnchanged | src/ui.ts:135 | trimming a string without whitespace at either end returns it unchanged |
| Text.FindFirst | src/session-log.ts:44 | `find` yields the first index whose element matches, and nothing exactly when no element matches |
| Granules.TransitionsKeepOwnerFieldsConsistent | src/store.ts:39-77 | claim, release and complete (of a claimed granule) keep the owner fields in agreement with the state |
| Granules.ReleaseUndoesClaim | src/store.ts:39-58 | releasing a claim restores the unclaimed record exactly as it was before the claim |
| Granules.StaleAmong | src/store.ts:84-86 | the stale filter keeps exactly the listed records that are claimed and have a claim time more than `maxAgeMs` (strictly) before `now` |
| Granules.StaleAmongDistinct | src/store.ts:84-86 | filtering a list whose ids are distinct leaves a list whose ids are distinct |
| Granules.StaleListing | src/store.ts:82-87 | filtering the insertion-order listing yields every stale record of the store, only records filed under their own ids, and no id twice |
| Granules.StaleIdsExact | src/store.ts:90-95 | the ids of the stale list are exactly the ids of the stale records |
| Granules.DistinctIdsCount | src/store.ts:90-96 | a list with no id twice has as many distinct ids as records |
| Granules.StaleCount | src/store.ts:89-96 | a list holding exactly the stale records, each once, is as long as the store has stale records |
| Granules.ReleaseListed | src/store.ts:89-96 | given the stale list, the stale records and only they come back released, retry count and error kept, the index and owner consistency hold, and the list's length is the number of stale records |
| Granules.StaleReleaseExact | src/store.ts:89-97 | releasing each listed record releases exactly the stale records and keeps every record's retry count and last error |
| Granules.StaleReleaseKeepsIndex | src/store.ts:91-95 | stale release keeps the map indexed by the same order and keeps owner fields consistent |
| Granules.FileKeepsIndex | src/store.ts:17 | `Map.set` of a new id appends it to the insertion order; `Map.set` of a known id keeps the order |
| Granules.CountedAppend | src/store.ts:8 | the id issued next, `G-<nextId>`, is not yet in the store, and appending it keeps ids `G-1`, `G-2`, … in creation order |
| Granules.ReleaseEach | src/store.ts:91-95 | the release loop makes exactly the records filed under a listed id unclaimed with owner fields cleared; it keeps every other record and the key set |
| Granules.NextIdFresh | src/file-store.ts:48 | when every stored id was issued below the counter, the next id is fresh and the store stays well numbered |
| MemoryStore.GranuleStore.constructor | src/store.ts:4-5 | a new store is empty, with counter 1 |
| MemoryStore.GranuleStore.CreateGranule | src/store.ts:7-19 | returns a new unclaimed granule with id `G-<nextId>` (an id not yet used), files it last in the listing and advances the counter by one |
| MemoryStore.GranuleStore.ListGranules | src/store.ts:21-23 | the listing holds every record in creation order; the k-th one is `G-(k+1)` |
| MemoryStore.GranuleStore.GetGranule | src/store.ts:25-27 | the record filed under the id, present exactly for known ids |
| MemoryStore.GranuleStore.ClaimGranule | src/store.ts:29-44 | succeeds exactly on a known unclaimed granule, which becomes claimed by the worker at `now`, and returns a copy; on failure nothing changes and no granule is returned |
| MemoryStore.GranuleStore.ReleaseGranule | src/store.ts:46-61 | succeeds exactly when the worker holds the claim; the granule then becomes unclaimed with owner fields cleared; on failure nothing changes |
| MemoryStore.GranuleStore.CompleteGranule | src/store.ts:63-80 | succeeds exactly when the worker holds the claim; the granule then becomes completed at `now`, its summary is replaced only when one is given, and its owner fields are kept |
| MemoryStore.GranuleStore.GetStaleClaims | src/store.ts:82-87 | holds a stored record exactly when it is stale, only records as filed, and no id twice |
| MemoryStore.GranuleStore.ReleaseStaleClaims | src/store.ts:89-97 | every stale record is released, every other record is unchanged, and the result is the number of stale records (the size of the set of stale ids) |
| DurableStore.IndexList | src/file-store.ts:27 | `new Map(list.map(g => [g.id, g]))` is indexed, with every listed id a key and every value a listed record |
| DurableStore.Load | src/file-store.ts:22-31 | a missing or unparseable file gives an empty store with counter 1; a parsed file sets the counter, even when its granule list is unusable |
| DurableStore.IndexListing | src/file-store.ts:27 | re-indexing the insertion-order listing of an indexed map gives back that map and order |
| DurableStore.LoadSnapshot | src/file-store.ts:22-37 | loading the snapshot `persist` wrote reproduces the granules, their order and the counter |
| DurableStore.AfterRelease | src/file-store.ts:87-93 | a truthy (non-empty) error sets the retry count to one more than before, a missing count reading as 0, and records the error; no error or an empty one leaves both fields exactly as they were; every other field is the plain release |
| DurableStore.FileStore.constructor | src/file-store.ts:17-20 | the store holds what loading the file yields and nothing is written |
| DurableStore.FileStore.Persist | src/file-store.ts:33-45 | the file then holds the snapshot `{nextId, granules in insertion order}`, written once |
| DurableStore.FileStore.CreateGranule | src/file-store.ts:47-60 | issues `G-<nextId>`, advances the counter, stores an unclaimed granule carrying the hash of its content, and writes the snapshot; in a well-numbered store the id is new |
| DurableStore.FileStore.ListGranules | src/file-store.ts:62-64 | every record in insertion order |
| DurableStore.FileStore.GetGranule | src/file-store.ts:66-68 | the record filed under the id, present exactly for known ids |
| DurableStore.FileStore.ClaimGranule | src/file-store.ts:70-80 | the in-memory claim guard and effect, with a write exactly when it succeeds |
| DurableStore.FileStore.ReleaseGranule | src/file-store.ts:82-96 | the in-memory release guard and effect plus retry accounting, with a write exactly when it succeeds |
| DurableStore.FileStore.CompleteGranule | src/file-store.ts:98-110 | the in-memory complete guard and effect, with a write exactly when it succeeds |
| DurableStore.FileStore.GetStaleClaims | src/file-store.ts:112-117 | holds a stored record exactly when it is stale, only records as filed, and no id twice |
| DurableStore.FileStore.ReleaseStaleClaims | src/file-store.ts:119-130 | releases exactly the stale claims, never changes retry count or last error, returns the number of stale records (the size of the set of stale ids), and writes only when it released one |
| DurableStore.FileStore.UpdateGranuleContent | src/file-store.ts:132-141 | fails without writing for an unknown id; otherwise sets content and its hash, keeps state and owner fields, writes, and returns a copy |
| Orchestration.Survivors | src/orchestrator.ts:101-113 | cleanup keeps only entries whose process is neither killed nor exited, so the map never grows |
| Orchestration.UnclaimedOf | src/orchestrator.ts:86 | the unclaimed filter holds exactly the unclaimed granules of the list |
| Orchestration.SpawnCount | src/orchestrator.ts:89-90 | `min(MAX_WORKERS - active, unclaimed)` attempts, none when that is not positive; never more than the unclaimed count, and never beyond capacity |
| Orchestration.Dispatched | src/orchestrator.ts:92-95 | after `n` attempts the active map has grown by at most `n` entries |
| Orchestration.DispatchedLast | src/orchestrator.ts:133 | an attempt adds at most the entry of its own worker id, filed for its granule, and keeps every other entry |
| Orchestration.DispatchKeepsExisting | src/orchestrator.ts:92-95 | when the ids to be issued are fresh, dispatch keeps every entry that was already active |
| Orchestration.DispatchedEntriesWereAttempted | src/orchestrator.ts:92-95 | every entry dispatch adds is a (worker id, granule id) pair that was passed to spawn |
| Orchestration.Attempts | src/orchestrator.ts:92-94 | the k-th spawn attempt is for `unclaimed[k]` under worker id `W-(first + k)` |
| Orchestration.AttemptIdsDistinct | src/orchestrator.ts:116 | the worker ids of one dispatch are pairwise different |
| Orchestration.WorkerIdsDiffer | src/orchestrator.ts:116 | different counter values give different worker ids |
| Orchestration.FreshGranulesStay | src/orchestrator.ts:77 | stale release leaves a store whose granules are all unclaimed unchanged |
| Orchestration.KillAll | src/orchestrator.ts:63-69 | `stop` asks exactly the active workers to terminate |
| Orchestration.FinishedWorkers | src/orchestrator.ts:104-108 | collects exactly the workers whose process is killed or has an exit code |
| Orchestration.DeleteWorkers | src/orchestrator.ts:110-112 | deletes exactly the collected workers and keeps every other entry |
| Orchestration.Orchestrator.constructor | src/orchestrator.ts:19-26 | no active workers, worker counter 1, no timer held or running and no server started |
| Orchestration.Orchestrator.Start | src/orchestrator.ts:28-54 | starts the server, sets one more interval timer (an earlier one keeps running) and runs one tick; an empty store ends up holding exactly the bootstrap plan granule `G-1`; a non-empty store keeps its ids and counter and has its stale claims released; the active workers, worker counter and spawn attempts are what a tick over the bootstrapped store gives; no kill is requested; capacity is kept |
| Orchestration.Orchestrator.ScheduleAndTick | src/orchestrator.ts:45-51 | sets a new timer, makes loopInterval hold it, and has the full effect of one tick |
| Orchestration.Orchestrator.Bootstrap | src/orchestrator.ts:36-43 | creates exactly one plan granule when the store is empty and leaves a non-empty store unchanged |
| Orchestration.Orchestrator.Stop | src/orchestrator.ts:56-73 | clears only the timer loopInterval holds (one fewer running timer if it held one), asks every active worker to terminate and empties the active map; calling it again is harmless |
| Orchestration.Orchestrator.StartTwiceThenStop | src/orchestrator.ts:46-60 | after start, start, stop one more timer is running than before: the first interval is never cleared |
| Orchestration.Orchestrator.Tick | src/orchestrator.ts:75-99 | releases claims older than 30 minutes, keeps the surviving workers, then attempts one spawn per granule among the first `SpawnCount` unclaimed granules in list order; one worker id per attempt; granules and counters are otherwise unchanged; capacity is kept |
| Orchestration.Orchestrator.Dispatch | src/orchestrator.ts:92-95 | the spawn loop gives the active map `Dispatched` and the spawn-call record `Attempts`, and advances the counter by the number of attempts |
| Orchestration.Orchestrator.SpawnNext | src/orchestrator.ts:93-94 | one iteration of the spawn loop moves the active map from `Dispatched(..., i)` to `Dispatched(..., i + 1)` |
| Orchestration.Orchestrator.CleanupCompletedWorkers | src/orchestrator.ts:101-113 | the active map becomes the survivors |
| Orchestration.Orchestrator.SpawnWorkerForGranule | src/orchestrator.ts:115-150 | always consumes a fresh worker id; a missing granule spawns nothing; a spawn that throws records the call and adds nothing; a launched process is filed under the new id; the store is unchanged |
| Orchestration.Orchestrator.WorkerExited | src/orchestrator.ts:136-144 | an exit or error event deletes that worker's entry and nothing else |
| Orchestration.Orchestrator.ProcessStateChanged | src/orchestrator.ts:105 | a process becoming killed or exited changes only that worker's handle |
| SessionLogging.Loaded | src/session-log.ts:18-27 | a readable log yields its list; a missing or unreadable one yields the empty list |
| SessionLogging.StartKeepsOneActive | src/session-log.ts:35-41 | after start a session is running and at most one is; a session is appended exactly when none was running; earlier sessions keep their start times |
| SessionLogging.EndClosesActive | src/session-log.ts:43-49 | after end no session is running; exactly the running session gets the end time; the length is unchanged |
| SessionLogging.EndThenStart | src/session-log.ts:35-49 | end with nothing running changes nothing, and start right after end always opens a new session |
| SessionLogging.SessionLog.constructor | src/session-log.ts:13-16 | the log holds what loading the file yields and nothing is written |
| SessionLogging.SessionLog.Save | src/session-log.ts:29-33 | the file then holds the list, and loading it gives the same list |
| SessionLogging.SessionLog.HasActiveSession | src/session-log.ts:51-53 | true exactly when some session has no end time |
| SessionLogging.SessionLog.StartSession | src/session-log.ts:35-41 | appends a running session at `now` only when none is running, and writes only then |
| SessionLogging.SessionLog.EndSession | src/session-log.ts:43-49 | gives the first running session the end time `now`, and writes only when there was one |
| SessionLogging.SessionLog.GetSessions | src/session-log.ts:55-57 | returns the session list as a value |
| Ui.SpaceNewlines | src/ui.ts:28 | every line feed becomes a space and every other character stays |
| Ui.SliceTo | src/ui.ts:30 | `slice(0, end)` is a prefix, counting a negative end from the back and clamping to the string |
| Ui.Truncate | src/ui.ts:27-31 | the trimmed one-line text when it fits in `maxLen`; otherwise its first `maxLen - 1` characters and an ellipsis, exactly `maxLen` long |
| Ui.SingleLineShape | src/ui.ts:28 | the one-line text has no line feed and no whitespace at either end |
| Ui.ShortenFits | src/ui.ts:29-30 | the length cut fits the limit and keeps a tidy line tidy |
| Ui.TruncateFits | src/ui.ts:27-31 | with a positive limit the result fits, is one tidy line, and starts like the one-line text |
| Ui.TruncateIdempotent | src/ui.ts:27-31 | truncating twice with the same positive limit is the same as truncating once |
| Ui.SplitDuration | src/ui.ts:33-44 | hours and minutes when there is at least an hour, else minutes and seconds when there is at least a minute, else seconds; each unit is the remainder of the next larger one |
| Ui.FormatDurationUnit | src/ui.ts:33-44 | the text ends in the seconds unit `s` below an hour and in the minutes unit `m` from an hour on, negative times included |
| Ui.DurationTruncates | src/ui.ts:33-44 | the shown duration is the elapsed time rounded down to the second below an hour, and to the minute from an hour on |
| Ui.Count | src/ui.ts:209-217 | a filter count never exceeds the list length |
| Ui.TallyPartition | src/ui.ts:208-220 | unclaimed + failed + claimed + completed equals the total, so every granule is counted once |
| Ui.InfoFor | src/ui.ts:196-203 | a worker line copies the worker's id, granule id and start time |
| Ui.InfoForShowsGranule | src/ui.ts:196-201 | a worker line shows class and content of the first granule with the worker's granule id, or "unknown" and "" when there is none |
| Ui.WorkerInfos | src/ui.ts:193-204 | one worker line per active worker, in map order |
| Ui.ImplementedReport | src/ui.ts:206 | the content of the first `Implemented` granule, absent exactly when there is none |
| Ui.KeyStep | src/ui.ts:126-159 | Ctrl+C asks to exit without editing; Enter clears the line and asks to exit on "exit" (any case), sends a non-empty trimmed line as a command, and does nothing on a blank line; backspace drops the last character; a single printable character is appended; any other key changes nothing |
| Ui.TypeThenErase | src/ui.ts:147-158 | typing a printable character and then backspace restores the line |
| Ui.EnterTwice | src/ui.ts:133-145 | a second Enter finds an empty line and does nothing |
| Ui.UIManager.constructor | src/ui.ts:106-113 | an empty input line and an empty dashboard state |
| Ui.UIManager.HandleKey | src/ui.ts:126-159 | the input line and the raised action are those of `KeyStep`; the drawn line is updated whenever the line is edited |
| Ui.UIManager.Update | src/ui.ts:189-224 | the drawn state gets the worker lines, the counts, the implemented report and the current input line |
| Cli.LastFlagValueMeaning | src/index.ts:9-17 | there is a prompt exactly when some `-p`/`--prompt` is followed by a non-empty value not starting with `-`, and then it is the value of the last such flag |
| Cli.ParseArgs | src/index.ts:5-20 | the loop, which skips over a flag's value, returns the value of the last valid flag among `argv[2..]` |
| Cli.PromptIgnoresLeadingArgs | src/index.ts:6 | the first two entries of `argv` never affect the result |
| Cli.LastFlagWins | src/index.ts:9-17 | appending a flag with a valid value makes that value the prompt, whatever came before |

## Left out

- File I/O and JSON (src/file-store.ts:22-45, src/session-log.ts:18-33): reading, parsing, `mkdirSync`, the temp-file-and-rename write. A read is modelled by what it yields and a write by the value written.
- DurableStore.Load: a parsed document is taken to have a numeric `nextId`. A document without one (`{}`) would set the counter to `undefined`, and every later id would be `G-NaN`; the model cannot express this. The quirk it does keep: a document that parses but lacks a usable `granules` list leaves the counter as read and the map empty (src/file-store.ts:26-27).
- SessionLogging.Loaded: a file whose JSON parses to something other than a list of sessions is not modelled. Neither is a session whose `endedAt` is JSON `null`, which the source counts as ended because it is not `undefined`.
- `computeContentHash` (SHA-256) is a function parameter of `FileStore`; its value is not computed.
- src/worker.ts (spawning the pseudo-terminal process) is not part of this model. Spawning is a function that returns a handle or fails.
- Timers firing (`setInterval` callbacks: the model only counts the running timers), the asynchronous `start`, the MCP server (src/server.ts, src/tools/) and process event callbacks. Ticks and exit/error events are explicit method calls, and the server start is a flag.
- Records are returned by value. In the source, `getGranule`, `listGranules` and `createGranule` of both stores (src/store.ts:18,21-27, src/file-store.ts:59-68) hand out the stored objects themselves, so a caller that changes a returned record changes the store; src/orchestrator.test.ts:58-61 ages a claim that way. `getSessions` (src/session-log.ts:55-57) copies the array but shares the session objects, so an `endSession` shows through an earlier result. This aliasing is not modelled; `claimGranule` and `updateGranuleContent`, which return a copy (src/store.ts:43, src/file-store.ts:79,139), behave alike in both.
- Failed writes: `persist` and `save` (src/file-store.ts:33-45, src/session-log.ts:29-33) run after the in-memory change, so a write that throws leaves the change in memory and not on disk. The model's writes always succeed.
- Orchestration.Orchestrator.Start: the prompt that src/index.ts:37 passes is ignored by `start`, as in the source, so the model has no prompt parameter.
- Console output: `logState`, the log lines, `renderUI`, the spinner, and `UIManager.start`/`stop`. These only print.
- `main` and the signal handlers of src/index.ts:22-47.
- Ui.KeyStep: JavaScript strings are UTF-16. The model's characters are Unicode scalar values. `key.length === 1` is modelled by accepting only characters up to U+FFFF. Backspace drops one scalar value where JavaScript drops one UTF-16 unit, which can split a surrogate pair. `toLowerCase() === "exit"` is modelled as an ASCII case-insensitive comparison; no other character lowercases to a single one of `e`, `x`, `i`, `t`.
- Ui.Truncate: lengths are counted in scalar values, not UTF-16 units.
- Numbers are unbounded integers. JavaScript's doubles are exact for every counter and timestamp the program produces, so no rounding is modelled.
- The code is followed where other descriptions differ:
  - `complete` keeps `claimedBy`/`claimedAt`;
  - the orchestrator has no exit on an `Implemented` granule and no retry ceiling (the ceiling of 3 exists only in src/ui.ts:208-210);
  - the bootstrap granule's content is the text in src/orchestrator.ts:38-41 (read README.md and plan the implementation), not the gap-analysis text that src/orchestrator.test.ts:40-41 expects;
  - there is no deferred class, and a granule already handed to an active worker is not excluded from dispatch: one still unclaimed at the next tick gets another worker, which `Tick`'s contract allows;
  - the record type adds `contentHash`, `retryCount` and `lastError`, which src/types.ts lacks but src/file-store.ts writes.

# helm-c: a model and its proofs

helm-c exposes the Helm SDK to C. Most of its Go code hands arguments to the SDK; what it does on its
own is keep shared state under concurrency, own memory and temporary files across a language border, and
run a few list algorithms. This project models that part in Dafny and proves what the library promises.

| module | models |
|---|---|
| `Prelude` | options and the stable error codes |
| `HandleTable` | the handle registry: the class, and what every history of operations guarantees |
| `RWMutex` | Go's writer-preferring reader/writer lock as a value |
| `FreeProtocol`, `FreeTheorems`, `CallTheorems` | any number of threads calling the registry, with two-phase typed frees and their hooks; what each returned call did |
| `LockLevel` | the same calls with the lock and each memory access as a step; simulates `FreeProtocol` |
| `LogDelivery`, `LogTheorems`, `LogRuns` | the log callback: setters, loggers, the lock held across the callback |
| `LogLines` | derived handlers, delivered text, splitting output into records |
| `Boundary`, `Sessions` | C strings, out-parameters, shim bodies, panics; whole caller sessions |
| `Scratch` | nested scratch directories and the kubeconfig file a Config owns |
| `ChartSource` | where a chart comes from, with which client, and where its dependencies may be updated |
| `Isolation` | one shared Configuration under an SDK that overwrites what a client dry run is handed |
| `Cancellation` | the cancellation guard against contexts cancelled and freed at any moment |
| `ErrorTrees` | error trees, the code that crosses the boundary, classification of failures |
| `History` | sorting and truncating a release history |
| `Dependencies` | dependency status, and one repository entry per URL |

Where the Go code is imperative the model is a class or a method with the same loop, proved against a
function or predicate whose own properties are lemmas. Concurrent protocols are step machines; runs are
sequences of steps, and the theorems are about every run from an initial state with any number of threads.

## Where code and documentation differ

The model follows the code. Each difference is a theorem.

- Ids "are never reused" and zero "is never issued" (`internal/handles/handles.go:47-48,60-61`). The
  64-bit counter wraps, so the first holds exactly up to 2^64 Puts (`IdReusedIff`) and the second exactly
  up to 2^64 - 1 (`ZeroIssuedIff`). Theorems about handles are stated below that bound; the numbering
  itself is proved without it.
- `helm_handle_free` "releases the Go object behind any handle type" (`capi/capi.go:62`). It runs no hook:
  a context is not cancelled and a temporary kubeconfig not removed, and no later call can do it
  (`GenericFreeSkipsHook`, `UnusedStaysAsItWas`). With other threads at work on the object, the effect
  comes about exactly if one of them was on its way into the hook (`GenericFreeOrphans`,
  `RemovalLeavesHookRunIff`).
- `CloseConfig` is said to run "after the handle is released" (`pkg/wrapper/config.go:47-48`). It runs
  before, and `TypedRemovalRanHook` depends on that.
- "The innermost CodedError wins" (`pkg/cerrors/cerrors.go:63`). The outermost does (`AsCodedIsFirst`),
  and that is an innermost one iff it wraps no other (`InnermostRuleHoldsIff`, `WithCodeKeepsRuleIff`).
- "A cancelled context never reaches" the SDK (`pkg/wrapper/actions.go:65-68`). That is so for contexts
  cancelled before the guard; one cancelled between the guard and the SDK does reach it
  (`CancelledBeforeCheckNeverEnters`, `CancelledInSdkIff`, `CancelAfterGuardReachesRace`).
- `Handle` re-checks that a callback is registered but not the level, so a swap between `Enabled` and
  `Handle` can deliver a record to a callback whose threshold it does not meet
  (`SwapBetweenTestsDelivers`). That takes a swap that raises the minimum, and any that does can do it
  (`DeliveredMetThreshold`, `SwapBreaksThresholdIff`).
- "The shared configuration is read, never written, by an action" (`docs/DESIGN.md:76-77`). Installs and
  lists keep to that. Upgrades and rollbacks hand the SDK the shared configuration whatever the dry run
  (`pkg/wrapper/upgrade.go:98-101`, `pkg/wrapper/release_actions.go:110-121`), so an SDK that swaps in fakes
  on a client dry run, as its install does, would write it there. `RunAll` says what is preserved exactly.
- `helm_set_log_handler` writes two separately locked globals. Overlapping setters, one with a callback
  and one with NULL, can leave them disagreeing (`MixedSettersCanDisagree`); setters that agree on this
  cannot (`CompatibleSettersAgree`). Silence while NULL is registered holds either way.
- Scratch directories are "removed afterwards". They are on every success and failure; a panic between
  creation and the first deferred removal strands one. `Host.ShowChart`, `Host.ResolveDependencies`,
  `Host.ChartForInstall` and `Host.NewConfig` identify exactly those panics.

## Model

| member | source | states |
|---|---|---|
| HandleTable.Registry.Put | internal/handles/handles.go:62-68 | bumps the wrapping counter and stores the tagged object under the id it returns, as one atomic table operation |
| HandleTable.Registry.Get | internal/handles/handles.go:71-82 | changes nothing; object, unknown handle or wrong type exactly as the atomic table answers |
| HandleTable.Registry.Free | internal/handles/handles.go:87-95 | removes a live id whatever its type, and only that; an unknown id is an error and changes nothing |
| HandleTable.Registry.FreeTyped | internal/handles/handles.go:99-111 | removes a live id of the right type only; unknown and wrong-typed ids are different errors that change nothing |
| HandleTable.Registry.Count | internal/handles/handles.go:114-118 | the number of live entries |
| HandleTable.PutIsIssuedItsNumber | internal/handles/handles.go:60-68 | in any history, with no bound, the k-th Put is issued k modulo 2^64 |
| HandleTable.TableShape | internal/handles/handles.go:47-118 | after any history below 2^64 Puts: issued ids are exactly 1..Puts, live entries are issued less released, live plus removals equals Puts |
| HandleTable.IssuedIsLiveOrReleased | internal/handles/handles.go:47-68 | issued ids are the disjoint union of live and released ones, and 0 is not among them |
| HandleTable.PutIsNew | internal/handles/handles.go:60-68 | a Put's id was never issued before |
| HandleTable.HistoryGrows | internal/handles/handles.go:42-68 | what an id was issued for never changes, and a released id stays released |
| HandleTable.GetReturnsWhatWasPut | internal/handles/handles.go:71-82 | a successful Get, however late, returns the object and type its id was issued for |
| HandleTable.RemovalReleases | internal/handles/handles.go:84-111 | a successful free names an issued id, and a typed one the type it was issued as |
| HandleTable.ReleasedMissesForever | internal/handles/handles.go:47-48 | every later Get, Free or FreeTyped of a freed id misses: it can never alias a newer object |
| HandleTable.FreedAtMostOnce | internal/handles/handles.go:84-95 | at most one free of an id in a history succeeds |
| HandleTable.ReleasedBySomeone | internal/handles/handles.go:87-111 | a released id was released by a successful free of it in the history |
| HandleTable.CountIsPutsMinusFrees | internal/handles/handles.go:113-118 | Count answers the Puts before it less the successful frees before it |
| HandleTable.ZeroIssuedIff | internal/handles/handles.go:60-67 | the zero id is issued in a history iff it has at least 2^64 Puts |
| HandleTable.IdReusedIff | internal/handles/handles.go:47-68 | an id is issued twice in a history iff it has more than 2^64 Puts |
| FreeTheorems.InvNext | capi/extra.go:110-121 | every step of every thread keeps: the table is where the log ends, every hooked object is the one its id was issued for, no successful free is lost |
| FreeTheorems.InvExec | capi/extra.go:110-121 | the invariant over whole runs |
| FreeTheorems.AtMostOneFreeWins | capi/extra.go:108-121 | of all typed and generic frees of one handle from any threads, at most one ever returns OK |
| FreeTheorems.GoneIffOneFreeWon | capi/capi.go:67-74 | once every call has returned, an issued handle is gone iff one free of it returned OK |
| FreeTheorems.TypedRemovalRanHook | capi/config.go:40-42 | in any reachable state whose log has a typed removal, the context is cancelled or the kubeconfig gone, on the very object the id was issued for |
| FreeTheorems.TypedWinnerRanHook | capi/config.go:91-95 | the same for a typed free that returned OK |
| FreeTheorems.LoserIsToldInvalid | capi/extra.go:112-119 | a generic or correctly typed free that does not win returns INVALID_HANDLE and nothing else |
| FreeTheorems.WrongTypedFreeRemovesNothing | internal/handles/handles.go:97-108 | a free through the wrong type never removes the entry and never returns OK |
| FreeTheorems.OrphanStays | pkg/wrapper/config.go:39-45 | an object no table entry and no running call can reach keeps its cancellation and its file in every run |
| FreeTheorems.GenericFreeOrphans | capi/capi.go:67-74 | after a generic free, whatever other threads had in hand: once nobody is on the way into a hook on the object, its context is cancelled, or its file gone, iff it was already or some thread was then on its way into that hook |
| FreeTheorems.RemovalLeavesHookRunIff | capi/extra.go:110-121 | for any free that removes a context or config: the hook's effect is there in the end iff the free was the typed one, or it was there already, or another thread was on its way into the hook |
| FreeTheorems.UnusedStaysAsItWas | capi/capi.go:67-74 | a handle nobody else is using, removed by the generic free, leaves its context and file as they were for ever |
| FreeTheorems.GenericFreeSkipsHook | capi/capi.go:62-74 | a run in which the generic free returns OK with the context live or the kubeconfig still there |
| CallTheorems.CodesMeanWhatTheySay | capi/extra.go:88-121 | for every returned call of every kind: its code, and what it did to the table, told from the table its event met |
| CallTheorems.CancelOKCancels | capi/config.go:77-86 | a helm_context_cancel that returned OK named a context handle, and the context it was issued for is cancelled |
| CallTheorems.CancelledOnlyByCalls | capi/config.go:76-95 | a cancelled context had a cancel or a typed free called on a handle issued for it |
| CallTheorems.FilesOnlyByCalls | pkg/wrapper/config.go:129-161 | a temporary kubeconfig exists only for a config created from inline content, and for each such config unless a typed free of its handle was called |
| CallTheorems.WinnerHasClosed | pkg/wrapper/config.go:39-45 | a helm_config_free that returned OK ran Close to its end: no file, and none recorded as owned |
| LockLevel.MutualExclusion | internal/handles/handles.go:62-64 | while a thread is in its write section no other thread is in any section |
| LockLevel.LockInvNext | internal/handles/handles.go:49-118 | every lock and memory step keeps the locking discipline |
| LockLevel.EffectRefines | internal/handles/handles.go:62-111 | the deciding access of an operation is exactly one atomic table operation, with its answer |
| LockLevel.RunRefines | internal/handles/handles.go:49-118 | every run of lock and memory steps simulates a run of the atomic protocol |
| LockLevel.ReachableRefines | internal/handles/handles.go:49-118 | every reachable locked state maps to a reachable atomic state, so each theorem about the latter applies |
| LockLevel.Linearizable | internal/handles/handles.go:47-118 | all operations form one sequential history of the atomic table; every answer in hand and every code returned is that of its own event there, in program order; memory is where the history ends |
| LockLevel.UndecidedComesLater | internal/handles/handles.go:62-118 | an operation not answered at some moment is answered, in every continuation, by an event after all those answered by then |
| LockLevel.RealTimeOrder | internal/handles/handles.go:62-118 | a call that returned before another was made is decided before it in the history |
| LockLevel.LogGrows | internal/handles/handles.go:62-118 | what was answered or returned keeps its place in the history |
| LockLevel.AtMostOneFreeWins | capi/extra.go:108-121 | one winner, under the real lock |
| LockLevel.TypedWinnerRanHook | capi/extra.go:110-121 | hook before removal, under the real lock |
| LockLevel.CodesMeanWhatTheySay | internal/handles/handles.go:62-118 | codes mean what they say, under the real lock |
| LockLevel.CancelOKCancels | capi/config.go:77-86 | a cancel that returned OK has cancelled, under the real lock |
| LockLevel.ReadersShare | internal/handles/handles.go:71-73 | with no writer about, two lookups are inside their sections at once |
| LockLevel.QuietEntries | capi/capi.go:76-82 | with no call in flight, the map in memory holds exactly the issued handles no free won, and its size is Puts less removals |
| LockLevel.SomeCallMoves | internal/handles/handles.go:50-118 | no deadlock: while a call is in flight some call can step |
| LogDelivery.CSlogLevel | capi/logging.go:46-57 | cLevel inverts cSlogLevel on 0..3, and any other minimum stands for Error |
| LogDelivery.CLevelMonotone | capi/logging.go:32-57 | cLevel is monotone, and rises between two levels iff some minimum separates them |
| LogDelivery.FilterIsEnumFilter | capi/logging.go:32-70 | for every level, filtering by slog level is filtering by enum value iff the minimum is not 0 or the level is at least Debug |
| LogDelivery.MovesKeepLockInv | capi/logging.go:90-91 | every move of a thread through the lock keeps the lock invariant for all threads |
| LogDelivery.InvNext | capi/logging.go:66-135 | every step of setters and loggers keeps: unlocked globals are the last registration, in-flight pairs are current, deliveries are justified |
| LogDelivery.InvExec | capi/logging.go:66-135 | the same over whole runs, whose histories only grow |
| LogTheorems.InFlightIsCurrent | capi/logging.go:84-96 | in every reachable state, a delivery in flight uses exactly the registered callback and user_data |
| LogTheorems.ReplacedPairIsQuiet | capi/logging.go:84-87 | after a swap has released the lock, no delivery with a pair not registered since starts or is in flight, in any continuation |
| LogTheorems.SetterInstalled | capi/logging.go:124-128 | a setter past its unlock did install its own registration |
| LogTheorems.SilentWhileNull | capi/logging.go:92-94 | while only NULL is registered nothing is delivered, even if the handler global disagrees |
| LogTheorems.DeliveredMetThreshold | capi/logging.go:66-96 | every delivered record met the threshold it was tested against, and that of the callback it reached unless a swap in between had raised the threshold |
| LogTheorems.SomeoneAdvances | capi/logging.go:84-102 | no deadlock while callbacks return |
| LogTheorems.EveryCallReturns | capi/logging.go:84-135 | calls in flight finish within a bound, so every swap returns |
| LogTheorems.PendingSwapIsBounded | capi/logging.go:84-89 | a pending swap outlasts a bounded number of steps of the readers inside, however many new calls begin |
| LogTheorems.PendingSwapIsNotStuck | capi/logging.go:124-128 | a pending swap can acquire, or every reader inside can step |
| LogTheorems.ReentrantSetNeverReturns | capi/logging.go:87-89 | a callback that waits for its own helm_set_log_handler call waits for ever |
| LogTheorems.ReentrantLogNeverReturns | capi/logging.go:87-89 | a callback that logs while a swap is pending waits for ever |
| LogTheorems.CompatibleSettersAgree | pkg/wrapper/logging.go:22-30 | setters that agree on NULL-ness when they overlap leave the two globals agreeing |
| LogRuns.LogRun | capi/logging.go:66-102 | one record undisturbed, from any reachable state with the lock free: it reaches the registered callback, once, iff one is registered, the level is met and, if the logger resolves the handler, the handler is the callback's; nothing else changes |
| LogRuns.SetRun | capi/logging.go:120-136 | one swap undisturbed sets callback, data, threshold and handler, the handler being the callback's iff there is a callback |
| LogRuns.SetThenLog | capi/logging.go:120-136 | after a swap the new callback gets exactly the records that meet its minimum |
| LogRuns.ResolvingMattersIff | pkg/wrapper/logging.go:32-37 | resolving the handler makes a difference to a record iff the globals disagree and the registered callback asks for it; then the resolving logger's record is the one dropped |
| LogRuns.AgreeingSettersDeliver | pkg/wrapper/logging.go:22-37 | with setters that agree and none in flight, a resolving logger's record is delivered iff a callback is registered and the level met |
| LogRuns.MixedSettersCanDisagree | capi/logging.go:124-134 | from any free state, a NULL and a callback setter can leave a callback registered and the handler discarding |
| LogRuns.MixedSettersDropRecords | capi/logging.go:124-134 | and then a record that callback asks for, from a logger that resolves the handler, is not delivered |
| LogRuns.SwapBetweenTestsDelivers | capi/logging.go:66-96 | from any reachable state with the lock free, for any record that passes and any swap between its two tests: it is delivered, below the new threshold iff the new minimum is above its level |
| LogRuns.SwapBreaksThresholdIff | capi/logging.go:66-96 | a swap between the two tests can break the threshold iff it raises the minimum |
| LogRuns.SwapBetweenTestsDeliversBelowThreshold | capi/logging.go:90-96 | one such run from the start, an Info record reaching a callback at Error |
| LogLines.CLogHandler.WithAttrs | capi/logging.go:104-109 | a new handler with its own array holding the old attributes then the new; no existing handler changes |
| LogLines.DeriveAll | capi/logging.go:104-109 | after any tree of derivations each handler has the root's attributes and then those along its path, so no derivation altered another handler |
| LogLines.CLogHandler.DeliveredText | capi/logging.go:72-82 | the text is the message, then handler attributes, then record attributes, in order |
| LogLines.DeliverAll | capi/logging.go:72-109 | every handler of any tree delivers the message, the groups on its path in order, and the record's attributes |
| LogLines.AttributeInPlace | capi/logging.go:75-82 | each attribute stands in the text as a space, its key, an equals sign and its value, between those before and after it |
| LogLines.RenderAttrsConcat | capi/logging.go:75-82 | rendering is a homomorphism, so derivation in steps or at once gives the same text |
| LogLines.HandlerWriter.Write | pkg/wrapper/logging.go:47-55 | emits one record for each record line of its input, in order, with that text and the writer's level, and always reports the full length |
| LogLines.RecordsAreTheMaximalRuns | pkg/wrapper/logging.go:48-52 | records are exactly the maximal newline-free non-empty runs, each once, in order |
| LogLines.TrimKeepsRecords | pkg/wrapper/logging.go:48 | the initial TrimRight drops no record |
| LogLines.WritesComposeIff | pkg/wrapper/logging.go:47-55 | two writes log what one write of both logs iff the cut is not inside a line |
| LogLines.RecordsCut | pkg/wrapper/logging.go:47-55 | a cut inside a line makes exactly one record more |
| Boundary.Library.CString | capi/convert.go:16-23 | a fresh non-NULL allocation holding the text |
| Boundary.Library.FreeString | capi/capi.go:58-60 | frees that allocation only; NULL frees nothing |
| Boundary.Library.ClearErrorOut | capi/convert.go:27-31 | the error slot, if any, becomes NULL; nothing else changes |
| Boundary.Library.Fail | capi/convert.go:37-44 | the code of the error or panic, and one fresh detail string iff the caller gave a slot |
| Boundary.Library.StringResult | capi/extra.go:37-49 | OK stores one fresh string in out and NULL in error_out; any error, NULL out or panic leaves out alone |
| Boundary.Library.HandleResult | capi/extra.go:53-65 | a handle is issued and stored iff the call returns OK; failure leaves table and out alone |
| Boundary.Library.StatusResult | capi/extra.go:88-95 | OK clears error_out only; failure adds one detail string |
| Boundary.Library.ChartHandleShim | capi/extra.go:98-106 | out is checked, then the chart handle and its type, then the call decides |
| Boundary.ChartShimCodeIs | capi/extra.go:98-106 | the code is INVALID_ARG without out, else INVALID_HANDLE or WRONG_HANDLE_TYPE as the handle calls for, else the run's; only in the last case is the outcome the run's |
| Boundary.ChartShimRunsOnIssuedCharts | capi/extra.go:98-106 | after any registry history the run can affect the outcome iff out is given and the handle was issued as a chart and not released; released or unknown handles and those of other types have their own codes |
| Boundary.Library.ResolveInputs | capi/actions.go:18-30 | the first of config, chart, context that fails to resolve decides the error; optional handles may be 0 |
| Boundary.Library.ChartActionShim | capi/actions.go:56-84 | install and upgrade: NULL arguments, then handles, then the run, with the same ownership as every string call |
| Boundary.ActionCodeIs | capi/actions.go:59-81 | the code is that of the first thing wrong: arguments, config, chart, context, then the run |
| Boundary.InputsCodeIs | capi/actions.go:18-30 | config before chart before context, each with the code its own handle calls for, optional ones skipped when 0 |
| Boundary.ActionRunsOnIssuedHandles | capi/actions.go:59-81 | after any registry history, the run can affect the outcome iff name and out are given and every handle was issued as the type needed and released by no free |
| Boundary.Library.FreeTyped | capi/extra.go:110-121 | with or without a hook, which may panic: memory, table, code and error detail are those of TypedFree |
| Boundary.TypedFreeSucceedsIff | capi/extra.go:108-121 | OK and removal iff the handle is live, of the type, and no hook panics; PANIC keeps the entry; unknown and wrong-typed handles have their own codes |
| Boundary.ZeroIsSuccess | pkg/cerrors/cerrors.go:12-37 | a call returns 0 iff it succeeded and a negative number otherwise |
| Boundary.Library.HandleFree | capi/capi.go:67-74 | OK iff the handle was live; otherwise INVALID_HANDLE and an unchanged table |
| Sessions.StringCallOwes | capi/extra.go:37-49 | a string call allocates exactly the one string the caller can see it received, or none |
| Sessions.OutParametersKept | capi/convert.go:16-44 | success leaves error_out NULL and out the result; failure or panic leaves out untouched and error_out the error's text or the panic's message |
| Sessions.HandleOutParametersKept | capi/extra.go:53-65 | a handle call that succeeds leaves error_out NULL, no string, and in out the new id of the entry returned; one that fails leaves out and table as they were |
| Sessions.Caller.TakeHandle | capi/extra.go:53-65 | a handle call adds one new non-zero handle, of the entry its run returned, iff it returns OK |
| Sessions.Caller.DropHandle | capi/capi.go:62-74 | freeing any handle any number of times keeps the ledger, and is OK iff the caller held it |
| Sessions.Caller.DropTyped | capi/extra.go:108-121 | the same through a typed free, which is OK iff the handle is held, of that type, and no hook panics |
| Sessions.Caller.Ask | capi/extra.go:37-121 | after any call, failing or panicking as it may, heap and registry hold exactly what the caller holds; its strings grow by what its own variables received and nothing else, its handles only by one issued with OK |
| Sessions.Caller.Session | docs/MEMORY.md:17-24 | any session in which the caller then frees what it holds ends with an empty C heap and no open handle |
| Scratch.Host.PullChart | pkg/wrapper/distribution.go:71-111 | the innermost directory is gone on success, failure and panic; the result is that of the first step that is not good |
| Scratch.Host.PullChartRef | pkg/wrapper/actions.go:247-287 | so is the middle one, and so is the result |
| Scratch.Host.LocalChartPath | pkg/wrapper/chart.go:316-339 | on success the one extra name is the one the returned cleanup removes; on failure there is none |
| Scratch.Host.ShowChart | pkg/wrapper/chart.go:276-299 | names are conserved iff no panic strikes between creation and the deferred cleanup |
| Scratch.Host.DependencyManager | pkg/wrapper/dependency.go:84-122 | on success exactly the returned directory is new, on failure nothing |
| Scratch.Host.ResolveDependencies | pkg/wrapper/dependency.go:126-144 | update and build conserve names iff no panic strikes inside dependencyManager |
| Scratch.Host.ChartForInstall | pkg/wrapper/install.go:106-112 | resolution with the dependency pre-flight conserves names iff that same panic does not strike |
| Scratch.Host.NewConfig | pkg/wrapper/config.go:129-161 | a file is left iff a Config that owns it is returned, or initialisation panics |
| Scratch.Host.Close | pkg/wrapper/config.go:40-45 | removes this Config's file and no other, once |
| Scratch.Host.DoAll | pkg/wrapper/config.go:129-161 | over any sequence of calls, names are the initial ones plus the kubeconfigs of unclosed Configs iff no call was cut off by a stranding panic |
| Isolation.ParseDryRunIs | pkg/wrapper/actions.go:93-115 | for every string: which spellings are a client dry run, which none, which is the server one, and that every other is refused |
| Isolation.WordsParse | pkg/wrapper/actions.go:98-106 | the word of each strategy parses to that strategy |
| Isolation.Config.ForNamespace | pkg/wrapper/config.go:186-191 | the shared Configuration for its own namespace, a fresh one bound to any other |
| Isolation.Config.DetachedConfiguration | pkg/wrapper/config.go:197-207 | a different object that looks the same in every field |
| Isolation.Config.SetRegistryClient | pkg/wrapper/testing_action.go:135-149 | changes the registry client and nothing else |
| Isolation.NewInstall | pkg/wrapper/install.go:77-102 | a dry run spelled as client never gets an object that existed before; other accepted spellings get the shared one or a sibling for their namespace; the rest are refused |
| Isolation.RunInstall | pkg/wrapper/install.go:55-70 | an install writes no existing object, runs a client dry run on a fresh object holding the fakes, and pulls with the shared registry client wherever it runs |
| Isolation.RunList | pkg/wrapper/release_actions.go:158-176 | runs on the shared Configuration, or on a fresh one bound to all namespaces |
| Isolation.RunUpgrade | pkg/wrapper/upgrade.go:90-106 | an upgrade leaves the shared Configuration alone unless the option spells a client dry run, the namespace is the config's own and every check passes; then exactly the three fields become the fakes |
| Isolation.RunRollback | pkg/wrapper/release_actions.go:105-125 | the same for a rollback |
| Isolation.RunAll | docs/DESIGN.md:64-77 | any sequence of installs, lists, upgrades, rollbacks, status calls and bindings: the whole final shared Configuration, which is the initial one with the client last bound iff no upgrade or rollback reached the SDK as a client dry run, or the last one put in what was there |
| Isolation.NoneExposed | pkg/wrapper/upgrade.go:98-103 | there is a last exposing dry run iff some action of the sequence exposes |
| Isolation.DryRunPreservesIff | pkg/wrapper/upgrade.go:98-103 | a single exposing dry run preserves the shared Configuration iff its fakes equal the current clients, storage and capabilities |
| Isolation.PullAfter | pkg/wrapper/actions.go:258-262 | after any actions a remote chart is pulled with the client last bound |
| Isolation.LastBindingConcat | pkg/wrapper/testing_action.go:133-149 | the last binding wins, and other actions never affect it |
| ChartSource.SourceIff | pkg/wrapper/actions.go:218-243 | for all arguments exactly one of handle, local path, pull or refusal, each with its condition and carrying the argument it came from; a directory only for a local directory reference |
| ChartSource.PullUsesBoundClient | pkg/wrapper/distribution.go:40-52 | a pull uses the shared Configuration's client iff there is one, and an anonymous one iff there is none and the reference is OCI |
| ChartSource.UpdatesOnlyNamedDirectory | pkg/wrapper/actions.go:289-316 | dependencies are updated iff some are missing, the caller asked, and its reference names a local directory, which is the one written to; a chart with missing dependencies never proceeds |
| Cancellation.CancelledBeforeCheckNeverEnters | pkg/wrapper/actions.go:65-74 | a call on an already cancelled context returns CANCELLED (or INVALID_HANDLE if the handle is freed first) and never enters the SDK, in any run |
| Cancellation.ReturnsIff | pkg/wrapper/install.go:55-70 | in every run a call returns a code iff a step decided on it: a handle not live, the guard, the error of building, resolving or of the SDK, its success, or the way out of a cancelled call |
| Cancellation.ErrorBeforeSdk | pkg/wrapper/install.go:60-67 | an error met before the SDK is returned and the SDK never entered |
| Cancellation.ErrorInSdk | pkg/wrapper/actions.go:154-157 | an error of the SDK is what the call returns |
| Cancellation.SuccessIff | pkg/wrapper/upgrade.go:58-73 | a call returns OK iff the run has it take the SDK's success |
| Cancellation.SuccessWaitsForSdk | docs/upstream/install-cancellation-race.md:46-60 | and then the goroutine had finished |
| Cancellation.PlainCall | pkg/wrapper/install.go:55-70 | with nothing else at work, a call without a context handle or with a live one gets through to the SDK and returns what it returns |
| Cancellation.FreedHandleIsRefused | capi/config.go:91-107 | either free releases its handle for good and no other, only the typed one cancels, and a call naming the handle afterwards can only return INVALID_HANDLE |
| Cancellation.PastGuardWasLive | pkg/wrapper/actions.go:78-81 | a call in the SDK passed the guard at some step, with its context live at that step |
| Cancellation.CancelledInSdkIff | pkg/wrapper/install.go:55-68 | past the guard the context is cancelled iff a step after the guard cancelled it |
| Cancellation.RaceOnlyAfterLateCancel | docs/upstream/install-cancellation-race.md:46-60 | every run that reaches the status race cancelled the context after the guard |
| Cancellation.FreeStillCancels | capi/config.go:88-107 | freeing a context handle cancels every call that captured the context, at whatever stage: one at the guard can only return CANCELLED, one past it is cancelled at every later moment and can leave the SDK by that way whenever it is inside |
| Cancellation.CancelAfterGuardReachesRace | docs/upstream/install-cancellation-race.md:38-62 | a run that enters the SDK with a cancelled context, reaches the race, and returns CANCELLED with the install still running |
| ErrorTrees.AsCodedIsFirst | pkg/cerrors/cerrors.go:69-72 | the code found is that of the first CodedError in pre-order |
| ErrorTrees.IsFindsNodes | pkg/wrapper/actions.go:55-58 | a sentinel is found iff it is a node of the tree |
| ErrorTrees.FromErrorIsPreOrder | pkg/cerrors/cerrors.go:65-77 | first code in pre-order, else cancellation if a sentinel is in the tree, else unknown |
| ErrorTrees.FoundIsReported | pkg/cerrors/cerrors.go:69-72 | the CodedError found is a node of the tree and its code is the one reported |
| ErrorTrees.InnermostExists | pkg/cerrors/cerrors.go:63-64 | an error that carries a code has an innermost CodedError, so the rule names something |
| ErrorTrees.InnermostRuleFails | pkg/cerrors/cerrors.go:63-64 | for every error that carries a code, however it is wrapped or joined, coding it again reports the outer code and not an innermost one |
| ErrorTrees.InnermostRuleHoldsIff | pkg/cerrors/cerrors.go:65-72 | for every error tree: the CodedError reported has none beneath it iff searching what it wraps finds none |
| ErrorTrees.WithCodeKeepsRuleIff | pkg/cerrors/cerrors.go:55-61 | adding a code to any error keeps the innermost rule iff that error carries no code |
| ErrorTrees.CodeNumbersDiffer | pkg/cerrors/cerrors.go:12-37 | no two codes share a number |
| ErrorTrees.TextLayersKeepCode | pkg/cerrors/cerrors.go:39-40 | message wraps, however many, keep the code |
| ErrorTrees.SentinelsSurvive | pkg/wrapper/actions.go:55-58 | any stack of codes and messages keeps exactly the sentinels beneath |
| ErrorTrees.PhraseSurvives | pkg/wrapper/actions.go:59 | any stack of codes and messages keeps the unreachable-cluster phrase |
| ErrorTrees.ClassSurvives | pkg/wrapper/actions.go:47-49 | cancellation, not-found and unreachable keep their class under any such stack |
| ErrorTrees.WrapActionErrorCode | pkg/wrapper/actions.go:50-63 | the code the caller sees is the class of the wrapped error, and the text is unchanged |
| ErrorTrees.WrapActionErrorPrecedence | pkg/wrapper/actions.go:54-62 | cancelled, then not-found, then unreachable, then the fallback, read off the tree and the text |
| ErrorTrees.WrapActionErrorIdempotent | pkg/wrapper/actions.go:50-63 | classifying twice gives the code of classifying once; nil stays nil |
| ErrorTrees.PhraseInAnyCase | pkg/wrapper/actions.go:40-45 | the phrase is recognised in any capitalisation, wherever it stands |
| ErrorTrees.SdkPhraseIsRecognised | pkg/wrapper/actions.go:40-45 | in particular as the SDK spells it |
| ErrorTrees.CaseDoesNotMatter | pkg/wrapper/actions.go:59 | texts that differ in case only are classified alike |
| ErrorTrees.LowerCharIs | pkg/wrapper/actions.go:59 | capitals become their own small letters and no other ASCII character changes |
| History.HistoryRelease | pkg/wrapper/release_actions.go:236-252 | dropped then reported revisions are an ascending permutation of the input; min(max, n) are reported, and none dropped is newer than one kept |
| History.NewestKeepsNewest | pkg/wrapper/release_actions.go:247-249 | truncation splits an ascending history at its newest max |
| History.NewestIsMonotone | pkg/wrapper/release_actions.go:247-249 | the answer for k is a suffix of the answer for k + 1 |
| History.ReportDeterminedIff | pkg/wrapper/release_actions.go:246-250 | for every max: the report depends neither on storage order nor on how the sort arranges ties iff different summaries share a revision only among the dropped ones |
| History.SortingDeterminedIff | pkg/wrapper/release_actions.go:246 | with every revision reported, the outcome is determined iff revisions identify their summaries |
| History.StorageOrderIrrelevant | pkg/wrapper/release_actions.go:246-250 | stores with the same distinct revisions report the same history for every max |
| Dependencies.VersionedArchives | pkg/wrapper/dependency.go:206-214 | exactly the strictly versioned archives, in order |
| Dependencies.GlobMatchIsVersionedIff | pkg/wrapper/dependency.go:206-214 | a match named <dep>-<v>.tgz is versioned iff v is a strict version |
| Dependencies.VersionStatus | pkg/wrapper/dependency.go:252-268 | empty iff the versions are equal or comparable and satisfying; "invalid version" iff different and not comparable; else "wrong version" |
| Dependencies.PackagedStatus | pkg/wrapper/dependency.go:188-203 | "too many matches" iff two or more survive; a sole survivor decides |
| Dependencies.UnpackedStatus | pkg/wrapper/dependency.go:218-232 | missing iff no subchart has the name; otherwise the last such subchart decides |
| Dependencies.DependencyStatus | pkg/wrapper/dependency.go:179-184 | never empty; "ok", "corrupt" and "misnamed" each iff the sole surviving archive says so, "ok" needing the name and a satisfying version; with none, or one that cannot be stat'ed, the last subchart of the name decides |
| Dependencies.JunkIsIgnored | pkg/wrapper/dependency.go:179-198 | junk matches inserted anywhere among two or more leave the listed status as it was |
| Dependencies.VersionedDecide | pkg/wrapper/dependency.go:179-214 | two lists of two or more matches with the same versioned archives, in any order, are listed alike |
| Dependencies.LoneMatchAgainstJunkIff | pkg/wrapper/dependency.go:193-201 | adding junk to a lone match keeps its status iff the match is versioned or cannot be stat'ed |
| Dependencies.EntryNameInjective | pkg/wrapper/dependency.go:65 | entry names determine their index, by injectivity of the decimal rendering |
| Dependencies.IsHTTPIff | pkg/wrapper/dependency.go:57-59 | a repository is registered iff its URL starts with http:// or https:// |
| Dependencies.WriteRepoConfig | pkg/wrapper/dependency.go:53-74 | one entry per distinct http or https URL, in order of first use, none else, URLs and names pairwise distinct |

## Left out

- The Helm SDK itself (rendering, storage, Kubernetes clients, chart loading, downloads): every call into
  it is a parameter that may succeed, fail or, where it matters, panic.
- JSON options and summaries, field-by-field option copying, and the one-switch validators other than
  parseDryRun: a reading settles them.
- Semantic versions, constraints and globbing: given as predicates and as lists.
- releaseAction: it is chartActionShim with neither optional handle, so it is not repeated.
- Thin exports: each is one of the modelled shim bodies with one wrapped function.
- Login, logout, push, tags, index download, signing and verification.
- Word-level data races, for example two Close calls on one Config: the steps of Close (test, remove,
  clear) interleave, but each is atomic.
- Concurrent actions on one Configuration: Isolation is about sequences of actions.
- Isolation.SdkRun: the SDK is held to replacing the kube client, the storage and the capabilities of the
  Configuration a client dry run is handed, for every kind of action; it does not write through the
  references shared with the original, and capabilities it may cache lazily are not modelled.
- Isolation.Config.SetRegistryClient: a client object of the wrong type is refused before any write, which
  is not repeated here.
- Boundary.Library.CString: malloc's choice of address is a counter, so an address is not handed out again
  after it is freed; text is not cut at an embedded zero byte.
- Boundary.Library.Fail: the id and type names inside a handle error's text are not rendered.
- Boundary.Library.FreeTyped: the hook's own effects are in FreeProtocol, where hooks do not panic.
- Boundary.Library.StringResult: the char* slot is updated by position; an out and an error_out that are
  the same variable are outside the ownership contract and only Sessions excludes them.
- Scratch.Host.MkTemp: random names are fresh numbers.
- Scratch.Host.RemoveBestEffort: removal succeeds.
- History.SortSlice: the library sort's outcome is a parameter, any ascending permutation.
- Cancellation: helm_context_free is one step here; its two phases are in FreeProtocol.
- LogDelivery: a callback that re-enters the library is modelled by a second call it waits for; the C
  string made for each delivery is allocated and freed around the callback and is not in Boundary's heap.
- LogDelivery.CLevel: levels are unbounded integers, as only comparisons are made.
- Dependencies.WriteRepoConfig: credentials, which are the same for every entry, and writing the file.
- Liveness is stated as bounded work and absence of deadlock, not against a fair scheduler.

# Verification of the OVMS module's concurrent and stateful cores

The firmware of the Open Vehicle Monitoring System (OVMS version 3) is mostly
wiring around the ESP32, but its `main/` directory holds a handful of stateful
cores with real invariants. This project models them in Dafny and proves what
they are for. `dafny verify dfyconfig.toml` checks everything.

| files | what they are about |
|---|---|
| `FollowTask`, `ConsoleTeardown`, `TeardownRuns`, `LateInput`, `ConsoleReaper` | A follow-mode command task runs beside its console and frees itself, while the console may be torn down at any moment. A transition system with a program counter for each thread; memory safety of every interleaving but for three unlocked accesses, one deletion per console, no wait under the Mongoose lock, progress. |
| `LogFanout`, `LogLifetime`, `LogStranding`, `LogStages`, `ConsoleQueue`, `ConsoleShows`, `OvmsConsole` | One log message is handed to every console and file log, and travels through bounded queues, the drop-oldest deferred queue and the destruction paths, on one shared reference count. |
| `EventMap`, `EventQueue`, `EventLifecycle`, `EventFates`, `EventRuns`, `EventRemovals`, `OvmsEvents` | The event dispatcher: handlers posted through the same bounded queue as the signals, callbacks that register and deregister while being walked over, delayed signals in a timer pool; the whole of it over runs of any length. |
| `ConfigStore`, `ConfigWriteThrough`, `RecLock`, `ConfigSystem`, `OvmsConfig`, `ConfigFile` | The config cache with write-back deferred to the outermost lock, a second lock on the storage, and the text format of its files. |
| `PersistSlots`, `ElemNames`, `VectorMetric`, `VectorState`, `VectorAgreement`, `VectorGap`, `MetricVector` | The table of slots that survives a reboot, and vector metrics mirrored into it. |
| `MetricRegistry`, `UniquePrefix` | The sorted linked list of metrics and the early-exit search by prefix that only the order makes right. |
| `ChangeBits`, `ChangeProtocol` | One change bit for each reader, set by writers after a store and cleared by the reader before it reads. |
| `Calendar` | Day numbers and times of calendar dates. |
| `GlobMatch`, `BufferedShell`, `CStrings`, `CommandTree`, `CommandNames` | Wildcard matching, chunked shell output, and the command tree. |

Where the program changes state step by step, a class or a loop does so here too,
and its contract equates the new state with a function of the old one; the lemmas
are about those functions. Threads are modelled as state machines whose steps are
the accesses the code makes without interruption.

## Where the code does not do what it seems to promise

Each of these is stated exactly, for all inputs, rather than left aside; where the
failing states are those of a state machine, a run that reaches one is given.

- A command may be started safely while the termination registration is empty and
  only then: the input callback alone admits a command beside a task that has
  unhooked itself but not yet deregistered (`ConsoleTeardown.StartIsSafeIffUnregistered`;
  reached by `TeardownRuns.StragglerIsReached`).
- The unlocked read of the connection's flags can come after the connection is gone,
  exactly for consoles served over Mongoose (`ConsoleTeardown.FlagsReadIff`, reached by
  `TeardownRuns.FlagsReadIsReached`).
- A Ctrl-C is delivered by unlocked reads of the handler and its data and a store to the
  task. It can come too late, calling through NULL or storing to freed memory, exactly if
  the task has gone or nothing holds it up; only the Mongoose lock can, while the task
  waits for it to write (`LateInput.InputIsLateIff`, reached by `LateInput.TooLateIsReached`).
- The file log task that ends by itself strands messages logged between its last look
  at the queue and the queue's deletion, which are never freed: exactly if the queue has
  a message, or room for one while the task is registered or owed a hand-over
  (`LogStranding.FileStrandsIff`, reached by `LogStranding.SelfExitIsReached`).
- A flush of deferred messages at its end strands what is deferred meanwhile: exactly if
  there is such a message already, or the console thread has one it decided to defer
  before, or a command has the input of a console with a queue
  (`LogStranding.FlushStrandsIff`, reached by `LogStranding.LateInputIsReached` and
  `LogStranding.LateSendIsReached`). While a command has the input a flush puts every
  message back and does not end (`LogStranding.FlushCanEndIff`, reached by
  `LogStranding.StuckIsReached`).
- An event whose name starts with `ticker.` may be lost to a full queue, and so may the
  registration or removal of handlers with such an event or caller
  (`EventFates.OnlyTickersAreDropped`). So the removal of handlers that a callback
  deregistered is sure to follow exactly for other callers (`EventRemovals.AlwaysRemovedIff`).
- A vector metric that grows over a gap agrees with its slots only if the slots kept
  from an earlier, longer vector hold zero (`VectorState.SetAgreesIff`, reached by
  `VectorGap.GapIsReached`). Element names
  are cut at 99 characters, so metric names longer than 96 characters share slots
  (`ElemNames.ElemNamesDistinct`). `SetValue` with an empty vector changes the value but
  does not report a modification (`MetricVector.OvmsMetricVector.SetValue`).
- Over reboots two accepted names share a slot exactly if their hashes are equal
  (`PersistSlots.SlotsShareIff`); the refusal that keeps them apart lasts one boot
  (`PersistSlots.RebootForgetsNames`).
- A persistent metric comes back after a reboot as it was exactly if no other name with
  one of its hashes is registered first (`VectorAgreement.LifeAgrees`).
- Registering a parameter while its deletion is pending reads the old file
  (`ConfigWriteThrough.ReRegisterIff`, reached by
  `ConfigWriteThrough.StaleReRegisterIsReached`); if it is then changed, the order of the objects'
  addresses decides whether the file survives (`ConfigWriteThrough.OrderMattersIff`,
  reached by `ConfigWriteThrough.MixIsReached`).
- A lock object released by a task that does not hold the mutex leaves the mutex taken
  for good (`RecLock.CountIsLiveIff`, reached by `RecLock.StrayIsReached`).
- The day number is off by one in years before 0, counted from March, that are not leap
  years, because C division truncates (`Calendar.DaysAreRightIff`). The source's comment
  gives ranges that assume otherwise.
- The comment in `glob_match.cpp` speaks of separators, which the code does not have; and
  in escape mode an escaped question mark still matches any character
  (`GlobMatch.EscapesAsDocumentedIff`).
- `BufferedShell::SetBuffer` with a list keeps counting the room of the old list's last
  chunk (`BufferedShell.BufferedShell.SetBuffer`).
- Full command names lead back to their command only if the names on the path have no
  spaces and the first and last are not empty (`CommandTree.OvmsCommandApp.FullNameFindsIff`).

## Model

| member | source | states |
|---|---|---|
| FollowTask.StepKeepsInv | vehicle/OVMS.V3/main/ovms_command.cpp:102-166 | every step of console, task, reaper and lock holders keeps the invariant of the registration, the lifetimes and the Mongoose lock |
| FollowTask.RunKeepsInv | vehicle/OVMS.V3/main/ovms_command.cpp:1829-1902 | the invariant holds after every run that starts commands only while no handler is registered |
| ConsoleTeardown.EveryStepIsSound | vehicle/OVMS.V3/main/ovms_command.cpp:1829-1902 | in every reachable state no step of any thread touches a freed task, writer or connection, apart from three accesses made without a lock: the read of the flags, and the call and the store that deliver a typed character |
| ConsoleTeardown.RegistrationMeansLive | vehicle/OVMS.V3/main/ovms_command.cpp:102-122 | a registered follow-mode handler names a live task, another one goes with its input callback, and neither outlives the console; a freed writer has no task that will still use it |
| ConsoleTeardown.MongooseThreadNeverWaits | vehicle/OVMS.V3/main/ovms_console.cpp:83-110 | the thread that holds the Mongoose lock never waits for the task |
| ConsoleTeardown.DeletedOnce | vehicle/OVMS.V3/main/ovms_console.cpp:83-110 | a console is deleted at most once: by its closing handler if CloseConsole said no, else from the reaping list |
| ConsoleTeardown.StopRankFalls | vehicle/OVMS.V3/main/ovms_command.cpp:1829-1902 | once a stop is requested, every step of the task lowers a rank on its program counter |
| ConsoleTeardown.OthersLeaveTaskAlone | vehicle/OVMS.V3/main/ovms_command.cpp:141-166 | no other thread moves a running task or takes back a stop request |
| ConsoleTeardown.StoppingTaskCanStep | vehicle/OVMS.V3/main/ovms_command.cpp:1829-1902 | a stopping task is only ever held up by the Mongoose lock in other hands |
| ConsoleTeardown.DeferredConsoleIsReaped | vehicle/OVMS.V3/main/ovms_console.cpp:99-110 | from every reachable state with a deferred console, the task can finish and the next poll deletes the console |
| ConsoleTeardown.CloseCompletes | vehicle/OVMS.V3/main/ovms_console.cpp:83-97 | closing the connection of a console with a registered task needs no step of the task |
| ConsoleTeardown.StartIsSafeIffUnregistered | vehicle/OVMS.V3/main/ovms_command.h:85-125 | starting a command keeps every later step of every orderly run sound exactly when no follow-mode handler is registered |
| ConsoleTeardown.FlagsReadIff | vehicle/OVMS.V3/components/console_ssh/src/console_ssh.cpp:967-972 | of a task about to read the flags, some run frees the connection before the read exactly if the console is served over Mongoose |
| LateInput.InputIsLateIff | vehicle/OVMS.V3/main/ovms_shell.cpp:63-73 | at each step of delivering a typed character, some run that has not finished it calls through NULL or stores to memory that is not the task's exactly if the task has gone or is not held up by the Mongoose lock |
| LateInput.TooLateIsReached | vehicle/OVMS.V3/main/ovms_command.cpp:1881-1886 | from the start runs lead to each step of a delivery that can come too late, whatever the console |
| ConsoleTeardown.FlagsReadCanBeLate | vehicle/OVMS.V3/components/console_ssh/src/console_ssh.cpp:967-972 | there, from every state of a task about to read the flags |
| TeardownRuns.StragglerIsReached | vehicle/OVMS.V3/main/ovms_command.h:85-125 | a run leads to a state in which the input callback admits a command beside a registered task, and starting it there dooms an orderly run |
| TeardownRuns.FlagsReadIsReached | vehicle/OVMS.V3/components/console_ssh/src/console_ssh.cpp:967-972 | a run leads to a task about to read the flags with an idle server and a free lock |
| TeardownRuns.EveryReapDeletes | vehicle/OVMS.V3/main/ovms_console.cpp:99-110 | in every run from a poll of a deferred console whose task has gone, the console is deleted once and for all after the rounds of its destructors; with a task left the poll changes nothing |
| TeardownRuns.StoppingTaskIsBounded | vehicle/OVMS.V3/main/ovms_command.cpp:1829-1902 | in every run a task asked to stop takes a bounded number of own steps, the bound reaching its end only with the task gone |
| TeardownRuns.ClosedIsSafeIff | vehicle/OVMS.V3/components/console_ssh/src/console_ssh.cpp:967-972 | once the console is marked as closing no run touches a freed object exactly if no task has passed its test of the mark |
| TeardownRuns.UnstoppedTaskFollows | vehicle/OVMS.V3/main/ovms_vfs.cpp:741-771 | in every run a task that keeps its file and is not asked to stop goes on reading and writing |
| TeardownRuns.FlushSendsAll | vehicle/OVMS.V3/main/ovms_console.cpp:338-352 | a flush of n messages sends each of the n before the task deregisters |
| TeardownRuns.FailedStartIsUndone | vehicle/OVMS.V3/main/ovms_command.cpp:1829-1860 | a command whose task cannot be created leaves the console as it was |
| TeardownRuns.OtherHandlerRuns | vehicle/OVMS.V3/main/ovms_command.cpp:124-140 | a termination handler of another command is called in the first of the destructors' rounds, and then nobody is registered |
| Reaping.OvmsConsole.RegisterTerminationCallback | vehicle/OVMS.V3/main/ovms_command.cpp:102-108 | the registration holds handler and context afterwards |
| Reaping.OvmsConsole.DeregisterTerminationCallback | vehicle/OVMS.V3/main/ovms_command.cpp:110-122 | clears the registration, handler and context, exactly if it is of the caller's kind |
| Reaping.OvmsConsole.StopFollowModeTask | vehicle/OVMS.V3/main/ovms_command.cpp:150-166 | asks the task to stop exactly if a follow-mode handler is registered |
| Reaping.ConsoleReaper.CloseConsole | vehicle/OVMS.V3/main/ovms_console.cpp:83-97 | queues the console, marked closing and its task stopped, exactly if it has a follow-mode task |
| Reaping.ConsoleReaper.ReapConsoles | vehicle/OVMS.V3/main/ovms_console.cpp:99-110 | deletes, once each, the consoles whose task has gone and keeps the others in order |
| Reaping.KeptDistinct | vehicle/OVMS.V3/main/ovms_console.cpp:99-110 | the reaping list never holds a console twice |
| LogFanout.StepKeepsInv | vehicle/OVMS.V3/main/ovms_command.cpp:1186-1202 | every step keeps each count equal to the references in the system |
| LogLifetime.CountIsReferences | vehicle/OVMS.V3/main/ovms_console.cpp:173-352 | after any run a message's count is the hand-overs still to make plus the queue slots and hands that hold it plus the references lost with a queue |
| LogLifetime.FreedIffUnreferenced | vehicle/OVMS.V3/main/log_buffers.cpp:81-96 | a message handed to at least one receiver is freed exactly when no reference to it is left |
| LogLifetime.NoUseAfterFree | vehicle/OVMS.V3/main/ovms_console.cpp:201-352 | no enabled step uses a freed message |
| LogLifetime.FreedOnce | vehicle/OVMS.V3/main/log_buffers.cpp:86-91 | no message is freed twice |
| LogLifetime.OrderlyRunsStrandNothing | vehicle/OVMS.V3/main/ovms_command.cpp:1300-1430 | if the file task ends only on request, deregistered first, no command takes the input during a flush, and no flush begins with a message on its way to the deferred queue, no reference is ever lost |
| LogLifetime.OrderlyRunsLeakNothing | vehicle/OVMS.V3/main/ovms_command.cpp:1432-1483 | in such runs a message is freed as soon as its last reference goes |
| LogLifetime.StrandedIsForever | vehicle/OVMS.V3/main/ovms_command.cpp:1300-1430 | a message whose reference was lost with a deleted queue is never freed |
| LogLifetime.SelfExitCanStrand | vehicle/OVMS.V3/main/ovms_command.cpp:1300-1430 | what the registered, ending file task with room in its queue strands is never freed, whatever happens later |
| LogStranding.StrandsExactly | vehicle/OVMS.V3/main/ovms_command.cpp:1300-1430 | a step loses a reference to a message exactly if it deletes a queue that holds it: the file task's or a console's deferred one |
| LogStranding.FileStrandsIff | vehicle/OVMS.V3/main/ovms_command.cpp:1300-1430 | some run loses a message when the ending file task deletes its queue exactly if the queue has one, or has room while the task is still registered or owed a hand-over |
| LogStranding.FlushStrandsIff | vehicle/OVMS.V3/main/ovms_console.cpp:222-352 | in every reachable state of a flush about to delete the deferred queue, some run in which no command takes the input anew loses a message by it exactly if one is deferred already, or the console thread is on its way there with one, or a command has the input of a console with a queue |
| LogStranding.TakingInputStrands | vehicle/OVMS.V3/main/ovms_console.cpp:338-352 | a command that takes the input just then puts a message at risk, so the rule against it is needed |
| LogStranding.FlushCanEndIff | vehicle/OVMS.V3/main/ovms_console.cpp:201-241 | a flush can end while the input is not given back exactly if no command has it or no message is deferred; otherwise it puts every message back |
| LogStranding.SelfExitIsReached | vehicle/OVMS.V3/main/ovms_command.cpp:1300-1430 | from the start a failed write leads to the ending file task that is still registered |
| LogStranding.LateInputIsReached | vehicle/OVMS.V3/main/ovms_console.cpp:338-352 | from the start a run leads to a flush at its end with the input taken again |
| LogStranding.LateSendIsReached | vehicle/OVMS.V3/main/ovms_console.cpp:222-352 | from the start a run leads to a flush at its end with a message still on its way to the deferred queue, though no command has the input |
| LogStranding.StuckIsReached | vehicle/OVMS.V3/main/ovms_console.cpp:201-241 | from the start a run leads to a flush that cannot end |
| LogStages.AlwaysStaged | vehicle/OVMS.V3/main/ovms_console.cpp:68-81 | in every run a console is ready exactly while it lives, is a receiver until its destructor takes it out, loses its queues one after the other, and no queue exceeds its capacity |
| LogStages.HandedOverIff | vehicle/OVMS.V3/main/ovms_console.cpp:173-189 | in every reachable state a message is put last into the queue of a receiver exactly if it lives and has room; otherwise one reference is dropped |
| LogStages.FileLogCanStop | vehicle/OVMS.V3/main/ovms_command.cpp:1300-1430 | the file log can always be stopped in order while its queue has room, by its own steps |
| LogStages.ConsoleCanGo | vehicle/OVMS.V3/main/ovms_console.cpp:68-81 | an idle console can be closed and destroyed while no message is being handed out, and then holds no reference |
| ConsoleQueue.PollConserves | vehicle/OVMS.V3/main/ovms_console.cpp:201-317 | every message a poll takes from the queue is kept back or released exactly once |
| ConsoleQueue.NewestAreKept | vehicle/OVMS.V3/main/ovms_console.cpp:222-241 | while a command has the input, exactly the newest messages are kept, the others released oldest first and counted |
| ConsoleQueue.ShownInOrder | vehicle/OVMS.V3/main/ovms_console.cpp:201-352 | messages are shown in the order of their arrival |
| ConsoleShows.FreePollShows | vehicle/OVMS.V3/main/ovms_console.cpp:242-291 | with the input free a monitoring console shows every message with text, any console releases all of them, and nothing else changes |
| ConsoleShows.FlushShows | vehicle/OVMS.V3/main/ovms_console.cpp:338-352 | a flush shows what was kept back and has text, releases all of it, and leaves nothing kept or counted |
| ConsoleShows.InputIs | vehicle/OVMS.V3/main/ovms_console.cpp:201-241 | taking the input keeps messages back from then on; giving it back shows what was kept |
| ConsoleShows.SessionShows | vehicle/OVMS.V3/main/ovms_console.cpp:201-352 | after a command took the input, messages came and it gave it back, exactly the newest that a queue holds have been shown and all released in order |
| OvmsConsole.OvmsConsole.Log | vehicle/OVMS.V3/main/ovms_console.cpp:173-189 | queues the message, or releases it and counts it as lost |
| OvmsConsole.OvmsConsole.Poll | vehicle/OVMS.V3/main/ovms_console.cpp:201-317 | handles the whole queue, acknowledges the lost messages, and lowers each count once for each release |
| OvmsConsole.OvmsConsole.Finalise | vehicle/OVMS.V3/main/ovms_console.cpp:338-352 | shows and releases what was kept back |
| OvmsConsole.OvmsConsole.DeleteEventQueue | vehicle/OVMS.V3/main/ovms_console.cpp:322-336 | lowers each count by the number of times the message was in the queue |
| OvmsConsole.OvmsConsole.Delete | vehicle/OVMS.V3/main/ovms_console.cpp:68-81 | releases everything the console still holds |
| OvmsConsole.OvmsConsole.ReportLost | vehicle/OVMS.V3/main/ovms_console.cpp:295-309 | the notice counts the losses since the last one modulo 2^32 and acknowledges them |
| OvmsConsole.LogToAll | vehicle/OVMS.V3/main/ovms_command.cpp:1186-1202 | a new message ends with a count equal to the number of queues it is in |
| EventMap.MapRefinesHistory | vehicle/OVMS.V3/main/ovms_events.cpp:428-536 | the callable handlers of an event are those added and not since removed or invalidated, in order of registration |
| EventMap.NoEmptyLists | vehicle/OVMS.V3/main/ovms_events.cpp:499-536 | no list in the map is ever empty |
| EventMap.WalkCalls | vehicle/OVMS.V3/main/ovms_events.cpp:311-384 | one callback loop calls exactly the entries due, in list order, without changing a list's structure |
| EventMap.DispatchCalls | vehicle/OVMS.V3/main/ovms_events.cpp:311-384 | a signal calls the event's own handlers and then those for any event; one nulled by an earlier callback is skipped, one registered meanwhile is not called |
| EventRuns.DispatchHistory | vehicle/OVMS.V3/main/ovms_events.cpp:311-384 | the map after a signal is that of the history continued with the invalidations its callbacks made |
| EventRuns.DispatchServes | vehicle/OVMS.V3/main/ovms_events.cpp:311-384 | a signal calls the handlers standing in the history, own event first, but those deregistered by a callback before their turn |
| EventRuns.StepKeepsInv | vehicle/OVMS.V3/main/ovms_events.cpp:250-384 | every step of queue, task and callbacks keeps the map equal to its history, every call explained by it, and every invalidation followed by its removal |
| EventRuns.EveryCallIsEligible | vehicle/OVMS.V3/main/ovms_events.cpp:250-536 | over every run from the start each signal called exactly the handlers then eligible; the history consists of the messages taken from the queue in the order they were sent, and of invalidations, whose removals follow but for callers named like tickers |
| EventRuns.RegistrationsAreQueued | vehicle/OVMS.V3/main/ovms_events.cpp:407-427 | handlers that callbacks register are queued to be added, unless their event passes for a ticker |
| EventRuns.RaisesAreMade | vehicle/OVMS.V3/main/ovms_events.cpp:652-740 | the signals callbacks raise are made as they ask for them and in that order |
| EventRuns.RunIsQueued | vehicle/OVMS.V3/main/ovms_events.cpp:250-303 | a run of the system is a run of the queue, and the changes made to the map are those whose messages were taken |
| EventRemovals.AlwaysRemovedIff | vehicle/OVMS.V3/main/ovms_events.cpp:457-497 | in all runs the removal of what a callback deregisters is made or queued, exactly for callers whose names do not start with ticker. |
| EventQueue.StepKeepsInv | vehicle/OVMS.V3/main/ovms_events.cpp:538-779 | every step keeps ownership, story and timers consistent |
| EventLifecycle.CompletedOnceOrOwnedOnce | vehicle/OVMS.V3/main/ovms_events.cpp:386-406 | every signal is completed exactly once or owned by exactly one of queue, timers and task |
| EventFates.HandledOrRefused | vehicle/OVMS.V3/main/ovms_events.cpp:311-406 | a signal raised with phases that is completed saw Pre, callbacks, Post, FreeData in that order or FreeData alone, one raised without callbacks and completion or completion alone; alone exactly if a full queue had no room for it as a ticker or it could not be scheduled |
| EventFates.StepRaises | vehicle/OVMS.V3/main/ovms_events.cpp:652-740 | raising makes one signal, with the next identity and of the kind and name asked for; nothing else makes one |
| EventFates.RaisedGoes | vehicle/OVMS.V3/main/ovms_events.cpp:596-740 | a signal goes to the end of the queue if there is room, a delayed one into the first idle timer or a new one |
| EventLifecycle.TimerPool | vehicle/OVMS.V3/main/ovms_events.cpp:570-650 | however often timer callbacks run, a timer is active exactly while it holds a payload, and the pool has at most one timer more than were ever pending together |
| EventLifecycle.HighWaterMark | vehicle/OVMS.V3/main/ovms_events.cpp:596-650 | over every run the mark the pool is measured against is the largest number of payloads pending together in any state passed |
| EventLifecycle.PayloadIsNeverOverwritten | vehicle/OVMS.V3/main/ovms_events.cpp:570-650 | a pending payload stays in its timer until that timer fires |
| EventFates.FirstInFirstOut | vehicle/OVMS.V3/main/ovms_events.cpp:250-303 | over every run the messages sent that found room are those taken and those still queued, in the same order |
| EventFates.OnlyTickersAreDropped | vehicle/OVMS.V3/main/ovms_events.cpp:538-568 | of the messages sent that found no room all have names starting with ticker. and are reported, but a fatal last one: the system aborts exactly at the first other one, or when the queue stays empty |
| OvmsEvents.OvmsEvents.CheckQueueOverflow | vehicle/OVMS.V3/main/ovms_events.cpp:538-568 | aborts exactly for events that are no tickers |
| OvmsEvents.OvmsEvents.FreeQueueSignalEvent | vehicle/OVMS.V3/main/ovms_events.cpp:386-406 | completes the signal once |
| OvmsEvents.OvmsEvents.SignalEvent | vehicle/OVMS.V3/main/ovms_events.cpp:652-740 | raises a signal at once or through the timer pool; a signal that cannot be scheduled is completed |
| OvmsEvents.OvmsEvents.ScheduleEvent | vehicle/OVMS.V3/main/ovms_events.cpp:596-650 | takes the first idle timer or a new one |
| OvmsEvents.OvmsEvents.SignalScheduledEvent | vehicle/OVMS.V3/main/ovms_events.cpp:570-594 | posts the payload once and frees the timer; without a payload does nothing |
| OvmsEvents.OvmsEvents.HandleQueueAddHandler | vehicle/OVMS.V3/main/ovms_events.cpp:428-454 | appends the handler to its event's list |
| OvmsEvents.OvmsEvents.HandleQueueRemoveHandlers | vehicle/OVMS.V3/main/ovms_events.cpp:499-536 | removes a caller's handlers and the lists left empty |
| OvmsEvents.OvmsEvents.DeregisterEvent | vehicle/OVMS.V3/main/ovms_events.cpp:457-497 | on the event task nulls a caller's callbacks at once, and posts their removal |
| OvmsEvents.OvmsEvents.RunCallbacks | vehicle/OVMS.V3/main/ovms_events.cpp:328-350 | the index loop over one list, with callbacks that register, deregister and raise |
| OvmsEvents.OvmsEvents.HandleQueueSignalEvent | vehicle/OVMS.V3/main/ovms_events.cpp:311-384 | handles one signal: callbacks as specified, then completion |
| OvmsEvents.OvmsEvents.EventTask | vehicle/OVMS.V3/main/ovms_events.cpp:250-303 | one round of the event task is a run of the whole system; waiting in vain aborts unless the firmware is being flashed |
| OvmsEvents.PostedIsRun | vehicle/OVMS.V3/main/ovms_events.cpp:311-384 | what callbacks post during the loop is a run of the queue |
| ConfigStore.PendingIsGreatest | vehicle/OVMS.V3/main/ovms_config.cpp:714-722 | the operation pending for a parameter is the greatest added since nothing was pending |
| ConfigStore.CommitFlushes | vehicle/OVMS.V3/main/ovms_config.cpp:727-758 | a commit that finds the storage free leaves exactly the files owed, in whatever order it works |
| ConfigStore.ChangeIs | vehicle/OVMS.V3/main/ovms_config.cpp:1357-1463 | a change replaces the instances, and a save comes to pend exactly if they differ and the parameter has a name |
| ConfigStore.RemovalIs | vehicle/OVMS.V3/main/ovms_config.cpp:771-786 | removing a parameter empties it, takes its name and leaves its deletion pending |
| ConfigStore.RegistrationIs | vehicle/OVMS.V3/main/ovms_config.cpp:760-770 | a name that is taken stays as it is; a new one gets what its file holds |
| ConfigWriteThrough.DeferredIsWriteThrough | vehicle/OVMS.V3/main/ovms_config.cpp:714-786 | deferred writing is write-through: same caches at all times, same files once nothing is pending |
| ConfigWriteThrough.StepIsWriteThrough | vehicle/OVMS.V3/main/ovms_config.cpp:1357-1521 | each change, registration, removal and commit matches the store that writes at once |
| ConfigWriteThrough.ReRegisterIff | vehicle/OVMS.V3/main/ovms_config.cpp:760-786 | registering a name again matches exactly if no deletion of it is pending or its file is empty |
| ConfigWriteThrough.StaleReRegisterIsReached | vehicle/OVMS.V3/main/ovms_config.cpp:760-786 | registering, changing, committing and removing a parameter leads to a state where registering it again brings the old entries back |
| ConfigWriteThrough.OrderMattersIff | vehicle/OVMS.V3/main/ovms_config.cpp:742-757 | the result of a commit is independent of the order exactly if no name has both a save and a deletion pending |
| ConfigWriteThrough.MixIsReached | vehicle/OVMS.V3/main/ovms_config.cpp:760-786 | registering, removing, registering and changing a parameter from the empty store leads to both being pending exactly if the name and its entries are not empty |
| RecLock.CountIsLiveIff | vehicle/OVMS.V3/main/ovms_mutex.cpp:139-191 | over any run m_count is the number of live locked objects exactly if no locked object was released by a task not holding the mutex |
| RecLock.StrayIsReached | vehicle/OVMS.V3/main/ovms_mutex.cpp:139-191 | one task locks and another releases: whatever happens afterwards the mutex stays with the first, held beyond any live object |
| RecLock.StepKeeps | vehicle/OVMS.V3/main/ovms_mutex.cpp:155-191 | constructing, moving, relocking, releasing and destroying lock objects keep the balance |
| RecLock.GrantedIffNotOthers | vehicle/OVMS.V3/main/ovms_mutex.cpp:139-191 | a lock object gets the mutex exactly if no other task has it, the holder once more |
| RecLock.ReleaseGives | vehicle/OVMS.V3/main/ovms_mutex.cpp:146-191 | a release by the holder gives it back once, the last one frees it; a destroyed object is gone |
| RecLock.CountOneIsOutermost | vehicle/OVMS.V3/main/ovms_config.cpp:701-709 | a count of one at a locked object means it is the only live one |
| ConfigSystem.SystemIsWriteThrough | vehicle/OVMS.V3/main/ovms_config.cpp:686-786 | whatever tasks and backups do, the store shows what write-through would show |
| ConfigSystem.CommitIffOutermost | vehicle/OVMS.V3/main/ovms_config.cpp:701-758 | files change and pending operations are done exactly at the release of the only live lock with the storage free, and then all of them |
| ConfigSystem.BackupSeesNoChange | vehicle/OVMS.V3/main/ovms_config.cpp:1026-1074 | no file changes while a backup holds the storage |
| ConfigSystem.BackupHoldsFiles | vehicle/OVMS.V3/main/ovms_config.cpp:1026-1074 | from its beginning until it is done a backup sees no file change, whatever the tasks do |
| ConfigSystem.FirstReleaseCatchesUp | vehicle/OVMS.V3/main/ovms_config.cpp:1074-1082 | the first outermost release that finds the storage free brings the files up to date |
| OvmsConfig.OvmsRecMutex.Lock | vehicle/OVMS.V3/main/ovms_mutex.cpp:139-144 | grants the mutex to its holder or when it is free, and counts |
| OvmsConfig.OvmsRecMutex.Unlock | vehicle/OVMS.V3/main/ovms_mutex.cpp:146-153 | gives the mutex back once, and only for the holder |
| OvmsConfig.OvmsRecMutexLock.Moved | vehicle/OVMS.V3/main/ovms_mutex.cpp:162-168 | the lock moves to the new object |
| OvmsConfig.OvmsRecMutexLock.Unlock | vehicle/OVMS.V3/main/ovms_mutex.cpp:184-191 | the object is unlocked afterwards; the mutex is given back by its holder only |
| OvmsConfig.OvmsConfig.TransactionAdd | vehicle/OVMS.V3/main/ovms_config.cpp:714-722 | adds an operation; a deletion stays |
| OvmsConfig.OvmsConfig.TransactionCommit | vehicle/OVMS.V3/main/ovms_config.cpp:727-758 | performs all pending operations in some order, or none if the storage is held |
| OvmsConfig.OvmsConfig.RegisterParam | vehicle/OVMS.V3/main/ovms_config.cpp:760-774 | a new parameter has the entries of its file |
| OvmsConfig.OvmsConfig.DeregisterParam | vehicle/OVMS.V3/main/ovms_config.cpp:776-786 | clears and removes the parameter and leaves its deletion pending |
| OvmsConfig.OvmsConfig.CachedParam | vehicle/OVMS.V3/main/ovms_config.cpp:906-914 | finds a parameter by full name or by unique prefix |
| OvmsConfig.OvmsConfig.SetParamValue | vehicle/OVMS.V3/main/ovms_config.cpp:799-808 | changes an entry and saves only if it differs |
| OvmsConfig.OvmsConfig.DeleteInstance | vehicle/OVMS.V3/main/ovms_config.cpp:895-903 | removes an entry and saves only if there was one |
| OvmsConfig.OvmsConfig.SetParamMap | vehicle/OVMS.V3/main/ovms_config.cpp:958-967 | replaces all entries, registering the parameter if need be |
| OvmsConfig.OvmsConfig.Unlock | vehicle/OVMS.V3/main/ovms_config.cpp:701-709 | commits exactly if the last lock is about to be released |
| OvmsConfig.AnswerIsMeant | vehicle/OVMS.V3/main/ovms_command.h:129-150 | the early-exit lookup in a map's keys finds the key, else the only one with the prefix |
| ConfigFile.RoundTripIff | vehicle/OVMS.V3/main/ovms_config.cpp:1288-1339 | a map written and loaded is the same map exactly if every entry fits the format: no TAB, newline or NUL in keys, no newline or NUL in values, lines of at most 2499 bytes |
| ConfigFile.RewritingKeepsContents | vehicle/OVMS.V3/main/ovms_config.cpp:1465-1488 | loading and rewriting any file brings it into a form that reads the same |
| ConfigFile.LoadedFits | vehicle/OVMS.V3/main/ovms_config.cpp:1307-1334 | every entry read from any file fits the format |
| ConfigFile.SpaceLineIsRead | vehicle/OVMS.V3/main/ovms_config.cpp:1307-1334 | a line without a TAB is split at its first space |
| ConfigFile.TabLineIsRead | vehicle/OVMS.V3/main/ovms_config.cpp:1307-1334 | a line with a TAB is split at the first TAB, whatever its spaces |
| ConfigFile.OtherLineIsIgnored | vehicle/OVMS.V3/main/ovms_config.cpp:1307-1334 | a line with neither is passed over |
| ConfigFile.LongLineIsCut | vehicle/OVMS.V3/main/ovms_config.cpp:1305-1308 | a longer line is read in parts of 2499 bytes, each without its last |
| ConfigFile.UnfinishedLineIsCut | vehicle/OVMS.V3/main/ovms_config.cpp:1305-1308 | a last line without a newline loses its last byte |
| ConfigFile.LoadConfig | vehicle/OVMS.V3/main/ovms_config.cpp:1288-1339 | the loop over lines of at most 2499 bytes, split at the first TAB or else the first space |
| ConfigFile.RewriteConfig | vehicle/OVMS.V3/main/ovms_config.cpp:1465-1488 | writes a line for each entry |
| ConfigFile.SaveAndLoad | vehicle/OVMS.V3/main/ovms_config.cpp:1288-1488 | writing and loading return the same map exactly if every entry fits |
| PersistSlots.TableInvForever | vehicle/OVMS.V3/main/ovms_metrics.cpp:792-831 | through any registrations, writes and reboots at most 100 slots are used, with distinct hashes |
| PersistSlots.SlotsStay | vehicle/OVMS.V3/main/ovms_metrics.cpp:792-831 | a slot keeps its hash for ever |
| PersistSlots.SameNameSameSlot | vehicle/OVMS.V3/main/ovms_metrics.cpp:792-831 | a name always gets the same slot, over any number of reboots, with its contents untouched |
| PersistSlots.DifferentNamesDifferentSlots | vehicle/OVMS.V3/main/ovms_metrics.cpp:797-804 | two names accepted within one boot never share a slot |
| PersistSlots.SlotsShareIff | vehicle/OVMS.V3/main/ovms_metrics.cpp:792-831 | over any operations and reboots two accepted names have the same slot exactly if their hashes are equal |
| PersistSlots.RebootForgetsNames | vehicle/OVMS.V3/main/ovms_metrics.cpp:797-804 | after any operations, a reboot, and any more in which no other name with its hash was registered, a name is given the slot of the one whose hash it shares |
| PersistSlots.PMetrics.Register | vehicle/OVMS.V3/main/ovms_metrics.cpp:792-831 | the loop over the table; refused exactly on a hash collision or a full table |
| PersistSlots.RefusedIff | vehicle/OVMS.V3/main/ovms_metrics.cpp:792-831 | a registration is refused exactly if another name with the hash was accepted in this boot or all 100 slots have other hashes; nothing changes then |
| PersistSlots.AcceptedGets | vehicle/OVMS.V3/main/ovms_metrics.cpp:792-831 | an accepted name gets the first slot with its hash, else the next one with value 0 |
| PersistSlots.PMetrics.FindHash | vehicle/OVMS.V3/main/ovms_metrics.cpp:750-759 | the first slot with the hash |
| ElemNames.ElemNamesDistinct | vehicle/OVMS.V3/main/ovms_metrics.h:717-722 | the element names within the table are all different exactly for metric names of at most 96 characters |
| ElemNames.ElemNameIs | vehicle/OVMS.V3/main/ovms_metrics.h:717-722 | the name, an underscore and the number without leading zeros |
| VectorMetric.SlotsApart | vehicle/OVMS.V3/main/ovms_metrics.h:663-747 | the size slot and the element slots of a metric are pairwise distinct |
| VectorMetric.ElemsRegisteredBinds | vehicle/OVMS.V3/main/ovms_metrics.h:693-747 | registering elements keeps every slot and gives each element a slot under its own name |
| VectorMetric.StoredAreFound | vehicle/OVMS.V3/main/ovms_metrics.h:693-747 | elements already in the table are found again without a change to its slots |
| VectorState.SetIsValid | vehicle/OVMS.V3/main/ovms_metrics.h:911-943 | a setter leaves the vector with the elements given and ends persistence exactly if a slot is refused |
| VectorState.SetAgreesIff | vehicle/OVMS.V3/main/ovms_metrics.h:1003-1062 | a setter keeps vector and slots in agreement exactly if the gap it leaves had zero in its slots |
| VectorAgreement.ClearedAgrees | vehicle/OVMS.V3/main/ovms_metrics.h:945-960 | clearing stores size zero and keeps persistence |
| VectorAgreement.ConstructedAgrees | vehicle/OVMS.V3/main/ovms_metrics.h:663-687 | a new metric takes its vector from the table and agrees with its slots |
| VectorAgreement.RebuiltSame | vehicle/OVMS.V3/main/ovms_metrics.h:663-687 | a metric built from a table that still has its slots holds the same vector |
| VectorAgreement.LifeAgrees | vehicle/OVMS.V3/main/ovms_metrics.h:663-1062 | through any orderly life a persistent vector agrees with its slots; rebuilt after a reboot at any moment and whatever others then do but to its slots, the metric is persistent and holds the same vector exactly if no other name has taken one of its hashes |
| VectorAgreement.RebuiltIff | vehicle/OVMS.V3/main/ovms_metrics.h:663-687 | from any table that keeps its slots a metric is rebuilt the same exactly if no other name has taken one of its hashes since the boot |
| VectorAgreement.RefusedIsForgotten | vehicle/OVMS.V3/main/ovms_metrics.h:720-747 | a refused element costs the metric its persistence but not its vector, and after a reboot it is empty |
| VectorGap.GapIsReached | vehicle/OVMS.V3/main/ovms_metrics.h:1003-1062 | three setters on a new metric leave a gap: the metric stays persistent, agrees with its slots exactly if the element left out was zero, and a reboot brings that element back |
| VectorAgreement.MetricsShareIff | vehicle/OVMS.V3/main/ovms_metrics.h:693-747 | two persistent metrics share a slot exactly where they share a name, be it the metric's or an element's |
| MetricVector.OvmsMetricVector.constructor | vehicle/OVMS.V3/main/ovms_metrics.h:663-687 | builds the metric from the table |
| MetricVector.OvmsMetricVector.SetPersistSize | vehicle/OVMS.V3/main/ovms_metrics.h:693-747 | registers missing elements, stores the size; one refusal ends persistence as a whole |
| MetricVector.OvmsMetricVector.SetValue | vehicle/OVMS.V3/main/ovms_metrics.h:911-943 | the vector is the one given; reported modified exactly if it is not empty and differs |
| MetricVector.OvmsMetricVector.SetElemValues | vehicle/OVMS.V3/main/ovms_metrics.h:1003-1062 | writes a range of elements, growing the vector if need be; reported modified exactly if the range is not empty and grows the vector or differs |
| MetricVector.OvmsMetricVector.ClearValue | vehicle/OVMS.V3/main/ovms_metrics.h:945-960 | clears a defined metric |
| MetricVector.OvmsMetricVector.CheckPersist | vehicle/OVMS.V3/main/ovms_metrics.h:751-791 | succeeds exactly if a persistent, defined metric agrees with its slots |
| MetricVector.Reboot | vehicle/OVMS.V3/main/ovms_metrics.h:663-687 | a metric, a reboot, and the metric built anew: the same vector |
| UniquePrefix.LookupIsRightIff | vehicle/OVMS.V3/main/ovms_metrics.cpp:1279-1296 | on any list the early exit is right exactly if no exact match comes after two longer entries |
| UniquePrefix.SortedLookup | vehicle/OVMS.V3/main/ovms_command.cpp:200-223 | on a sorted list it returns the exact match, else the only entry with the prefix, else nothing |
| UniquePrefix.FindUniquePrefix | vehicle/OVMS.V3/main/ovms_command.h:129-150 | the loop over the keys of an ordered map |
| UniquePrefix.UnsortedCanHide | vehicle/OVMS.V3/main/ovms_metrics.cpp:1279-1296 | without the order an exact match can be missed |
| MetricRegistry.InsertKeepsSorted | vehicle/OVMS.V3/main/ovms_metrics.cpp:1157-1189 | a name put before the first that is not smaller keeps the list sorted |
| MetricRegistry.OvmsMetrics.RegisterMetric | vehicle/OVMS.V3/main/ovms_metrics.cpp:1157-1189 | the list stays acyclic and sorted and holds the metric besides those before |
| MetricRegistry.OvmsMetrics.DeregisterMetric | vehicle/OVMS.V3/main/ovms_metrics.cpp:1191-1209 | unlinks exactly that metric |
| MetricRegistry.OvmsMetrics.Find | vehicle/OVMS.V3/main/ovms_metrics.cpp:1270-1277 | the first metric of that name, or none |
| MetricRegistry.OvmsMetrics.FindUniquePrefix | vehicle/OVMS.V3/main/ovms_metrics.cpp:1279-1296 | the metric of that name, else the only one with the prefix, else none |
| ChangeBits.ClearOne | vehicle/OVMS.V3/main/ovms_metrics.cpp:1692-1697 | clearing a reader's bit clears no other reader's |
| ChangeBits.SetOne | vehicle/OVMS.V3/main/ovms_metrics.cpp:1474-1484 | setting a reader's bit sets no other reader's |
| ChangeBits.OvmsMetricInt.SetModified | vehicle/OVMS.V3/main/ovms_metrics.cpp:1589-1602 | defines the metric and, for a change, tells every reader |
| ChangeBits.OvmsMetricInt.SetValue | vehicle/OVMS.V3/main/ovms_metrics.cpp:1877-1896 | stores the value and tells every reader exactly if it is new |
| ChangeBits.OvmsMetricInt.IsModifiedAndClear | vehicle/OVMS.V3/main/ovms_metrics.cpp:1692-1697 | tells a reader of a change once and leaves the other readers' alone |
| ChangeBits.InitialiseSlot | vehicle/OVMS.V3/main/ovms_metrics.cpp:1474-1490 | a new reader is to be told every unit and every metric that has a value |
| ChangeProtocol.NoLostUpdate | vehicle/OVMS.V3/main/ovms_metrics.cpp:1589-1602 | in any interleaving, with no writer between store and mark, an idle reader whose bit is clear has read the current value |
| ChangeProtocol.PollBringsUpToDate | vehicle/OVMS.V3/main/ovms_metrics.cpp:1692-1697 | one poll with the read it asks for brings a reader up to date |
| ChangeProtocol.ReadersAreIndependent | vehicle/OVMS.V3/main/ovms_metrics.cpp:1687-1702 | what a reader does touches no other reader, nor the value or the writers |
| ChangeProtocol.WriteTakesEffect | vehicle/OVMS.V3/main/ovms_metrics.cpp:1877-1896 | a writer left alone stores its value and sets every bit exactly if it is new |
| ChangeProtocol.AlwaysToldIsDefined | vehicle/OVMS.V3/main/ovms_metrics.cpp:1474-1490 | in every run only a metric that has a value is ever reported |
| Calendar.DaysAreCounted | vehicle/OVMS.V3/main/ovms_metrics.cpp:1901-1909 | the day number is the sum of year and month lengths, or one more in negative March years that are not leap years |
| Calendar.DaysAreRightIff | vehicle/OVMS.V3/main/ovms_metrics.cpp:1901-1909 | the day number is right exactly from March of year 0 on and in earlier leap years |
| Calendar.NextDateIsNextDay | vehicle/OVMS.V3/main/ovms_metrics.cpp:1901-1909 | 0 at 1970-01-01, and one more for each successive date from year 1 |
| Calendar.MonthIsNormalized | vehicle/OVMS.V3/main/ovms_metrics.cpp:1915-1927 | any integer month is brought into 0..11 with 12*year+month unchanged |
| Calendar.TimegmIsPosix | vehicle/OVMS.V3/main/ovms_metrics.cpp:1913-1931 | the time is the seconds since the Epoch, section 4.16 of the Base Definitions of IEEE Std 1003.1-2017 |
| Calendar.FitsIn32BitsIff | vehicle/OVMS.V3/main/ovms_metrics.cpp:1901-1931 | among dates from 1970 on, all times of a day are computed within 32 bits exactly up to 2038-01-18 |
| GlobMatch.Match | vehicle/OVMS.V3/main/glob_match.cpp:46-70 | the loop with its recursion equals the relation "the string can be cut into pieces that fit the terms" |
| GlobMatch.Glob | vehicle/OVMS.V3/main/glob_match.cpp:30-32 | glob_match equals the documented relation |
| GlobMatch.GlobIsDocumented | vehicle/OVMS.V3/main/glob_match.cpp:36-46 | without escapes patterns are read as documented |
| GlobMatch.EscapesAsDocumentedIff | vehicle/OVMS.V3/main/glob_match.cpp:36-70 | with escapes the program matches as documented on every string exactly if no question mark is escaped or the pattern ends in a lone backslash |
| GlobMatch.StarsCollapse | vehicle/OVMS.V3/main/glob_match.cpp:55-58 | a run of stars matches what one star does |
| GlobMatch.GlobByFirst | vehicle/OVMS.V3/main/glob_match.cpp:46-70 | which strings a pattern accepts, by its first character: itself, any one, or any number |
| GlobMatch.EscapeByFirst | vehicle/OVMS.V3/main/glob_match.cpp:46-70 | the same with escapes: a character after a backslash stands for itself, but for the question mark |
| BufferedShell.BufferedShell.Write | vehicle/OVMS.V3/main/buffered_shell.cpp:121-144 | the text grows by what is written; the last chunk stays terminated and its room counted; what joins the list are 64-character chunks of at most 63 characters each, and all chunks allocated before stay so |
| BufferedShell.BufferedShell.Fill | vehicle/OVMS.V3/main/buffered_shell.cpp:134-140 | the chunk being filled holds exactly 63 characters less the room counted, and a NUL after them |
| BufferedShell.BufferedShell.Log | vehicle/OVMS.V3/main/buffered_shell.cpp:146-180 | the text grows by the message; its list is taken over, spliced or copied, and one reference given up |
| BufferedShell.BufferedShell.Dump | vehicle/OVMS.V3/main/buffered_shell.cpp:196-212 | returns everything written in order, with a final newline when printing |
| BufferedShell.BufferedShell.DumpToHeap | vehicle/OVMS.V3/main/buffered_shell.cpp:236-258 | a buffer of exactly the text and a NUL, terminated unless there was nothing to copy |
| BufferedShell.BufferedShell.ResetBuffer | vehicle/OVMS.V3/main/buffered_shell.cpp:81-94 | starts a new list with no room counted |
| BufferedShell.BufferedShell.SetBuffer | vehicle/OVMS.V3/main/buffered_shell.cpp:74-80 | a list given from outside leaves the shell in order exactly if no room was left in the old chunk |
| BufferedShell.TextJoin | vehicle/OVMS.V3/main/buffered_shell.cpp:146-180 | the text of joined lists is the joined text |
| CommandNames.FullNameIff | vehicle/OVMS.V3/main/ovms_command.cpp:291-301 | joined names are looked up as the names they were made of exactly if none has a space and first and last are not empty |
| CommandTree.OvmsCommandApp.FullNameFindsIff | vehicle/OVMS.V3/main/ovms_command.cpp:1111-1149 | a command's full name leads to the command exactly under that condition |
| CommandTree.OvmsCommandApp.OnlyPathLeads | vehicle/OVMS.V3/main/ovms_command.cpp:1111-1149 | no other sequence of names leads to a command |
| CommandTree.OvmsCommandApp.GetFullName | vehicle/OVMS.V3/main/ovms_command.cpp:291-301 | the names on the path, joined |
| CommandTree.OvmsCommandApp.FindCommandFullName | vehicle/OVMS.V3/main/ovms_command.cpp:1111-1149 | the loop looks up the parts of the name one after the other |
| CommandTree.OvmsCommandApp.RegisterCommand | vehicle/OVMS.V3/main/ovms_command.cpp:433-446 | a duplicate returns the existing command; otherwise a new child is added |
| CommandTree.OvmsCommandApp.UnregisterCommand | vehicle/OVMS.V3/main/ovms_command.cpp:458-479 | removes a child and everything below it, and nothing else |
| CommandTree.OvmsCommandApp.UnregisterSelf | vehicle/OVMS.V3/main/ovms_command.cpp:458-464 | without a name a command removes itself through its parent |

## Left out

- File system, ZIP and time-zone calls, mounting, `upgrade()` and failing file operations: the config store is a map from name to entries, always mounted; the `config.changed` events of a commit are not modelled.
- FreeRTOS primitives: queues are bounded sequences, timers fire at any moment, `abort()` is a terminal state; weak memory ordering between cores is not modelled.
- Hardware, boot, panic code, Wi-Fi, Duktape bindings, usage texts, completion and password handling.
- Unit conversion and the other typed metrics, including the 64-bit split of `OvmsMetricInt64`; values are stored as given.
- The shutdown repair in `pmetrics_init(true)` and the check of the table's header.
- Time stamps, file rotation and syncing of the file log; `LogFanout` has its queue and references only.
- In `FollowTask` a handler and its data are set and cleared in one step, of the characters typed only Ctrl-C is modelled, and the wait loop of `TerminationHandler` is one guarded step. A call through NULL or a store to freed memory has no further effect there.
- In `LogFanout` the check that the deferred queue exists and the send to it are one step, and so is the flush's own test of `m_insert` with what follows from it.
- In `FollowTask` a command starts only while no termination handler is registered, as the comment in `ovms_command.h` demands; `StartIsSafeIffUnregistered` shows what happens otherwise.
- In `EventQueue` the callbacks' deeds are registering, deregistering and raising; the deprecated `ALERT` conversions and the event map's completion are left out.
- OvmsConsole.OvmsConsole.Finalise: not while a command has the input, when the loop would not end; `LogFanout` has that interleaving and `LogStranding` what follows from it.
- OvmsConsole.OvmsConsole.Delete: the termination callback and the deregistration of the console, which are in `FollowTask` and `LogFanout`.
- OvmsConsole.OvmsConsole.Poll: no message arrives during one poll, and the characters written around a message are not modelled; `LogFanout` has the arrivals.
- OvmsConsole.OvmsConsole.Log: plain `ALERT` buffers are freed like messages and not modelled apart.
- Reaping.ConsoleReaper.CloseConsole: the critical sections are single steps; their interleavings are in `FollowTask`.
- OvmsEvents.OvmsEvents.EventTask: the five seconds of the wait; the waiting for a running firmware update before an abort.
- EventRuns.EveryCallIsEligible: runs that abort while callbacks post end before the callbacks.
- ChangeProtocol.NoLostUpdate: `Clear()`, which makes a metric undefined again, is not a step of the protocol; readers are numbered below 32.
- MetricVector.OvmsMetricVector.constructor: names of at most 96 characters, the exact limit found by `ElemNamesDistinct`; the list of element pointers is extended one by one instead of resized and filled.
- MetricRegistry.OvmsMetrics.DeregisterMetric: only the unlinking, not the deletion.
- CommandTree.OvmsCommandApp.FindCommandFullName: without the creation of user commands.
- CommandTree.OvmsCommandApp.UnregisterCommand: the recursive destructor is one removal of the subtree.
- BufferedShell.BufferedShell.Write: for text without NUL; the formatting of `printf` and the start of the shell are left out.
- BufferedShell.BufferedShell.DumpToHeap: that the buffer is unterminated when there was nothing to copy is not provable of memory with any contents.
- ConfigFile.LoadConfig: of a line that starts with a NUL byte, the byte the code sets before its buffer; the metadata lines of a build option are left out.
- OvmsConfig.OvmsConfig.SetParamMap: the typed setters reduce to these operations and are not repeated.

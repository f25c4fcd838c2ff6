# A verified model of FerrumC

FerrumC is a Minecraft server.  This project models the parts of it whose correctness depends on more than one
function and proves what they promise, in Dafny.

- **Chunk streaming** (`ChunkGrid`, `ChunkStream`, `ChunkReturns`, `ChunkConvergence`, `ChunkStarvation`,
  `ChunkOrder`, `PlayerChunks`, `Movements`, `ChunkSystems`).  What makes the calculator run; the calculator, the sender
  and the background jobs of one player, cut into single queue operations so that a job can finish between any two of
  them.  The classes perform the loops of the systems and are proved to be legal runs of that event machine; the
  theorems speak about all runs.
- **Scheduler** (`Timers`, `SchedulerRuns`, `DueHeaps`, `Schedulers`).  Deadlines with Burst, Skip and Delay, an array
  heap of due times, and the driver loop, proved to produce only logs for which order, fairness and bounds hold.
- **Commands** (`CommandWords`, `CommandNodes`, `CommandGraphs`, `CommandSearch`, `CommandReports`,
  `CommandInfrastructure`, `CommandAcceptance`, `CommandResolve`, `CommandInputs`).  Commands compiled to a node graph
  and searched, against a plain scan of the registered commands; the cursor over the input and the position parser,
  against the words of the input.
- **World storage** (`Positions`, `Storage`, `WorldState`, `WorldRuns`, `WorldCache`).  A write-back chunk cache over a
  key/value store, with the unloader, against one plain map.
- **Fluids** (`FluidBatch`, `FluidApply`).  Parallel evaluation against serial evaluation, and applying a batch.
- **Crafting** (`CraftingData`, `CraftingGrid`, `CraftingShapeless`).  Grid normalisation, shaped matching and the greedy
  assignment of shapeless recipes.
- **Entity positions** (`EntitySync`) and **joining and leaving** (`Disconnects`, `PlayerLists`).

Where the source changes state step by step, the model does too: classes and loops whose contracts tie the new state
to a function of the old one, and lemmas about those functions and about whole runs.

What is left to the environment is a parameter or a free choice: the clock (`Schedulers.Clock`), the moment a job
finishes, the order a hash map yields its entries, the codec (`WorldState.Codec`, of which only "decoding undoes
encoding" is assumed), the fluid kernels (`FluidBatch.Evaluator`), the number parser (`CommandInputs.Numbers`).

## What turned out to be false, and exactly when it holds

- Streaming converges except when chunks are queued under `chunks_per_tick = 0` and `chunks_per_tick_min = 0`
  (`ChunkConvergence.FinishesExactlyWhenSupplied`); it then never does (`ChunkStarvation.StarvedForever`).  The passes
  that can only wait for the pool are counted, and have to be (`ChunkStarvation.SlowJobKeepsWaiting`).
- Client and server agree as long as no calculator batch is placed on a chunk still to be unloaded, and the invariant
  holds exactly that long (`ChunkStream.RunKeepsInvExactly`); a run that breaks it exists
  (`ChunkReturns.TwoPositionsBreakAgreement`).  The systems are chained and read one position per pass, so they cannot
  produce such a run.
- Calculator and sender agree on a player's chunk exactly for block coordinates in [-2^31, 2^26)
  (`PlayerChunks.SystemsAgreeOnChunk`, which also has the places far below where unchecked overflow makes the two
  errors coincide); from 2^26 on the calculator panics (`PlayerChunks.FarPlacePanics`).
- The packet handlers do not run the calculator at every chunk boundary: they truncate toward zero and miss crossings
  at negative coordinates (`Movements.MissedCrossing`).  Until the next message the sender is then one chunk off, exactly
  as `Movements.SenderFollowsCalculator` says, and drops what is out of its own sight
  (`ChunkConvergence.TakeLosesExactly`).
- A command whose name is not written with single spaces is never found (`CommandInfrastructure.NonCanonicalIsLost`,
  `CommandAcceptance.CanonicalExactly`);
  exactly which one is found is `CommandInfrastructure.LookupReturns`.
- Arguments reach a command exactly when the line begins with its name as registered; an accepted line that spells the
  name otherwise hands the name over as arguments (`CommandResolve.ArgumentsArrive`).
- The loop that gathers a position's words ends exactly on ASCII input (`CommandInputs.GatheringEndsExactly`).
- `insert_chunk` does not update the cache although its comment says so (`WorldState.InsertExactly`).
- A synced chunk that is evicted and loaded again is dirty exactly when it was dirty before, or its stored copy was
  (`WorldRuns.SyncedChunkReloadsDirty`).
- A sync tolerates a change by another thread between its write and its marking exactly when it had not listed the
  chunk or the change changes nothing (`WorldRuns.RacingChangeIsLost`).
- While players are online the unloader evicts exactly the overworld chunks nobody has loaded, never one of another
  dimension (`WorldRuns.EvictionExactly`, over whole runs `WorldRuns.StaysExactly`).  No caller in the server caches a
  chunk of another dimension today.
- Splitting a block by section number is reversible for heights in [-2048, 2048) only
  (`Positions.SplitRoundTrip`), chunk keys are equal exactly for coordinates congruent modulo 2^22
  (`Positions.KeyEqual`).
- The greedy pass of shapeless recipes is right, and its answer independent of where the items lie, exactly for nested
  ingredient lists (`CraftingShapeless.GreedyExactly`, `CraftingShapeless.OrderMattersExactly`).
- Relative updates are exact only for moves of whole units (`EntitySync.UpdateIsExactWhen`) and drift without bound
  until the next teleport (`EntitySync.DriftIsSharp`, `EntitySync.DriftIsReached`).

## Model

| member | source | states |
|---|---|---|
| ChunkStream.ClientAgreesWithLoaded | src/bin/src/systems/chunk_sending.rs:76-212 | In every run of a fresh player that alternates calculator batches at one position with sender passes, or places no batch on a chunk still to be unloaded, jobs finishing between any two queue operations: `loading` has no duplicate, `loading`, `pending`, `loaded` and `unloading` are disjoint, every pending chunk has exactly one job in flight or one result waiting and no other chunk has any, no chunk is sent twice without an unload between, and between ticks the client holds the loaded chunks, plus at most chunks it held before the stream began |
| ChunkStream.RunKeepsInv | src/bin/src/systems/chunk_sending.rs:48-214 | The safety invariant survives every legal run from any state that has it, not only from a fresh player |
| ChunkStream.StepKeepsInv | src/bin/src/systems/chunk_calculator.rs:41-77 | One event, exactly: it keeps the invariant unless it is a calculator batch whose square holds a chunk still to be unloaded; a batch at the position of the one before, or after a sender pass, never is |
| ChunkStream.RunKeepsInvExactly | src/bin/src/systems/chunk_calculator.rs:16-78 | A whole run, exactly: the invariant holds all along if and only if no calculator batch is placed on a chunk still to be unloaded |
| ChunkStream.ClientWithHeld | src/bin/src/systems/chunk_sending.rs:203-212 | What a client held before the stream stays until unloaded and is the only way it can differ |
| ChunkReturns.TwoPositionsBreakAgreement | src/bin/src/systems/chunk_calculator.rs:16-78 | There is a run of a fresh player with two batches at different positions between two sender passes after which the server believes a chunk loaded that the client was told to unload; the chained systems cannot produce it |
| ChunkConvergence.CalculatorCovers | src/bin/src/systems/chunk_calculator.rs:39-77 | After a calculator batch the whole view square is loaded, queued or pending, and nothing outside it is loaded |
| ChunkConvergence.RunKeepsCover | src/bin/src/systems/chunk_sending.rs:76-168 | While the player stands still no chunk of the square is lost on the way unless its job fails; the sender's filter drops none |
| ChunkConvergence.SuppliedRunFinishes | src/bin/src/systems/chunk_sending.rs:65-168 | With a budget that reaches every queued chunk and a pool as slow as it likes: as many passes as there is work, on top of those that began with an empty queue and every outstanding job still running, empty `loading` and `pending`, and `loaded` is the square minus the chunks whose job failed |
| ChunkConvergence.SuppliedRunLoadsSquare | src/bin/src/systems/chunk_sending.rs:65-168 | If no job fails, `loaded` ends as exactly the Chebyshev square |
| ChunkConvergence.FinishesExactlyWhenSupplied | src/bin/src/systems/chunk_sending.rs:65-72 | Exactly when it converges: always, except when something is queued under the setting 0 (a third of the queue) with a minimum of 0, where the last chunks are never submitted |
| ChunkStarvation.StarvedForever | src/bin/src/systems/chunk_sending.rs:65-75 | The failing half happens: from a fresh player and one calculator batch, under the setting 0 with a minimum of 0, its one chunk stays queued over any number of passes |
| ChunkStarvation.SlowJobKeepsWaiting | src/bin/src/systems/chunk_sending.rs:74-158 | The bound is sharp: with one pass less than work and waiting ask for, a chunk whose job is slow is still pending, however long it has been waited for |
| ChunkConvergence.TakeLosesExactly | src/bin/src/systems/chunk_sending.rs:155-168 | Draining one result: the chunks of a square stay accounted for unless the result is a good one of that square beyond the radius of where the sender now sees the player, and then that one is lost |
| ChunkGrid.SquareIsDistance | src/bin/src/systems/chunk_calculator.rs:41-42 | The square the calculator scans is what the sender's distance filter lets through |
| ChunkGrid.EffectiveViewRadius | src/lib/core/src/chunks/chunk_receiver.rs:67-73 | Never more than the server allows, nor than a client that has told its distance wants, and always one of the two |
| ChunkGrid.OrderedIsUnique | src/bin/src/systems/chunk_calculator.rs:57-61 | Nearest first with ties in scan order is a total order: a set of chunks is queued in one way only |
| ChunkGrid.NearestFirst | src/bin/src/systems/chunk_calculator.rs:57-61 | What the queue order means: of two queued chunks the first is no farther away, and at equal distance it has the smaller x, or at equal x the smaller z |
| ChunkOrder.BatchQueuesNearestFirst | src/bin/src/systems/chunk_calculator.rs:39-66 | A batch queues behind what is queued already, nearest first; a player whose own chunk is missing gets it before the rest of the square |
| ChunkOrder.QueuesAreFifo | src/bin/src/systems/chunk_sending.rs:76-212 | Over any run chunks are submitted, results drained and unloads sent in the order in which they were queued |
| ChunkOrder.PopSubmits | src/bin/src/systems/chunk_sending.rs:76-93 | A queued chunk that is popped is always submitted; a dirty chunk goes first and is dropped if it is still loaded |
| ChunkOrder.PassLeaves | src/bin/src/systems/chunk_sending.rs:65-93 | One whole pass submits from the front of the queue a third but at least the minimum under the setting 0, the setting if it is positive, everything if it is negative |
| ChunkOrder.PassSendsInOrder | src/bin/src/systems/chunk_sending.rs:170-212 | Once its results are drained a pass sends the chunks it collected, in the order it collected them, then the unloads in the order they were queued, and nothing else |
| PlayerChunks.SystemsAgreeOnChunk | src/bin/src/systems/chunk_sending.rs:55-58 | Calculator (division, floor, saturating cast, `ChunkPos::new`) and sender (floor, saturating cast, shift) place a player in the same chunk exactly when each block coordinate lies in [-2^31, 2^26), or, where overflow is not checked, at the places below whose corner wraps to the lowest chunk; and exactly when the calculator panics |
| PlayerChunks.AxisAgrees | src/lib/world/src/pos.rs:120-139 | The same on one axis: the division, the assertion that the chunk is below 2^22, the multiplication by 16 that wraps or panics |
| PlayerChunks.FarPlacePanics | src/lib/world/src/pos.rs:133-139 | At block 2^26, well within 32 bits, the sender has a chunk and the calculator panics |
| PlayerChunks.TriggerExactly | src/bin/src/packet_handlers/play_packets/set_player_position.rs:25-27 | The chunk the packet handlers compare (a cast that truncates toward zero, then a shift) is the sender's, except one ahead of it in the last, not whole, blocks before a chunk boundary below zero |
| Movements.SenderFollowsCalculator | src/bin/src/packet_handlers/play_packets/set_player_position.rs:18-42 | After any position packets, teleports and confirmations, with no `ChunkCalc` unread, the sender's chunk is at most one away from that of the place the calculator last saw, and the same exactly when both places are inside or outside such strips alike |
| Movements.MissedCrossing | src/bin/src/packet_handlers/play_packets/set_player_position.rs:25-30 | The step from x = -15.5 to x = -16.5 goes from chunk -1 to chunk -2 and writes no `ChunkCalc` |
| Movements.TeleportHolds | src/bin/src/systems/listeners/player_tp.rs:32-80 | After a teleport no position packet moves the player until it confirms, a message is waiting whatever packets come, and what the calculator then sees is the place teleported to |
| Movements.Mover.SetPlayerPosition | src/bin/src/packet_handlers/play_packets/set_player_position.rs:17-42 | Writes a `ChunkCalc` exactly when the truncated chunk changes, and moves the player, unless a teleport is unconfirmed |
| Movements.Mover.TeleportPlayer | src/bin/src/systems/listeners/player_tp.rs:32-80 | Moves the player, blocks its packets until it confirms, and always writes a `ChunkCalc` |
| ChunkSystems.SortByDistance | src/bin/src/systems/chunk_calculator.rs:57-61 | The stable sort of a scan-ordered list keeps the chunks and puts them nearest first, at equal distance by x and then z |
| ChunkSystems.ChunkReceiver.Calculate | src/bin/src/systems/chunk_calculator.rs:25-77 | The two nested loops, the sort and the unload loop together perform one legal calculator event; where the player's chunk is out of bounds it panics and changes nothing |
| ChunkSystems.ChunkReceiver.SubmitJobs | src/bin/src/systems/chunk_sending.rs:74-152 | Phase 1 performs legal events only, with jobs finishing before each pop, and stops at the budget or an empty queue |
| ChunkSystems.ChunkReceiver.DrainResults | src/bin/src/systems/chunk_sending.rs:154-168 | Phase 2 drains until no result is waiting and hands on the chunks to send |
| ChunkSystems.ChunkReceiver.SendUnloads | src/bin/src/systems/chunk_sending.rs:203-212 | Phase 3 sends one unload per queued chunk and leaves `unloading` empty |
| ChunkSystems.ChunkReceiver.Send | src/bin/src/systems/chunk_sending.rs:48-213 | One whole sender pass of the imperative code is a legal run of the machine with exactly one completed pass |
| ChunkSystems.CalculateAll | src/bin/src/systems/chunk_calculator.rs:16-78 | The calculator reads every message of a player at one position: one batch each, or a panic at the first |
| ChunkSystems.Tick | src/bin/src/systems/mod.rs:29-36 | A tick of the chained systems keeps the invariant; afterwards the client holds exactly the loaded chunks; after a `ChunkCalc` the square around the sender's chunk is covered wherever the systems agree on it; it panics exactly when a message is read out of bounds |
| Timers.Rescheduled | src/lib/scheduler/src/lib.rs:86-117 | A reschedule touches only the deadline and the burst counter and keeps the counter below its cap |
| Timers.MissedIsLeast | src/lib/scheduler/src/lib.rs:107-115 | The loop that advances the deadline past `now` stops at the least grid point after it: closed form, both directions |
| Timers.StaysOnGrid | src/lib/scheduler/src/lib.rs:92-114 | Burst and Skip stay on their grid: the deadline is start + period x (runs + skipped slots) after any history |
| Timers.SkipsOnlyMissedSlots | src/lib/scheduler/src/lib.rs:92-115 | Only slots that have already passed are skipped |
| Timers.SkipLandsOnNextSlot | src/lib/scheduler/src/lib.rs:107-115 | Skip lands strictly after `now`, on the least such slot |
| Timers.BurstJumpsExactly | src/lib/scheduler/src/lib.rs:92-106 | Over any history of runs a Burst reschedule passes over slots if and only if the last `maxCatchUp` runs in a row were behind, counting those behind before the history, and no reschedule between passed over any; it then goes to the first slot after now, else to the very next slot |
| Timers.OnTimeRestoresBudget | src/lib/scheduler/src/lib.rs:103-105 | A run that was not behind gives the whole budget back: no slot is lost for the next `maxCatchUp - 1` reschedules, however late the runs are |
| Timers.DelayFollowsRuns | src/lib/scheduler/src/lib.rs:88-91 | A Delay schedule is next due one period after the end of its last run, whatever came before |
| Timers.BurstCatchesUp | src/lib/scheduler/src/lib.rs:92-106 | Burst is never still overdue after `max_catch_up` reschedules in a row, whatever the times |
| Timers.BurstMayLag | src/lib/scheduler/src/lib.rs:95-97 | That bound is met: a schedule far enough behind stays overdue until the last reschedule allowed |
| SchedulerRuns.RunsInDueOrder | src/bin/src/game_loop.rs:137-194 | Over a whole run executions come in strictly increasing order of (due time, index), however late they are and whatever the behaviours |
| SchedulerRuns.NothingRunsEarly | src/bin/src/game_loop.rs:143-170 | In every log each run starts at or after its deadline |
| SchedulerRuns.DelayCountsFromTheEnd | src/lib/scheduler/src/lib.rs:148-156 | A run is rescheduled from the time at which it ended, and no other schedule is touched |
| SchedulerRuns.NoStarvation | src/lib/scheduler/src/lib.rs:86-170 | While schedule i waits with due time d, any other j runs at most floor((d - due_j) / period_j) + 1 times, and not at all if due later |
| SchedulerRuns.EveryScheduleRuns | src/bin/src/game_loop.rs:137-194 | So a queued schedule has run once the loop has made more executions than all shares together |
| DueHeaps.DueHeap.Push | src/lib/scheduler/src/lib.rs:192-216 | Sifting up keeps the heap ordered and adds exactly the entry |
| DueHeaps.DueHeap.Pop | src/lib/scheduler/src/lib.rs:155-157 | Popping yields a least (due, index) entry, removes exactly it and restores the order by sifting down |
| DueHeaps.RootIsLeast | src/lib/scheduler/src/lib.rs:209-216 | In an ordered heap no entry comes before the root |
| Schedulers.TimedSchedule.SkipPast | src/lib/scheduler/src/lib.rs:98-100 | The skip loop terminates and equals its closed form |
| Schedulers.TimedSchedule.RescheduleAfterRun | src/lib/scheduler/src/lib.rs:86-117 | The imperative reschedule computes `Rescheduled` in every branch |
| Schedulers.Scheduler.Register | src/lib/scheduler/src/lib.rs:144-153 | Registering adds one schedule at now + phase; the heap keeps exactly one entry per schedule, equal to its deadline |
| Schedulers.Scheduler.PopNextDue | src/lib/scheduler/src/lib.rs:155-157 | Pops the one schedule that comes first, by due time and then registration |
| Schedulers.Scheduler.AfterRun | src/lib/scheduler/src/lib.rs:159-166 | Reschedules only that schedule and queues it again, once |
| Schedulers.Scheduler.RunDue | src/bin/src/game_loop.rs:132-194 | A catch-up pass runs at most 64 schedules, each the next due one when it ran; stopping earlier means nothing is due |
| Schedulers.BuildTimedScheduler | src/bin/src/game_loop.rs:243-329 | The server's four schedules with their periods, behaviours, phase and caps, then the plugins', each due at its registration time plus its phase |
| Schedulers.ServerRates | src/bin/src/game_loop.rs:252-325 | The server's own schedules: ticks that fill a second without exceeding it, caught up five in a row; saving every 15 seconds, collecting every 5, keep-alives every second at an offset of a quarter, all skipping what they miss |
| Schedulers.MainLoop | src/bin/src/game_loop.rs:128-213 | Any number of passes is one possible log from the first deadlines, in due order |
| Schedulers.StartGameLoop | src/bin/src/game_loop.rs:121-213 | Built and run together nothing is asked of the schedules: the four of the server are always there, and everything runs in due order from the deadlines of registration |
| CommandWords.WordsAreWords | src/lib/commands/src/graph/mod.rs:56-57 | Splitting yields only non-empty words without whitespace |
| CommandWords.WordsOfJoin | src/lib/commands/src/graph/mod.rs:253-253 | Splitting undoes joining words by single spaces |
| CommandWords.WordsOfTrimmed | src/lib/commands/src/graph/mod.rs:147-147 | Trimming the input does not change its words |
| CommandNodes.FlagsDecode | src/lib/commands/src/graph/node.rs:42-54 | Node type and marks are read back from the flag byte independently of each other |
| CommandGraphs.SearchAccepts | src/lib/commands/src/graph/mod.rs:153-223 | Exactly which input a command's chain accepts: words agree with the name as far as both reach, and either a word is left for an argument (executable or not), or the words run out on the end of the name or one word before it and the command runs bare, or on the end of the name before a single argument |
| CommandGraphs.VisitAccepts | src/lib/commands/src/graph/mod.rs:153-223 | The same for the search from any node of the chain |
| CommandGraphs.ReportedKnowName | src/lib/commands/src/graph/mod.rs:193-214 | Every node the search reports lies at or below the last literal |
| CommandSearch.SearchBlock | src/lib/commands/src/graph/mod.rs:199-219 | In the graph of any commands the search below the root follows one command's chain |
| CommandSearch.SearchCommands | src/lib/commands/src/graph/mod.rs:174-179 | Over all children of the root the first report belongs to the first registered command that accepts |
| CommandSearch.ParentInGraph | src/lib/commands/src/graph/mod.rs:234-245 | A chain's first node has the root as its only parent, a later one its predecessor |
| CommandSearch.NameOfFound | src/lib/commands/src/graph/mod.rs:225-254 | From any reported node the walk up the parents recovers the whole name in order |
| CommandSearch.FindsFirstAccepting | src/lib/commands/src/graph/mod.rs:256-263 | For any commands pushed and any words, search and name recovery yield the space-joined words of the first registered command that accepts them, and nothing if there is none |
| CommandAcceptance.FoundExactly | src/lib/commands/src/graph/mod.rs:55-107 | For a registered command as written: the compiled graph finds it exactly when the words agree with its name as far as both go and there are more words than the name has and it takes arguments, or exactly the name and at most one argument or an optional one first, or all but the last word of the name and no argument or an optional one first |
| CommandAcceptance.FirstFittingIsFound | src/lib/commands/src/graph/mod.rs:132-146 | Among several commands the graph yields the first that it would find alone |
| CommandReports.ReportsAreSearch | src/lib/commands/src/graph/mod.rs:153-223 | The reports with the words left behind each name the nodes of the search, in order |
| CommandReports.ReportedRests | src/lib/commands/src/graph/mod.rs:186-219 | Every report of a search names a node of one pushed command, and the words left are those behind the words its chain down to that node consumed |
| CommandInfrastructure.PartlyStep | src/lib/commands/src/graph/mod.rs:76-118 | Appending one node under the running parent extends the hung chain by that node |
| CommandInfrastructure.CommandGraph.Push | src/lib/commands/src/graph/mod.rs:53-120 | The loops over words and arguments compile a command to the graph of the longer registry |
| CommandInfrastructure.CommandGraph.FindCommandRecursive | src/lib/commands/src/graph/mod.rs:153-223 | The recursive search on text reports what the search on words reports, in order, each with the words left behind it, and terminates because links lead forward |
| CommandInfrastructure.CommandGraph.CollectCommandParts | src/lib/commands/src/graph/mod.rs:225-246 | The scan for the parent finds the only one, so the parts are those up to the root |
| CommandInfrastructure.CommandGraph.FindCommandByInput | src/lib/commands/src/graph/mod.rs:256-263 | On a compiled graph: the name of the first accepting command |
| CommandInfrastructure.Commands.RegisterCommand | src/lib/commands/src/infrastructure.rs:41-46 | Table and graph stay those of the list of registered commands |
| CommandInfrastructure.Commands.FindCommand | src/lib/commands/src/infrastructure.rs:63-71 | Search, then lookup by the recovered name |
| CommandInfrastructure.TableHoldsLast | src/lib/commands/src/infrastructure.rs:41-46 | For each name the table holds the last command registered under it |
| CommandInfrastructure.LookupSucceeds | src/lib/commands/src/infrastructure.rs:57-71 | Exactly when a command is found: some command accepts the input and the canonical spelling of the first one's name is registered |
| CommandInfrastructure.LookupReturns | src/lib/commands/src/infrastructure.rs:57-71 | Exactly which command: the last one registered under the canonical spelling of the name of the first that accepts |
| CommandInfrastructure.LookupFindsFirst | src/lib/commands/src/infrastructure.rs:57-71 | Exactly when the lookup returns the first registered command that accepts: its name is in canonical spelling and the last command of that name equals it; with none that accepts it returns nothing |
| CommandInfrastructure.LookupOfDistinct | src/lib/commands/src/infrastructure.rs:57-71 | With distinct names in canonical spelling it always does |
| CommandInfrastructure.NonCanonicalIsLost | src/lib/commands/src/infrastructure.rs:57-71 | In every registry and for every input, a command that is found has its name in canonical spelling; one registered with other whitespace is never found |
| CommandAcceptance.CanonicalExactly | src/lib/commands/src/graph/mod.rs:231-263 | A name can be found exactly when its white space is single space characters between words |
| CommandResolve.Resolve | src/bin/src/packet_handlers/play_packets/command.rs:14-43 | The command the lookup finds, with the line behind its name, or the whole line if it does not begin with the name |
| CommandResolve.ArgumentsArrive | src/bin/src/packet_handlers/play_packets/command.rs:29-34 | Exactly when the words behind the name, and only those, reach the command: when the line begins with the name as registered; otherwise the command receives its own name among its arguments |
| CommandResolve.ResolvesFirst | src/bin/src/packet_handlers/play_packets/command.rs:14-43 | With distinct names in canonical spelling: first accepting command, and the words behind its name as arguments |
| CommandInputs.CommandInput.SkipWhitespace | src/lib/commands/src/input.rs:51-64 | Skips whitespace only, at most so much, and all of it when allowed; a single last space is kept on request |
| CommandInputs.CommandInput.ReadString | src/lib/commands/src/input.rs:98-109 | Returns the first word left and stops right behind it; the cursor advances while input remains |
| CommandInputs.CommandInput.ReadUntil | src/lib/commands/src/input.rs:122-134 | Returns the text before the separator, whitespace skipped, and consumes the separator |
| CommandInputs.CommandInput.GatherWords | src/lib/commands/src/arg/position.rs:37-43 | The gathering loop terminates with the cursor at the end, and the text gathered has exactly the words that were left |
| CommandInputs.GatheringEndsExactly | src/lib/commands/src/arg/position.rs:37-43 | The gathering loop, whose guard counts bytes and whose cursor counts characters, comes to its end exactly on ASCII input |
| CommandInputs.ParsePosition | src/lib/commands/src/arg/position.rs:36-103 | The outcome follows from the words alone: three coordinates, or the first thing wrong in the order missing, invalid, too many |
| CommandInputs.ParsesOneWay | src/lib/commands/src/arg/position.rs:44-102 | Words have only one outcome |
| CommandInputs.ErrorsNameTheAxis | src/lib/commands/src/arg/position.rs:33-60 | Too few words name the first axis without one; a word that means nothing names its axis, also when there are too many; only then is that the error; a tilde is relative, with the number behind it or none |
| CommandInputs.WrittenPositionParses | src/lib/commands/src/arg/position.rs:36-103 | Any position, written with any texts that read back as its three numbers, parses back to itself and to nothing else |
| Positions.PackRoundTrip | src/lib/world/src/pos.rs:335-358 | Packing and unpacking a place in a section are inverse, and exactly the numbers below 4096 unpack |
| Positions.BlockLiesInChunk | src/lib/world/src/pos.rs:31-45 | Axis by axis a chunk begins at the multiple of 16 at or below the block, and the place in the chunk is the rest |
| Positions.BlockLiesInSection | src/lib/world/src/pos.rs:47-61 | A block is its section's corner plus the place in the section, on either side of zero |
| PlayerChunks.ChunkOfBlock | src/lib/world/src/pos.rs:133-139 | The blocks that have a chunk are those whose chunk `ChunkPos::new` accepts |
| Positions.SectionBlocksAgree | src/lib/world/src/pos.rs:53-61 | Both computations of the place in a section agree on every coordinate, negative ones and truncated heights included |
| Positions.ChunksAgree | src/lib/world/src/pos.rs:47-51 | The chunk of a block's section is the block's chunk |
| Positions.BlockRoundTrip | src/lib/world/src/pos.rs:35-45 | Chunk and place rebuild the block exactly when its height fits `i16` |
| Positions.SharedPlaces | src/lib/world/src/pos.rs:35-45 | Two blocks share a place exactly when they share the column and their heights differ by a multiple of 2^16 |
| Positions.SplitRoundTrip | src/lib/world/src/pos.rs:274-282 | Chunk, section number and packed place rebuild the block exactly for heights in [-2048, 2048): beyond, the number no longer fits `i8` |
| Positions.KeyEqual | src/lib/world/src/db_functions.rs:341-347 | Exactly when two chunks share a storage key: hashes equal in the low 32 bits and coordinates congruent modulo 2^22 |
| Positions.KeyLayout | src/lib/world/src/db_functions.rs:341-347 | The key from its lowest bits up: 22 bits of x, 22 bits of z, and from bit 96 the low 32 bits of the hash |
| Positions.KeyInjective | src/lib/world/src/db_functions.rs:341-347 | Within [-2^21, 2^21) a key determines the chunk |
| Positions.KeysCollide | src/lib/world/src/pos.rs:133-139 | Outside, two chunks the constructor accepts share a key |
| Storage.UpsertsAt | src/lib/storage/src/lmdb.rs:188-208 | At every key: the last entry for it, else what was there |
| Storage.UpsertsMerge | src/lib/storage/src/lmdb.rs:198-204 | Upserting one by one equals merging in the last values |
| Storage.UpsertsOrder | src/lib/storage/src/lmdb.rs:198-204 | With distinct keys the order of writing does not matter |
| Storage.InsertsExactly | src/lib/storage/src/lmdb.rs:132-141 | Inserting one by one succeeds exactly when no key is taken and none is repeated, and then gives the batch's table |
| Storage.LmdbBackend.Insert | src/lib/storage/src/lmdb.rs:132-141 | Fails with the key's low 64 bits and changes nothing if the key is taken, else adds it, creating the table if needed |
| Storage.LmdbBackend.Get | src/lib/storage/src/lmdb.rs:143-150 | What is stored, whether or not the handle was cached; an error for a missing table |
| Storage.LmdbBackend.Delete | src/lib/storage/src/lmdb.rs:152-163 | Removes the key; distinguishes missing table and missing key, changing nothing then |
| Storage.LmdbBackend.Update | src/lib/storage/src/lmdb.rs:165-176 | Replaces an existing value only |
| Storage.LmdbBackend.Upsert | src/lib/storage/src/lmdb.rs:178-186 | Sets the value in an existing table |
| Storage.LmdbBackend.BatchUpsert | src/lib/storage/src/lmdb.rs:188-208 | The transaction in key order gives the same table as upserting the entries one by one in the order given, duplicates included |
| Storage.LmdbBackend.BatchInsert | src/lib/storage/src/lmdb.rs:226-246 | The same when no key is taken; otherwise nothing changes and the error names the least taken key |
| Storage.LmdbBackend.BatchGet | src/lib/storage/src/lmdb.rs:248-262 | The stored values in the order of the keys asked for |
| Storage.SortKeys | src/lib/storage/src/lmdb.rs:199-200 | Ascending, and exactly the keys of the map |
| WorldRuns.CacheIsPlainMap | src/lib/world/src/db_functions.rs:34-230 | Over any run of loads, batch loads, writes, syncs, both unloader modes, deletes, generation and inserts, cache and store hold at every position what one plain map would hold; a clean cached chunk always equals its stored copy |
| WorldState.StepRefines | src/lib/world/src/db_functions.rs:15-230 | The same for one operation, with the invariant |
| WorldRuns.MovingChangesNothing | src/bin/src/systems/chunk_unloader.rs:8-80 | Loading, syncing and unloading leave every position as it was |
| WorldState.InsertExactly | src/lib/world/src/db_functions.rs:14-29 | `insert_chunk` writes the store only: the view becomes the new chunk exactly when the cache holds nothing else there, and the invariant survives exactly when that holds or the cached chunk is dirty |
| WorldState.DeleteRefines | src/lib/world/src/db_functions.rs:104-110 | A deleted position is empty afterwards, also when only the cache held it |
| WorldState.GenerateRefines | src/lib/utils/src/world/mod.rs:2-22 | A position is generated only when neither cache nor store has it |
| WorldState.WrittenAt | src/lib/world/src/db_functions.rs:123-148 | Writing back changes what is stored for the chunks written and for no other |
| WorldRuns.SyncSavesEverything | src/lib/world/src/db_functions.rs:123-161 | After a sync every cached chunk is clean and a restart loses nothing |
| WorldRuns.RacingChangeIsLost | src/lib/world/src/db_functions.rs:146-157 | A sync is its two halves; a change by another thread to a cached chunk between them: the invariant survives exactly when the sync had not listed the chunk or the change changed nothing; the change is seen, and a restart loses it |
| WorldRuns.SyncedChunkReloadsDirty | src/lib/world/src/db_functions.rs:137-157 | A chunk synced, evicted and loaded again is dirty exactly when it was dirty before the sync or its stored copy already carried marks, and holds what it held |
| WorldRuns.StoredBySync | src/lib/world/src/db_functions.rs:126-148 | After a sync the store holds a dirty chunk with its marks and, for a clean one, the copy it held before |
| WorldRuns.EvictedReloadsClean | src/bin/src/systems/chunk_unloader.rs:55-72 | The unloader writes back without marks: a chunk it evicts is dirty when loaded again exactly when it was clean and its stored copy carried marks, and holds what it held |
| WorldRuns.InsertedLoadsClean | src/lib/world/src/db_functions.rs:14-29 | An inserted chunk is stored without marks in the table of chunks and loads as stored; a chunk carries marks exactly when clearing them changes it |
| WorldRuns.StaysExactly | src/bin/src/systems/chunk_unloader.rs:8-80 | Over any run, exactly: a cached chunk stays cached all along if and only if the cache is never cleared, the chunk never deleted and, in the overworld, never invisible to everybody when the unloader comes by |
| WorldRuns.EvictionExactly | src/bin/src/systems/chunk_unloader.rs:51-72 | One pass with players online takes out exactly the overworld chunks at positions nobody has loaded |
| WorldRuns.OtherDimensionsStay | src/bin/src/systems/chunk_unloader.rs:55-65 | So a cached chunk of another dimension stays cached over any run that neither clears the cache nor deletes it, whatever anybody sees |
| WorldRuns.KeysTellApart | src/lib/world/src/db_functions.rs:341-347 | Within 2^21 chunks keys tell chunks apart exactly when the dimensions' hashes differ in the low 32 bits |
| WorldCache.World.InsertChunk | src/lib/world/src/db_functions.rs:18-29 | Stores the chunk with marks cleared, creating the table if needed; the cache is left alone |
| WorldCache.World.LoadChunk | src/lib/world/src/db_functions.rs:34-53 | The cached chunk, else the stored one, which is then cached; without a table, an entry or a decodable value the error of that case, with nothing changed |
| WorldCache.World.LoadAndWrite | src/lib/world/src/db_functions.rs:58-77 | A write through the guard lands in the cache, if the chunk can be loaded |
| WorldCache.World.ChunkExists | src/lib/world/src/db_functions.rs:97-102 | Cached or stored; false without a table |
| WorldCache.World.DeleteChunk | src/lib/world/src/db_functions.rs:107-110 | Leaves the cache even when the store then reports an error |
| WorldCache.World.PreCache | src/lib/world/src/db_functions.rs:223-229 | Caches the stored chunk, if it is not cached already |
| WorldCache.World.Sync | src/lib/world/src/db_functions.rs:123-161 | One transaction over the dirty chunks in whatever order the cache yields them, then marking exactly those clean |
| WorldCache.World.LoadChunkBatch | src/lib/world/src/db_functions.rs:168-191 | All or none are cached; the result lists the chunks found in the cache first, then the fetched ones |
| WorldCache.World.LoadOrGenerate | src/lib/utils/src/world/mod.rs:2-22 | Loads, or generates and stores and loads |
| WorldCache.Unload | src/bin/src/systems/chunk_unloader.rs:8-80 | Both modes of the unloader write back exactly the dirty chunks that leave the cache |
| WorldCache.SameLoads | src/lib/world/src/db_functions.rs:180-190 | Only which missing chunks are asked for matters, not their order or repetition |
| FluidBatch.ReduceWins | src/bin/src/systems/fluids/mod.rs:415-456 | The reduced batch has one change for every position proposed, and it is the winner: no proposal outranks it, and it asks for a follow-up if any proposal did |
| FluidBatch.ReductionMeans | src/bin/src/systems/fluids/mod.rs:403-453 | In terms of blocks: what wins at a position is one of the proposals for it; it solidifies if any does; else it is fluid if any is, of the least level; equals go to the greater block id; and it asks for a follow-up tick if any proposal does |
| FluidBatch.TiesAgree | src/bin/src/systems/fluids/mod.rs:441-456 | Equal priority forces the same block and the same effect |
| FluidBatch.WinnerIsUnique | src/bin/src/systems/fluids/mod.rs:415-433 | Position and proposals determine the winner |
| FluidBatch.ReduceIgnoresOrder | src/bin/src/systems/fluids/mod.rs:415-433 | The reduction depends only on which changes are proposed |
| FluidBatch.BatchIgnoresOrder | src/bin/src/systems/fluids/mod.rs:458-475 | A batch gives the same result in any order of its ticks |
| FluidBatch.SlicesConcat | src/bin/src/systems/fluids/mod.rs:527-530 | The slices handed to the workers concatenate back to the positions |
| FluidBatch.OneSlicePerWorker | src/bin/src/systems/fluids/mod.rs:524-529 | For every number of workers from one on, there are at most as many slices |
| FluidBatch.AnyMergeOrder | src/bin/src/systems/fluids/mod.rs:545-549 | The merged result is the same in whatever order the partial results arrive |
| FluidBatch.ReduceChanges | src/bin/src/systems/fluids/mod.rs:415-433 | The loop over the hash map lists the reduced batch, each position once |
| FluidBatch.RunBatch | src/bin/src/systems/fluids/mod.rs:527-546 | Tasks complete in any order, results come back in the order handed in |
| FluidBatch.EvaluateParallel | src/bin/src/systems/fluids/mod.rs:519-550 | For every number of workers the changes are those of the serial evaluation |
| FluidBatch.EvaluateBatch | src/bin/src/systems/fluids/mod.rs:458-475 | Whichever path the threshold picks, the result is the serial one |
| FluidApply.ChunkCache.ApplyChange | src/bin/src/systems/fluids/mod.rs:338-369 | Changes a loaded cell unless nothing changes or fluid would replace a solid block, and says whether it did |
| FluidApply.ChunkCache.ApplyChanges | src/bin/src/systems/fluids/mod.rs:584-588 | Applies the list in order and broadcasts exactly the changes made |
| FluidApply.ChangesAt | src/bin/src/systems/fluids/mod.rs:338-369 | With one change per cell the list acts on every cell on its own |
| FluidApply.CellExactly | src/bin/src/systems/fluids/mod.rs:338-369 | In terms of blocks: a cell of a loaded chunk becomes what its change says, except where fluid meets a block that is neither fluid nor air; an unloaded chunk stays unloaded |
| FluidApply.OrderDoesNotMatter | src/bin/src/systems/fluids/mod.rs:584-588 | Applying changes with distinct cells gives the same world in any order |
| FluidApply.SolidStaysDry | src/bin/src/systems/fluids/mod.rs:355-364 | Over a reduced batch no solid block turns into fluid |
| FluidApply.NothingIsLoaded | src/bin/src/systems/fluids/mod.rs:342-368 | No change list loads a chunk |
| FluidApply.ReapplyingIsSilent | src/bin/src/systems/fluids/mod.rs:349-352 | Applying the same reduced batch again changes and broadcasts nothing |
| FluidApply.BroadcastIsEnough | src/bin/src/systems/fluids/mod.rs:584-588 | A client that held the same blocks and receives the broadcast holds the world after |
| FluidApply.ReducedCellsDistinct | src/bin/src/systems/fluids/mod.rs:338-340 | A reduced batch whose heights fit `i16` changes no cell twice |
| FluidApply.BatchIsDeterministic | src/bin/src/systems/fluids/mod.rs:646-683 | Workers, completion order, tick order and hash order do not affect the world after a batch |
| FluidApply.UnreducedListEatsSolid | src/bin/src/systems/fluids/mod.rs:415-433 | Without reduction a solid block can turn into fluid |
| FluidApply.SharedCellShowsOrder | src/bin/src/systems/fluids/mod.rs:338-340 | Outside `i16` two positions of a reduced batch share a cell, and the order shows |
| CraftingShapeless.GreedyExactly | src/lib/inventories/src/crafting.rs:110-141 | The greedy pass finds an assignment whenever there is one, for every item list, exactly when each ingredient accepts nothing a later one does or nothing but that (or some ingredient can never be satisfied) |
| CraftingShapeless.GreedyIsSound | src/lib/inventories/src/crafting.rs:110-141 | A match always gives a bijection from ingredients to items, each pair accepted |
| CraftingShapeless.GreedyIsComplete | src/lib/inventories/src/crafting.rs:122-138 | Under that condition a bijection is never missed |
| CraftingShapeless.Astray | src/lib/inventories/src/crafting.rs:122-138 | Where the condition fails, items that can be handed out but make the pass fail |
| CraftingShapeless.OrderMattersExactly | src/lib/inventories/src/crafting.rs:110-141 | The answer is the same for every arrangement of every item list exactly when the ingredients are nested or one can never be satisfied |
| CraftingShapeless.OrderDoesNotMatter | src/lib/inventories/src/crafting.rs:110-141 | In particular with accepted sets pairwise equal or disjoint, where the answer is also right |
| CraftingShapeless.PlanksDependOnOrder | src/lib/inventories/src/crafting.rs:122-138 | A tag before one of its own items makes it depend on that |
| CraftingShapeless.MatchesCraftingShapeless | src/lib/inventories/src/crafting.rs:110-141 | The marking loop computes the greedy assignment on the items of the grid, counts compared first |
| CraftingShapeless.ItemsInReadingOrder | src/lib/inventories/src/crafting.rs:113-117 | The items are taken row by row and from left to right, each occupied cell exactly once |
| CraftingShapeless.GridMatchIsSound | src/lib/inventories/src/crafting.rs:119-140 | A match hands each item in the grid to one ingredient that accepts it and leaves neither over |
| CraftingShapeless.TakeFirst | src/lib/inventories/src/crafting.rs:122-134 | Marks the first unused item the ingredient accepts and nothing else |
| CraftingData.SymbolMatchesItem | src/lib/inventories/src/crafting.rs:145-156 | Some allowed entry names the item or a tag that contains it |
| CraftingGrid.NormalForm | src/lib/inventories/src/crafting.rs:34-61 | No empty border row or column; normalising again changes nothing; two grids have the same normal form exactly when one holds the other's items, moved |
| CraftingGrid.KeepsItems | src/lib/inventories/src/crafting.rs:34-61 | Every item is kept, moved to the corner, and none is added |
| CraftingGrid.MovedIsSame | src/lib/inventories/src/crafting.rs:34-61 | Moving the items, or padding the grid, does not change the normal form |
| CraftingGrid.CraftingGrid.Normalize | src/lib/inventories/src/crafting.rs:34-61 | The four searches and the trimming loop compute it in place; a grid without items stays |
| CraftingGrid.ShapedInGeneral | src/lib/inventories/src/crafting.rs:64-107 | For every pattern whose rows are no longer than its first, every key and every grid: items must fill a frame of the pattern's size and every symbol fit the cell under it, nothing being asked beyond a short row; a grid without items matches only a blank pattern of its own size |
| CraftingGrid.MatchesExactly | src/lib/inventories/src/crafting.rs:89-107 | Cell by cell: a grid with items matches exactly when in the frame they fill every cell under a space is empty and every item is named by an entry of the key of the symbol above it, or belongs to the tag such an entry names |
| CraftingGrid.ShapedExactly | src/lib/inventories/src/crafting.rs:64-107 | In particular a grid with items matches a rectangular pattern, spaces standing for empty cells, exactly when it is the pattern laid down somewhere with nothing around it and the pattern has no blank border |
| CraftingGrid.ShapedIgnoresPlace | src/lib/inventories/src/crafting.rs:64-107 | Where the items lie and how large the grid is do not matter |
| CraftingGrid.SmallGridIsPadded | src/lib/inventories/src/crafting.rs:9-15 | Padding the small grid changes no match |
| CraftingGrid.MatchesCraftingShaped | src/lib/inventories/src/crafting.rs:64-107 | The loops compare the normalised grid with the pattern, sizes first |
| EntitySync.DriftIsBounded | src/bin/src/systems/send_entity_updates.rs:49-99 | After n relative updates since the last teleport each axis of the client's copy is off by less than n/4096 block, and by nothing right after a teleport, the saturating cast included |
| EntitySync.DriftIsSharp | src/bin/src/systems/send_entity_updates.rs:49-99 | The sharper bound: n/8192 block after n relative updates, and as much again for each of them that saturates; DriftIsReached meets it |
| EntitySync.DriftIsReached | src/bin/src/systems/send_entity_updates.rs:71-78 | Nothing corrects the rounding: n steps of half a unit, none saturating, leave the client n/8192 block off |
| EntitySync.BoundsMean | src/bin/src/systems/send_entity_updates.rs:72-79 | The bounds in numbers, axis by axis; an update saturates when some axis moves to within half a unit of eight blocks, or farther |
| EntitySync.UnitsAreNear | src/bin/src/systems/send_entity_updates.rs:71-78 | One axis of one update: half a unit at most, less than one where the cast saturates, and it saturates by one unit only |
| EntitySync.ExactWhen | src/bin/src/systems/send_entity_updates.rs:71-78 | An axis is sent exactly when the move is a whole number of units in range, and only then |
| EntitySync.UpdateIsExactWhen | src/bin/src/systems/send_entity_updates.rs:70-99 | A relative update leaves the error of the client as it was, and a client that was right stays right, exactly when the move is a whole number of units in range on every axis |
| EntitySync.NearOnEachAxis | src/bin/src/systems/send_entity_updates.rs:49-70 | Below the teleport distance each axis moves less than eight blocks, so the delta never wraps |
| EntitySync.TeleportsExactly | src/bin/src/systems/send_entity_updates.rs:49-79 | A position is sent whole exactly when it is at least eight blocks away: always when an axis moved that far, never for a shorter move along one axis |
| EntitySync.RoundsAwayFromZero | src/bin/src/systems/send_entity_updates.rs:75-77 | Rounding is symmetric about zero and takes halves away from it |
| EntitySync.Tracked.SendEntityUpdate | src/bin/src/systems/send_entity_updates.rs:49-99 | Each update extends the path by the present position and keeps the bound |
| Disconnects.ExactlyOnePlace | src/lib/core/state/src/player_list.rs:16-27 | In every interleaving an entity that has joined is in exactly one place: list, one caller's hands, queue, gone; at most one `PlayerLeft` is written for it, exactly one if its components were there |
| Disconnects.DrainedMeansSettled | src/bin/src/systems/connection_killer.rs:50-52 | With no caller between its two actions and an empty queue everyone is listed or gone |
| Disconnects.DisconnectIsFinal | src/lib/core/state/src/player_list.rs:12-27 | No later event lists a disconnected entity again |
| Disconnects.DeparturesAreAnnounced | src/bin/src/systems/connection_killer.rs:54-149 | If components are applied before an entity is killed, every departure is announced, once |
| Disconnects.LeaveInOrder | src/bin/src/systems/connection_killer.rs:50-162 | Players leave in the order in which they were queued, and are announced in that order |
| Disconnects.AnnouncedExactly | src/bin/src/systems/connection_killer.rs:50-162 | Among the departed exactly those are announced whose components had been applied in time |
| Disconnects.StepKeepsInv | src/bin/src/systems/connection_killer.rs:50-162 | Every atomic action keeps the count of places |
| PlayerLists.Server.RemovePlayer | src/lib/core/state/src/player_list.rs:17-20 | Removes the player and tells the caller whether it was the one |
| PlayerLists.Server.Disconnect | src/lib/core/state/src/player_list.rs:16-27 | With other threads at work in between, a legal run after which the entity is not connected |
| PlayerLists.Server.ConnectionKiller | src/bin/src/systems/connection_killer.rs:50-162 | Drains the queue, and ends although other threads go on queueing; if no entity waits for its components, nobody departs silently |
| PlayerLists.Server.AcceptNewConnections | src/bin/src/systems/new_connections.rs:30-112 | Lists a fresh entity with its profile for each connection |
| PlayerLists.Tick | src/bin/src/game_loop.rs:259-263 | Accepting, applying and killing with other threads at work all along: everyone ever joined is in exactly one place, and every departure has been announced, once |

## Left out

- Sockets, packets, encryption, compression, configuration files and the dashboard: a send is an update of a client model.
- ChunkSystems.ChunkReceiver.Send: models a live connection; a failed send, which abandons the rest of the pass, and a player that is no longer connected are not modelled.
- ChunkStream.ClientAgreesWithLoaded: the square a login sends without recording it in `loaded` is the arbitrary set a client holds before the stream; batch start, batch finish and centre packets change no chunk and are not modelled.
- The `dirty` queue of a player is part of the state but nothing fills it, as in the source; the sender would drop any dirty chunk that is still loaded.
- ChunkSystems.ChunkReceiver.Calculate: the player's own chunk is bounded as in the source; the coordinates of the square around it are unbounded integers, as are those of the jobs, whose panic beyond chunk 2^22 would be a job that never reports.
- ChunkSystems.Tick: no system moves the player between the calculator and the sender of one tick; positions are real numbers, so infinities and NaN are left out.
- Schedulers.Scheduler.RunDue: requires a registered schedule, without which the loop of the source never ends, and positive periods, without which its skip loop never ends.
- Schedulers.MainLoop: requires a registered schedule, as StartGameLoop provides it; the number of passes before the shutdown flag is seen is a parameter; parking, overrun warnings and tick statistics are left out.
- `CommandGraphs` does not model the map from words to node indices, redirects, parser identifiers and properties of nodes, nor the traversal, none of which the search reads.
- CommandInputs.CommandInput.SkipWhitespace: for ASCII input, as the other operations of the cursor; beyond it the source counts bytes in some of them and characters in others, and a read that cuts a character in two panics.
- CommandInputs.CommandInput.ReadString: for ASCII input, for the same reason.
- CommandInputs.CommandInput.ReadUntil: for ASCII input, for the same reason.
- CommandInputs.CommandInput.GatherWords: for ASCII input, the only input on which its loop ends (GatheringEndsExactly).
- CommandInputs.ParsePosition: for ASCII input, for the same reason.
- Resolving a position against a base, peeking, counting tokens and the single-value argument parsers: each is a single expression over the cursor, and no property proved here depends on them.
- Storage.LmdbBackend.BatchUpsert: input/output errors, the limit on the number of tables and a full map are not modelled; a transaction is atomic.
- WorldCache.World.Sync: one atomic operation; what a concurrent writer would do is stated by `RacingChangeIsLost`.  Flushing to disk is left out.
- WorldCache.World.LoadChunk: checksum, decompression and decoding failures are one error.
- The heights of a chunk: setting a block outside them panics in the source and is not modelled in `FluidApply`.
- FluidApply.ChunkCache.ApplyChanges: the changes and their broadcast; re-ticking and waking neighbours are left out.
- Fluid kernels, the tick scheduler, neighbour waking and the settle pass: re-seeding reads the world in the middle of a batch, so no claim is made about its order.
- CraftingGrid.MatchesCraftingShaped: a pattern row longer than the first panics in the source and is excluded; the table of recipes and results is left out.
- EntitySync.DriftIsBounded: positions are real numbers, rounding of the floating-point arithmetic itself is not modelled.
- EntitySync.Tracked.SendEntityUpdate: the position; rotation, velocity and the grounded flag of the packet are left out.
- PlayerLists.Server.ConnectionKiller: the saved player data, the disconnect packet and the fields of `PlayerLeft` are left out; players only join on the thread that also runs the killer.
- Terrain, physics, collisions, mobs, inventories, game modes and text components.

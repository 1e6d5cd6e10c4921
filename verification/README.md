# Verified model of the multisensor station firmware

A Dafny 4.11 model of the parts of the firmware that carry state, concurrency or arithmetic, with proofs
about all of their inputs, runs and interleavings. `dafny verify dfyconfig.toml` checks everything.

- **Wi-Fi reconnection** (`WifiProtocol`, `WifiSafety`, `WifiLiveness`, `WifiRuns`, `WifiSchedules`,
  `WifiCauses`, `WifiManagers`). The reconnect task, the event handler and the public calls share a state, a retry counter
  and a condition variable, and only the task takes the mutex. `WifiProtocol` is a labelled transition system
  with one label for each step of the task (evaluate the predicate of `cv.wait`, go to sleep, test the
  counter, connect or call `esp_restart`, load and store of `++`, start and end of `cv.wait_for`, test the
  result) and for each step of a handler (`setState`, counter reset, `notify_all`), for any number of
  concurrent callers. A `Mode` says whether "check and sleep" and `++` are single steps; the source guarantees
  neither. A system keeps a log of what can be observed (connect calls, resets, timed waits, round ends, the
  decision to restart and the call), and the theorems are about that log. `WifiManagers` has the loop in its
  own structured form, with the other threads' steps supplied by a schedule. `WifiSchedules.Replay` says what
  the transition system makes of a schedule, turn by turn, and fields and log of the structured form are shown
  to end exactly as that; the schedules cover exactly the interleavings of the source.
- **Ring buffer** (`BoundedQueue`, `CircularBuffers`). The array form with `head`, `tail` and a redundant
  `size` in wrapping 32-bit arithmetic against a queue that keeps the last N items, with the history of
  every item (popped, overwritten by which push, still live). N = 0 is included: there `--size_` wraps and
  `++size_` wraps back.
- **State machine** (`ChangeTrees`, `Registrations`, `StateMachines`). The relation stored twice, and
  re-entrant changes: a callback may request changes itself, so the requests of one outermost call form a
  tree of any finite shape.
- **Line store** (`Lines`, `LineQueue`, `LineStores`). A file as a queue of lines, with `std::getline` after
  ISO C++20 [string.io] and devices whose opens, reads and writes may fail at any point.
- **Event log** (`LogHistory`, `LoggerProtocol`, `LoggedFleet`, `SetStateProtocol`, `EventLoggers`). Any
  number of logged objects sharing the ring of 30 entries, including the cut that the 64-character formatting
  buffer makes.
  `LoggedFleet` has setState calls one after the other; `SetStateProtocol` has any number of threads inside
  setState at once, each of which tests, stores, reads the state again for its name, and pushes the entry;
  `LoggerProtocol` has any number of threads inside the logger, whose test of the full ring takes no mutex.
- **OTA control** (`OtaProtocol`, `OtaSchedules`, `OtaManagers`). The button thread and the checker thread
  with their unsynchronised guard, as interleaved steps, and each thread's loop in its own form with the other
  one's steps in between, shown to end exactly as `OtaSchedules.Replay` says.
- **Profiler** (`TaskProfiler`). Snapshots and differences in 32-bit arithmetic over an ordered map.

Where the answer depends on how fine the steps are (going to sleep, `++`, the OTA guard, setState with its
log entry, the log entry with its printing), it is given as an equivalence: the property holds of all
reachable systems exactly when the step in question is atomic, and the other direction is an explicit run.

Three remarks on the sources. `lib/Patterns/StateMachine.hpp` cannot be compiled as it stands (the observer is
not a template, the pair key has no hash, the current state is never initialised); the model takes the
evident intent, with the initial state as a parameter. In the Wi-Fi and OTA protocols `setState` is one step:
for the state alone that is exact, since a call either finds the state equal, and then acts at the moment of
that test, or acts at the moment it stores (`SetStateProtocol.StatesFollowStores`). For the log entry it is
not exact, and `SetStateProtocol` says what is lost. A connect call of the task that fails stops the device in
one step; that other threads may run before the abort is covered by the step in which another thread's
`ESP_ERROR_CHECK` fails, which is possible at any moment.

## Model

| member | source | states |
|---|---|---|
| WifiSafety.CounterBounded | lib/Connectivity/WifiManager.cpp:50-56 | At any granularity of steps and in every interleaving the retry counter stays in 0..5 and at most 5 connect calls follow a counter reset |
| WifiSafety.NoDisconnectSleptThrough | lib/Connectivity/WifiManager.cpp:45-46 | If checking and sleeping are one step, whenever the task sleeps while the state is DISCONNECTED some caller is still between its setState and its notify_all |
| WifiRuns.NeverSleepsThroughIff | lib/Connectivity/WifiManager.cpp:130-151 | That guarantee holds of all reachable systems exactly when checking the predicate and going to sleep are one step |
| WifiRuns.LostWakeup | lib/Connectivity/WifiManager.cpp:134-137 | Otherwise an explicit four-step run ends asleep, disconnected, with no notification on its way |
| WifiRuns.LostWakeupPersists | lib/Connectivity/WifiManager.cpp:44-46 | After such a run the task stays asleep and does nothing observable until somebody announces something new |
| WifiSafety.BackoffClosedForm | lib/Connectivity/WifiManager.cpp:60-69 | Every timed wait of every run lasts min(10 * 2^k, 300) seconds, k being the rounds that failed in a row before it |
| WifiSafety.LongestWaitNeedsUnobservedReset | lib/Connectivity/WifiManager.cpp:43-69 | A 300-second wait is only reached if a GOT_IP reset the counter since the task last saw a round end connected |
| WifiRuns.LongestWaitOccurs | lib/Connectivity/WifiManager.cpp:152-156 | Such a wait does occur: five failed rounds, then a reconnection too short for the task to see |
| WifiSafety.RestartJustified | lib/Connectivity/WifiManager.cpp:50-55 | The counter test fails after exactly 5 connect calls since the last reset, or exactly 4 if that reset fell between a connect call and its increment and ++ is atomic |
| WifiSafety.StraddlingResetCostsOne | lib/Connectivity/WifiManager.cpp:50-55 | At any granularity at most 4 connect calls lie between a failing counter test and a last reset that fell between a connect call and its increment |
| WifiRuns.RestartAfterIff | lib/Connectivity/WifiManager.cpp:50-55 | The exact sets at the failing counter test, with a run for every member: 5 connect calls if the last reset did not fall between a connect call and its increment; otherwise 4 if ++ is atomic, and any number from 0 to 4 if it is not |
| WifiRuns.RestartCallIff | lib/Connectivity/WifiManager.cpp:50-57 | The exact sets at esp_restart itself: those of the failing test, or 0 connect calls when a GOT_IP reset the counter between the test and the call, which no granularity of the other steps prevents |
| WifiSafety.ConnectedDecisionNeedsHandler | lib/Connectivity/WifiManager.cpp:50-55 | The counter test fails on a CONNECTED device only while some GOT_IP handler is between its setState and its counter reset |
| WifiRuns.RestartConnectedIff | lib/Connectivity/WifiManager.cpp:50-57 | Exactly when esp_restart finds the device CONNECTED, at any granularity: n handlers are between setState and counter reset with n > 0, or a reset came after the failing test; every such case has a run |
| WifiRuns.LateReconnection | lib/Connectivity/WifiManager.cpp:50-57 | A run in every mode that restarts a CONNECTED device with no handler under way and no connect call since the last reset: a whole GOT_IP fell between the failing test and esp_restart |
| WifiRuns.RestartWhileConnected | lib/Connectivity/WifiManager.cpp:152-157 | Such a restart does occur at every granularity: five failed rounds, then a GOT_IP that has set the state and not yet the counter |
| WifiRuns.FourConnectsBeforeRestartIff | lib/Connectivity/WifiManager.cpp:50-55 | At least 4 connect calls lie between every failing counter test and the last reset before it exactly when ++ is atomic |
| WifiRuns.LostReset | lib/Connectivity/WifiManager.cpp:53-56 | With ++ as load and store the reset in between is lost: for each j in 0..4 some run decides to restart after only j connect calls since a reset that fell between a connect call and its increment |
| WifiLiveness.DisconnectEndsInRestart | lib/Connectivity/WifiManager.cpp:44-69 | From any reachable disconnected loop head, a run without GOT_IP, STA_START or failed check restarts exactly when the task has had 8 * (5 - count) + 3 steps, after exactly 5 - count connect calls, and until then the task is never blocked |
| WifiLiveness.DisconnectEndsAnyway | lib/Connectivity/WifiManager.cpp:44-69 | If connect calls and other checks may also fail, every such run still stops the device within the same number of task steps |
| WifiLiveness.StartupWaitsBounded | lib/Connectivity/WifiManager.cpp:43-69 | With no GOT_IP since boot the waits are a prefix of 10, 20, 40, 80, 160, at most 310 s, and all five precede a restart |
| WifiCauses.StateIsLastSet | lib/Connectivity/WifiManager.cpp:122-162 | In every interleaving, at any granularity, the state is that of the last setState of any handler or caller, and nothing else changes it |
| WifiCauses.RoundBeginsIff | lib/Connectivity/WifiManager.cpp:45-46 | A look at the predicate of cv.wait lets the task go on exactly if the last setState of the run before it was of DISCONNECTED |
| WifiCauses.RoundEndTells | lib/Connectivity/WifiManager.cpp:62-69 | A round is logged as connected exactly if the last setState of the run before its end was of CONNECTED |
| WifiCauses.NoConnectUnasked | lib/Connectivity/WifiManager.cpp:44-69 | At any granularity, a resting task to which nobody announces a disconnect makes no connect call, increment, wait or restart, whatever else the others do and however often it wakes up |
| WifiCauses.HandlersAccounted | lib/Connectivity/WifiManager.cpp:122-162 | In every interleaving the handlers under way at each point are those begun less those ended: no step of a handler is lost or doubled |
| WifiCauses.UndisturbedDisconnect | lib/Connectivity/WifiManager.cpp:130-151 | A disconnect that nobody disturbs is possible at any moment, leaves DISCONNECTED and a task that is awake, and changes nothing else |
| WifiCauses.UndisturbedGotIp | lib/Connectivity/WifiManager.cpp:152-161 | A GOT_IP handler that nobody disturbs is possible at any moment, leaves CONNECTED, a zero counter and a task that is awake, and changes nothing else |
| WifiManagers.WifiManager.ReconnectTask | lib/Connectivity/WifiManager.cpp:40-71 | The structured loop, under any schedule of other threads, ends with fields and log exactly as the transition system makes them from the whole schedule, failing ESP_ERROR_CHECKs included; a schedule without a disconnect leaves no event of the task at all |
| WifiSchedules.ReplayReachable | lib/Connectivity/WifiManager.cpp:40-162 | What the transition system makes of any schedule is a system reachable at the granularity of the source |
| WifiSchedules.SchedulesAreRuns | lib/Connectivity/WifiManager.cpp:40-162 | A system is reachable at the granularity of the source exactly if some schedule, with further steps of other threads after its last turn, leads to it |
| WifiSchedules.ReplayAfterHalt | lib/Connectivity/WifiManager.cpp:40-71 | Once the device has stopped, the rest of a schedule changes nothing |
| WifiManagers.WifiManager.AttemptConnect | lib/Connectivity/WifiManager.cpp:50-58 | With other threads before each step: takes four steps and logs exactly one connect call and one increment, or in two steps logs exactly the decision and the restart, or stops with the schedule or a failed check |
| WifiManagers.WifiManager.MayRetry | lib/Connectivity/WifiManager.cpp:50-55 | Goes on to the connect call exactly below the maximum, and otherwise logs the decision to restart |
| WifiManagers.WifiManager.RestartDevice | lib/Connectivity/WifiManager.cpp:55-57 | Logs the restart and stops, with other threads in between the failing test and the call |
| WifiManagers.WifiManager.Connect | lib/Connectivity/WifiManager.cpp:51-52 | Logs one connect call, failing or not, and goes on exactly if the driver reports no error |
| WifiManagers.WifiManager.AwaitDisconnect | lib/Connectivity/WifiManager.cpp:45-46 | cv.wait with its predicate: goes on only on seeing DISCONNECTED, advances the replay to the counter test without logging anything, or stops with the schedule or the device |
| WifiManagers.WifiManager.IncrementCount | lib/Connectivity/WifiManager.cpp:53 | ++ as a load and a store: afterwards the counter is one more than the value it had at the load, whatever others did in between, and one increment is logged |
| WifiManagers.WifiManager.AwaitConnected | lib/Connectivity/WifiManager.cpp:60 | Logs exactly one timed wait of the given backoff delay, and keeps the delay |
| WifiManagers.WifiManager.EndRound | lib/Connectivity/WifiManager.cpp:62-69 | Logs the round as the state says; the next backoff delay is 10 after a connection and otherwise the double up to 300 |
| WifiManagers.WifiManager.OtherStep | lib/Connectivity/WifiManager.cpp:122-162 | Each step of a handler or caller, the failing ESP_ERROR_CHECK included, changes the shared fields exactly as the protocol's label says, and does nothing when it is not possible |
| BoundedQueue.RunConserves | lib/Patterns/CircularBuffer.hpp:16-74 | Over every run: live items are the newest pushed ones in order, popped items come out in strictly increasing push order, pushed = popped + overwritten + live, and an item is overwritten only by the push exactly N after it |
| BoundedQueue.NothingVanishes | lib/Patterns/CircularBuffer.hpp:16-74 | Every item ever pushed is popped, overwritten or still live |
| BoundedQueue.OverwrittenIffOutrun | lib/Patterns/CircularBuffer.hpp:20-30 | An item that was not popped has been overwritten exactly when at least N later items were pushed |
| CircularBuffers.CircularBuffer.Push | lib/Patterns/CircularBuffer.hpp:16-56 | Contents become the last N of the old contents plus the item, and the history records the step |
| CircularBuffers.CircularBuffer.Pop | lib/Patterns/CircularBuffer.hpp:59-74 | Returns and removes the oldest item, or reports that there is none and changes nothing |
| CircularBuffers.CircularBuffer.IsMax | lib/Patterns/CircularBuffer.hpp:82-84 | The index test is true exactly when N items are live |
| CircularBuffers.CircularBuffer.IsEmpty | lib/Patterns/CircularBuffer.hpp:77-79 | The index test is true exactly when no item is live |
| CircularBuffers.CircularBuffer.Size | lib/Patterns/CircularBuffer.hpp:86-88 | The stored count is the number of live items and equals (head - tail) mod (N + 1) |
| CircularBuffers.CircularBuffer.At | lib/Patterns/CircularBuffer.hpp:91-94 | For every index: it goes round to some i up to N, with size_t wrap-around modelled; below size that is the i-th oldest live item, and above it the item the slot was last given, or empty if it never was |
| ChangeTrees.PreOrderIsWalk | lib/Patterns/StateMachine.hpp:37-45 | For every tree of re-entrant requests the accepted changes in pre-order are a connected walk of registered edges from the first state to the final one |
| ChangeTrees.AcceptInTurn | lib/Patterns/StateMachine.hpp:37-45 | Requests in a row act one after the other: wherever they are split, the later ones act in the state that the earlier ones with all their callbacks led to |
| ChangeTrees.OrdersAgree | lib/Patterns/StateMachine.hpp:67-78 | Callbacks and observers are told exactly the same accepted changes |
| ChangeTrees.FlatOrdersCoincide | lib/Patterns/StateMachine.hpp:67-78 | Without nested changes they are told them in the same order |
| ChangeTrees.NothingAcceptedIff | lib/Patterns/StateMachine.hpp:37-45 | A sequence of requests changes nothing exactly if none of their targets is registered from the present state |
| ChangeTrees.CallOrderIff | lib/Patterns/StateMachine.hpp:37-78 | For an accepted call from a state that leads into no cycle, callbacks and observers are told the changes in the same order exactly if its callback requests no registered edge from the new state |
| ChangeTrees.LastReport | lib/Patterns/StateMachine.hpp:37-78 | The last report an observer gets is the last outermost change, and a walk of the changes nested in it leads on to the current state |
| ChangeTrees.LastReportTellsIff | lib/Patterns/StateMachine.hpp:37-78 | The last report of an accepted call names the current state exactly if its callback requests no registered edge from the new state: this holds of all calls that enter a state exactly when no cycle leads back to that state |
| ChangeTrees.FollowIsAccept | lib/Patterns/StateMachine.hpp:37-45 | Callbacks that choose each request, or to return, from everything so far, the outcome of their own earlier requests included, terminate when edges decrease a rank, and do what the request tree they unfold to does |
| ChangeTrees.FollowObeys | lib/Patterns/StateMachine.hpp:37-45 | Such a run obeys its callbacks: each request, refused or granted, is the one chosen from the trace before it, it is granted exactly if registered, and a callback returns, and the run stops, only when its requests are used up or it has no further one |
| ChangeTrees.RankBoundsNesting | lib/Patterns/StateMachine.hpp:37-78 | Then nesting depth and number of accepted changes are at most the rank given up |
| ChangeTrees.CycleNestsWithoutBound | lib/Patterns/StateMachine.hpp:37-78 | Along any cycle of registered edges that can be reached from the present state, requests can nest deeper than any bound |
| ChangeTrees.NestingBoundedIff | lib/Patterns/StateMachine.hpp:37-78 | The nesting of calls from a state is bounded exactly when no cycle of registered edges can be reached from it, and then the number of edges is a bound |
| ChangeTrees.RankIffNoCycle | lib/Patterns/StateMachine.hpp:26-45 | The registered edges decrease some rank exactly when they have no cycle |
| Registrations.FormsAgree | lib/Patterns/StateMachine.hpp:26-29 | After any registrations, duplicates included, an edge is in the adjacency lists and in the callback map exactly if it was registered |
| Registrations.ListedAsOftenAsRegistered | lib/Patterns/StateMachine.hpp:26-29 | A target is in the adjacency list once for each registration of its edge |
| Registrations.LastCallbackWins | lib/Patterns/StateMachine.hpp:26-29 | The callback found for an edge is the one registered last for it |
| StateMachines.StateMachine.RegisterStateTransition | lib/Patterns/StateMachine.hpp:26-29 | Registration keeps both stored forms equal to what the history of registrations says |
| StateMachines.StateMachine.IsValidTransition | lib/Patterns/StateMachine.hpp:54-64 | The scan succeeds exactly for registered edges, so the callback lookup after an accepted change never misses |
| StateMachines.StateMachine.ChangeToState | lib/Patterns/StateMachine.hpp:37-45 | With all its callbacks' requests: accepted exactly if the edge is registered, the state ends where the walk ends, and everything that happens, callbacks and reports to observers, happens in the order of the nested changes; each observer is told them in post-order, once for each time it is on the list |
| StateMachines.StateMachine.NotifyStateChange | lib/Patterns/StateMachine.hpp:67-78 | The edge's callback is called first, then happens all that it requested, then the observers are told in the order of registration |
| StateMachines.CalledInPreOrder | lib/Patterns/StateMachine.hpp:67-78 | Of everything that happens, the calls are those of the callbacks on record for the accepted changes, in pre-order |
| StateMachines.ToldInPostOrder | lib/Patterns/StateMachine.hpp:67-78 | Of everything that happens, the reports to one observer are the accepted changes in post-order, each once for each time it is on the list |
| Lines.ReadBack | lib/FileSystem/SDCardFileSystem.hpp:151-173 | Reading what was printed gives back the newline-free lines |
| Lines.PrintBack | lib/FileSystem/SDCardFileSystem.hpp:151-173 | Printing what was read gives back the text, with a missing final newline supplied |
| Lines.LinesDistributeIff | lib/FileSystem/SDCardFileSystem.hpp:109-122 | Lines of a concatenation are the concatenated lines exactly when the first text is terminated or the second empty |
| Lines.AppendIsEnqueueIff | lib/FileSystem/SDCardFileSystem.hpp:109-122 | A successful append adds exactly its line to the lines exactly when the file was empty or terminated and the line holds no newline |
| LineQueue.AppendRemoveCommuteIff | lib/FileSystem/SDCardFileSystem.hpp:109-181 | Appending and removing commute exactly on non-empty, terminated contents |
| LineQueue.FileIsQueue | lib/FileSystem/SDCardFileSystem.hpp:109-181 | Any run of successful appends and removals keeps the file equal to the rendered queue of lines |
| LineQueue.OperationsTerminate | lib/FileSystem/SDCardFileSystem.hpp:144-181 | From arbitrary contents the file is empty or newline-terminated after any successful operation |
| LineQueue.DrainYieldsLines | lib/FileSystem/SDCardFileSystem.hpp:126-181 | Reading and removing the first line as often as there are lines yields exactly the lines in order and an empty file, for arbitrary contents |
| LineQueue.PrefixKeepsOrder | lib/FileSystem/SDCardFileSystem.hpp:171-178 | What an interrupted rewrite leaves is whole lines in order and at most a piece of the next one |
| LineStores.SDCardFilesystem.AppendLine | lib/FileSystem/SDCardFileSystem.hpp:109-123 | Succeeds exactly if the file opens and the device takes line and newline; otherwise leaves what fitted |
| LineStores.SDCardFilesystem.ReadFirstLine | lib/FileSystem/SDCardFileSystem.hpp:126-141 | The first line, or nothing if the file is missing, empty or unreadable |
| LineStores.SDCardFilesystem.ReadLines | lib/FileSystem/SDCardFileSystem.hpp:154-158 | The loop reaches end of file exactly if the device serves enough reads, and then has collected exactly the remaining lines |
| LineStores.SDCardFilesystem.WriteLines | lib/FileSystem/SDCardFileSystem.hpp:171-178 | Writes the rendered lines up to what the device takes, and succeeds exactly if that is all of them |
| LineStores.SDCardFilesystem.RemoveFirstLine | lib/FileSystem/SDCardFileSystem.hpp:144-181 | Exactly when it succeeds, and then the file holds exactly the other lines; a file that cannot be opened or read to its end is left alone, and one whose rewrite fails holds exactly what fitted of the other lines |
| LogHistory.PrintedLines | lib/Logger/EventLogger.hpp:37-39 | After n changes logged one after the other 30 * max(0, n - 29) lines have been printed |
| LoggerProtocol.PrintsAsInSequenceIff | lib/Logger/EventLogger.hpp:27-66 | Over all interleavings of any number of threads, the console shows exactly what calls in sequence print exactly when logStateChange is one step |
| LoggerProtocol.WindowsPrinted | lib/Logger/EventLogger.hpp:27-66 | In every interleaving, once all threads have returned at most one window was printed for each call, nothing if the ring never filled up, and otherwise the newest window last |
| LoggerProtocol.ConsoleIsWindows | lib/Logger/EventLogger.hpp:27-66 | In every interleaving the console shows one whole window for each print, that of the history at some moment, and never an older one after a newer |
| LoggerProtocol.MutexExcludes | lib/Logger/EventLogger.hpp:28-36 | Whenever a push begins or a window is printed, every push begun before has ended |
| LoggerProtocol.PrintedTwice | lib/Logger/EventLogger.hpp:27-66 | Two threads that push the 29th and 30th entry before either tests print the window twice |
| LoggerProtocol.PrintSkipped | lib/Logger/EventLogger.hpp:27-66 | A test that falls into another thread's push finds the full ring not full, and a window is never printed |
| LogHistory.StoredWholeIff | lib/Logger/EventLogger.hpp:30-34 | An entry survives the formatting buffer whole exactly if identifier and state name have at most 29 characters together |
| LogHistory.SameEntryIff | lib/Logger/EventLogger.hpp:30-34 | Two entries of one object are equal exactly when the two state names agree in the first 29 - n characters, n being the length of the identifier (in none from 29 on) |
| LogHistory.StateIsLostIff | lib/Logger/EventLogger.hpp:30-34 | The entries of an object show nothing at all of its states exactly when its identifier has 29 characters or more |
| LogHistory.EntryShowsObjectIff | lib/Logger/EventLogger.hpp:30-34 | An entry shows timestamp and identifier in full exactly for identifiers of at most 33 characters |
| LogHistory.WholeEntriesCoincideIff | lib/Logger/EventLogger.hpp:30-34 | Whole entries of two objects can be the same exactly if one identifier with the arrow after it begins the other with its arrow, so entries alone do not always tell objects apart |
| LogHistory.BlankFreeTellsApart | lib/Logger/EventLogger.hpp:30-34 | Whole entries tell object and state for identifiers without blanks, such as those of the firmware |
| LoggedFleet.HistoryIsFaithful | lib/Patterns/StatefulObject.hpp:39-46 | For any sequence of calls on any number of objects, each completed before the next, an object's logged states never repeat a neighbour and end in its current one (SetStateProtocol says what becomes of this when calls overlap) |
| LoggedFleet.WindowTellsCurrentState | lib/Logger/EventLogger.hpp:27-66 | For calls in sequence, the newest retained entry of an object that changed within the window is the entry of its current state, and of exactly those states whose names the cut does not tell from it |
| SetStateProtocol.AtomicLeavesSequential | lib/Patterns/StatefulObject.hpp:39-46 | If setState with its logging is one step, the fleets that threads leave behind are exactly those of call sequences |
| SetStateProtocol.NoStutterIff | lib/Patterns/StatefulObject.hpp:39-46 | No object's log ever repeats a state, over all interleavings of any number of threads, exactly when setState with its logging is one step |
| SetStateProtocol.Stutter | lib/Patterns/StatefulObject.hpp:39-46 | Otherwise two threads that pass the test with the same state leave two equal neighbours |
| SetStateProtocol.EndsInCurrentIff | lib/Patterns/StatefulObject.hpp:39-46 | An object's last logged state is always its current one exactly when setState with its logging is one step |
| SetStateProtocol.KeptApartIsFaithful | lib/Patterns/StatefulObject.hpp:39-46 | At the granularity of the source, an object's log never repeats a neighbour and ends in its current state in every run in which calls on that object do not overlap, however calls on others do |
| SetStateProtocol.StaleEntry | lib/Patterns/StatefulObject.hpp:39-46 | Otherwise a thread overtaken between reading the name and pushing it leaves a last entry that is not the current state |
| SetStateProtocol.WindowTellsIff | lib/Patterns/StatefulObject.hpp:39-46 | The newest retained entry of an object is always that of its current state exactly when setState with its logging is one step, or the cut leaves the same of all its state names |
| SetStateProtocol.EveryStoreIsLogged | lib/Patterns/StatefulObject.hpp:39-46 | In every interleaving, once all calls have returned an object has as many entries as it was stored to, each names a stored state, and its current state is among them if it was ever stored to |
| SetStateProtocol.LogIsStoresIff | lib/Patterns/StatefulObject.hpp:39-46 | What all calls have logged when they have returned is exactly what they stored, in order, exactly when setState with its logging is one step |
| SetStateProtocol.StoredStateUnlogged | lib/Patterns/StatefulObject.hpp:39-46 | Otherwise a thread overtaken between the store and the name logs the other thread's state, and its own is in no entry |
| SetStateProtocol.StatesFollowStores | lib/Patterns/StatefulObject.hpp:39-46 | In every interleaving the states are what the stores make of them in the order they happened |
| EventLoggers.EventLogger.LogStateChange | lib/Logger/EventLogger.hpp:27-51 | Ring and console stay equal to what the history says, printing whenever the ring is full |
| EventLoggers.EventLogger.PrintLatestLogs | lib/Logger/EventLogger.hpp:58-66 | Prints exactly the live window, oldest first, with no empty slot |
| EventLoggers.StatefulObjectLogged.SetState | lib/Patterns/StatefulObject.hpp:39-46 | An undisturbed call: stores and logs exactly an actual change, with the name read after the store, as the fleet's setState does |
| OtaProtocol.GuardedRuns | lib/Ota/OtaManager.hpp:58-121 | With the availability stub as written, or an atomic guard, every interleaving performs at most one update, only advances Idle, Checking, Downloading, Success or Failed, never Applying, and restarts only from the last two |
| OtaProtocol.OneUpdateIff | lib/Ota/OtaManager.hpp:68-98 | At most one update a boot exactly when the guard is atomic or no update is ever reported available |
| OtaProtocol.ReleasedButtonWaits | lib/Ota/OtaManager.hpp:58-66 | As long as every look finds the button released, its thread stays in the loop, in every mode and interleaving |
| OtaProtocol.NoPressNoUpdate | lib/Ota/OtaManager.hpp:58-95 | With the availability stub as written, a run in which the button is never pressed performs no update, changes no state and does not restart |
| OtaProtocol.PressUpdates | lib/Ota/OtaManager.hpp:58-121 | A press on an idle device starts an update that, undisturbed, goes through all its states and restarts |
| OtaProtocol.BusyCheckerRests | lib/Ota/OtaManager.hpp:77-89 | Once the state is not Idle, a checker in its loop never asks for an update again |
| OtaProtocol.BusyDeviceRefuses | lib/Ota/OtaManager.hpp:68-75 | Once the state is not Idle, no thread that has not passed the guard ever does |
| OtaProtocol.DoubleUpdate | lib/Ota/OtaManager.hpp:68-102 | Otherwise an explicit two-thread run performs two updates and moves the state back from Downloading to Checking |
| OtaProtocol.UninterruptedUpdate | lib/Ota/OtaManager.hpp:97-121 | One thread's update that nobody interrupts goes through all its states and restarts |
| OtaProtocol.AtMostTwoUpdates | lib/Ota/OtaManager.hpp:58-121 | At any granularity and with any availability answers, no run performs more than two updates |
| OtaProtocol.UpdateEndsInRestart | lib/Ota/OtaManager.hpp:97-121 | A thread past the guard never turns back: whatever the other does, it or the other restarts the device at the latest with its own fourth step, and until then each own step brings it one nearer |
| OtaSchedules.ReplayReachable | lib/Ota/OtaManager.hpp:58-121 | What the protocol makes of any schedule is a system reachable with the bare guard of the source |
| OtaSchedules.SchedulesAreRuns | lib/Ota/OtaManager.hpp:58-121 | A system is reachable with the bare guard exactly if some schedule of either thread, with further steps of the other after its last turn, leads to it |
| OtaManagers.OtaManager.MonitorButton | lib/Ota/OtaManager.hpp:58-66 | The button thread's loop, with the other thread's steps before each of its own, ends with all fields exactly as the protocol makes them from the whole schedule; at most two updates, with the stub as written at most one with advancing states, and without a press none at all, or with other availability answers none of its own |
| OtaManagers.OtaManager.CheckForOtaUpdates | lib/Ota/OtaManager.hpp:77-89 | The same for the checker thread's loop |
| OtaManagers.OtaManager.EnterOtaMode | lib/Ota/OtaManager.hpp:68-75 | Test and call with the other thread in between: returns to the loop in one turn exactly as the replay does, only if the state was not Idle and without an update; otherwise the device restarts or the schedule ends |
| OtaManagers.OtaManager.PassGuard | lib/Ota/OtaManager.hpp:68-75 | One turn: the update is entered, and counted, exactly if the state is Idle when the thread looks |
| OtaManagers.OtaManager.PerformOtaUpdate | lib/Ota/OtaManager.hpp:97-121 | Replays its four steps, interrupted anywhere, and ends in the restart whenever the schedule grants it four turns |
| OtaManagers.OtaManager.OtherStep | lib/Ota/OtaManager.hpp:58-121 | Each step of the other thread changes the shared fields exactly as the protocol's label says, with true availability answers only if the stub may give them |
| TaskProfiler.TotalsDiffer | lib/Profiler/TaskProfiler.cpp:101-126 | Modulo 2^32 the difference of two totals is the sum of the wrapped single-task differences plus the tasks added since |
| TaskProfiler.TimesDiffer | lib/Profiler/TaskProfiler.cpp:101-126 | For the execution time this holds exactly |
| TaskProfiler.SumTake | lib/Profiler/TaskProfiler.cpp:104-109 | A sum over the map does not depend on the order of its tasks |
| TaskProfiler.TaskProfilerMonitor.AddUp | lib/Profiler/TaskProfiler.cpp:112-119 | The loop over the map yields the sums of the fields of the same names, wrapped for cpu and stack, and the free heap of the greatest handle |
| TaskProfiler.TaskProfilerMonitor.SaveAppSnapshot | lib/Profiler/TaskProfiler.cpp:102-110 | The application snapshot is the totals of the current statistics |
| TaskProfiler.TaskProfilerMonitor.AppDiff | lib/Profiler/TaskProfiler.cpp:112-126 | The application difference is what the tasks show one by one plus the added tasks (for the heap, what the last tasks of both tables show, an empty one counting as 0) if and only if the application snapshot totals the single-task snapshots |
| TaskProfiler.WordAgreesIff | lib/Profiler/TaskProfiler.cpp:101-126 | A 32-bit column of the application difference is right exactly when the saved total of that column is that of the single-task snapshots |
| TaskProfiler.TaskProfilerMonitor.MeasureBetween | lib/Profiler/TaskProfiler.cpp:13-126 | All snapshots taken together, then any starts and stops of any tasks: the application difference printed afterwards is what the tasks show one by one |
| TaskProfiler.TaskProfilerMonitor.SaveAllSnapshots | lib/Profiler/TaskProfiler.cpp:78-110 | Taking the snapshots of all tasks and of the application makes the one the totals of the others |
| TaskProfiler.TaskProfilerMonitor.SingleTaskDiff | lib/Profiler/TaskProfiler.cpp:84-99 | Differences exist exactly for tasks with a snapshot, field by field, wrapped in the 32-bit columns |
| TaskProfiler.TaskProfilerMonitor.StopProfiling | lib/Profiler/TaskProfiler.cpp:22-32 | Overwrites the four measurements of a known task and nothing else, and leaves the snapshots together if they were |
| TaskProfiler.TaskProfilerMonitor.StartProfiling | lib/Profiler/TaskProfiler.cpp:13-20 | Adds a task once, never changes a known one, restarts the clock, and leaves the snapshots together if they were |
| TaskProfiler.TaskProfilerMonitor.SaveSingleTaskSnapshot | lib/Profiler/TaskProfiler.cpp:78-82 | Copies the statistics of a known task and nothing else |

## Left out

- ESP-IDF and FreeRTOS calls (Wi-Fi driver, GPIO, flash, heap, HTTPS OTA, SD mount) appear only as inputs, results or labels.
- Clocks: a timed wait may end at any later moment, which covers both the timeout and an early return; measured durations are inputs.
- `checkInternetConnectivityTask`, `checkWifiSignalStrength` and the debug thread: nothing starts them, and the callers of `reconnect` they would add are covered by the arbitrary number of callers.
- Credential copying, `init`, event-group bits and log wording in the Wi-Fi manager.
- ChangeTrees.FollowIsAccept: a callback that goes on requesting for ever is not covered; a bound on its requests is fixed when it is entered.
- Observers that themselves request changes, and callbacks that register transitions or observers while they run: only callbacks re-enter here.
- CircularBuffers.CircularBuffer.Pop: moved-from contents of the slot are not modelled; the slot keeps its value, and at() shows it.
- The memory model: each read and write of a shared variable is one indivisible step, in program order.
- State names and identifiers with embedded NUL characters, which the source would cut at the NUL.
- stdio buffering and failures that only show when a file is closed: a write failure is reported at the write.
- `readFile`, `deleteFile` and `mount`, which add only one-branch facts; `writeFile` is covered by arbitrary contents.
- The application loop of `start` in the OTA manager, which only logs.
- Signed overflow of 64-bit durations in the profiler, and its printing of tables, flash, heap and stack.
- The MQTT manager, command router, LED manager and sensor stubs: simple dispatch and driver calls.

# A Dafny model of libnrm

libnrm is a node resource manager. Clients register sensors, scopes and actuators with a daemon and push timestamped
events; the daemon keeps the events, runs a power controller on them and commands actuators. This project models the
parts of it that carry the hard invariants and proves what they promise, for every input, every run and every
interleaving. `dafny verify dfyconfig.toml` checks all of it.

The modules follow the program:

- **The hash table.** `UtHashLinks` and `UtHash` model the uthash macros on a real heap: elements linked twice
  (insertion order and bucket chains), bucket doubling, and the accounting that decides when to stop doubling. The hash
  function is an arbitrary parameter. `NrmHash` is the `nrm_hash_*` interface; any run of it answers as the
  insertion-ordered map of `OrderedMap` does. `BitOps` gives masks and shifts their arithmetic meaning.
- **The event base.** `EventBase` keeps events in slices per sensor and scope and refines a flat log of pushes.
  `Windows` says which events successive control ticks see, and `DaemonWindows` that this is what the daemon's ticks do.
- **The control loop.** `Median`, `Control` and `ControlLoop` take the events to a progress value, to the PI law in a
  linearised domain, to the clamp, to the actuator and back. Reals stand for doubles; `exp` and `log` are parameters,
  assumed only to be positive, strictly increasing and mutually inverse.
- **The protocol.** `Messages`, `Server`, `Protocol`, `ProtocolTheorems`, `ProtocolLiveness` and `RegistrationTheorems`:
  clients with a caller and a broker thread, the daemon with its broker thread, and FIFO links, as a state machine of
  which a run is any sequence of steps. The daemon's callbacks are methods of a class, each proved to be the step the
  state machine takes.
- **Actuators and kernels.** `Actuators` (nearest-choice correction), `Sorting`, `Bitmaps` (bitmaps, scopes and their
  messages), `RingBuffer`, `RateLimit` (the OpenMP preload), `Strings` (reference-counted join).

## Where the code and its promises part

Each of these is modelled as the code behaves, with a lemma that shows it and one that says exactly when it matters.

- After `nrm_client_send_exit`, whose acknowledgement nobody reads, a list or an add on the same handle reads that
  acknowledgement and its assertion fails (`ExitThenListFails`). `RepliesAnswerRequests` gives the exact condition: a
  reply is what its caller asserts if and only if the client has not asked for an exit before, or the caller asserts an
  ACK.
- Nothing tells a blocked caller that the daemon has stopped. `BlockedCallerIsAnswerable`: it can still get a reply if
  and only if one is on its way, or the daemon runs and no EXIT is ahead of its request in the inbox.
- The nearest-choice search starts from a distance of `DBL_MAX`, so a value as far as that from every choice is left
  as it is (`ExtremeChoicesAreNotCorrected`). `CorrectionAdmissible`: every corrected value passes validation if and
  only if the limits are ordered, or there are choices and no gap between neighbours reaches twice `DBL_MAX`.
- With `alpha * a < 0` the linearised bounds swap and the clamp pins every regular output to the minimum
  (`ReversedGainPinsMinimum`), whatever the law asks for; with `alpha * a > 0` it is the minimum exactly when the law
  asks for no more (`MinimumWhenAskedFor`). The bounds on the output hold either way.
- `nrmd_actuate_callback` allows every actuation a client asks for, so a client can take the power cap out of the range
  the controller is configured with (`ClientLeavesRange`). `DaemonKeepsCap`: the cap ends a run in the range if and only
  if the controller set it last, or the last client's request was corrected into the range, or nobody set it and its
  first value is there.
- A control tick reads the clock once when it pulls and once more when it has acted. Slices are the unit: the tick uses
  the events whose slice key is before the key of its first reading, and the next tick starts at the key of the second.
  An event keyed at or after the first and before the second is lost, even one timed before the first reading
  (`LostEvent`, which also shows an event timed between the readings that is used). `EventFate` gives the exact
  condition: an event keyed before the last action is used if and only if its key is in no such gap and it was pushed
  before the tick that looked at its key; `FateIsSettled`: no continuation changes that.
- Times before the epoch are rounded up to the next key, so slice 0 is almost two periods wide (`SliceZeroIsWide`). A
  key is the start of the slice its time lies in, and windows on keys are windows on times, if and only if the time is not
  before the epoch or is a key itself (`KeyOfTime`, `WindowOnTimes`).
- The field `start` of a timeserie holds the latest event time (`StartIsNotFirst`). It is the time of the first event if
  and only if no event is later and that time is not before the epoch (`StartIsFirst`).
- Finalising the rate limiter does not reset its count; a second call would report the rest again
  (`SecondFinalizeRepeats`).

## Model

| member | source | states |
|---|---|---|
| `BitOps.MaskShiftAreModDiv` | include/internal/uthash.h:499-502 | masking with 2^k - 1 is the remainder, and shifting by k the quotient, by 2^k |
| `UtHashLinks.ToBktDoubled` | include/internal/uthash.h:499-502 | the bucket of a hash is its remainder, and doubling the buckets sends bucket i to i or to i plus the old number |
| `UtHashLinks.ExpansionSplitsBuckets` | include/internal/uthash.h:1012-1014 | across an expansion bucket i holds exactly what its two successors hold, and nothing from elsewhere reaches them |
| `UtHashLinks.Account` | include/internal/uthash.h:1017-1026 | counting one element in keeps nonideal_items equal to the sum of the excesses and every count within its multiplier |
| `UtHashLinks.MoveChain` | include/internal/uthash.h:1009-1036 | draining one old chain moves each of its elements to the chain its hash asks for, all chains well linked both ways |
| `UtHashLinks.DrainAll` | include/internal/uthash.h:1006-1037 | the nested loops move every element once; the new chains hold exactly the members, each in its bucket, counted and accounted for |
| `UtHash.CeilShiftIsCeil` | include/internal/uthash.h:999-1005 | the shift-and-mask expression is the ceiling of items over buckets |
| `UtHash.Table.ExpandBuckets` | include/internal/uthash.h:984-1055 | an expansion keeps the items and their order, doubles 2^k buckets, re-chains everything, leaves exact accounting (ideal length, non-ideal items, multipliers) and inhibits expansion after two ineffective ones |
| `UtHash.Table.AddToBkt` | include/internal/uthash.h:920-937 | linking at the chain head keeps the whole invariant; the table expands if and only if the count of the bucket, with the element, reaches 10 (multiplier + 1) and expansion is not inhibited |
| `UtHash.Table.MakeTable` | include/internal/uthash.h:237-276 | the new table has 32 = 2^5 empty buckets |
| `UtHash.Table.AppendList` | include/internal/uthash.h:325-331 | the element is appended to the insertion-order list, which stays well linked both ways, through the old tail only |
| `UtHash.Table.AddKeyptr` | include/internal/uthash.h:461-490 | adding an absent key appends it to the contents and keeps the invariant, whatever expansion it causes |
| `UtHash.Table.FindInBkt` | include/internal/uthash.h:893-917 | the walk returns an element of the chain with the key bytes, or null exactly when the chain has none |
| `UtHash.Table.Find` | include/internal/uthash.h:166-191 | the lookup returns a live element with the key, or null exactly when no live element has it |
| `UtHash.Table.UnlinkBkt` | include/internal/uthash.h:940-953 | unlinking from the bucket chain keeps all chains linked, counted and complete for the remaining items |
| `UtHash.Table.Delete` | include/internal/uthash.h:518-552 | deletion removes exactly that element from both structures, keeps the order of the others, and handles the sole, first, last and middle element |
| `UtHash.Table.Fsck` | include/internal/uthash.h:599-667 | on any table whose walks end, the check finds nothing wrong if and only if all back links are the elements before and all counts are right |
| `UtHash.ValidIsConsistent` | include/internal/uthash.h:599-667 | every table the operations can produce is one the check accepts |
| `NrmHash.Add` | src/utils/hashes.c:32-47 | adding a present key fails and changes nothing; otherwise the entry is appended |
| `NrmHash.Find` | src/utils/hashes.c:79-91 | find returns the live payload of the key; the error tells an empty table from a missing key |
| `NrmHash.Delete` | include/internal/uthash.h:518-552 | find then delete is removal in the ordered map, and tells whether the key was there |
| `NrmHash.Size` | src/utils/hashes.c:93-99 | the size is the number of entries; an empty table is an error |
| `NrmHash.ForEach` | src/utils/hashes.c:101-125 | iteration visits each live entry once, in insertion order, and stops |
| `NrmHash.Destroy` | src/utils/hashes.c:65-77 | deleting while iterating with a saved successor empties the table |
| `NrmHash.Run` | src/utils/hashes.c:32-125 | every sequence of adds, finds and deletes from a fresh table keeps the invariant and gives the contents and the replies of the ordered map |
| `OrderedMap.AddLaws` | include/nrm/utils/hashes.h:35-44 | adding keeps keys unique, never replaces a value, and leaves other keys alone |
| `OrderedMap.RemoveLaws` | include/nrm/utils/hashes.h:46-55 | removal makes the key absent, leaves the others alone and undoes an add |
| `EventBase.KeyOfTime` | src/eventbase.c:62-66 | a key is a multiple of the slice period; it is the start of the slice of its time if and only if the time is not before the epoch or is a key; earlier times are rounded up |
| `EventBase.SliceZeroIsWide` | src/eventbase.c:62-66 | a time has key 0 if and only if it is less than a period from the epoch, on either side |
| `EventBase.StartIsFirst` | src/timeserie.c:59-72 | start is the first event's time if and only if no event is later and that time is not before the epoch |
| `EventBase.StartIsNotFirst` | src/timeserie.c:69-70 | two events of which the later gives start |
| `EventBase.Timeserie.AddEvents` | src/timeserie.c:59-85 | the events are appended in order and start is the latest time so far |
| `EventBase.Base.PushEvent` | src/eventbase.c:123-219 | one push extends the flat log by one entry; the nested tables stay the slices of each sensor and scope's stream |
| `EventBase.Base.PullTimeserie` | src/eventbase.c:225-272 | a pull returns the logged events of that sensor and scope in the window, each as often as pushed, in push order if pushes were time-ordered |
| `EventBase.PullIsWindow` | src/eventbase.c:258-268 | collecting slices by key gives the same multiset as filtering the log |
| `EventBase.PullInOrder` | src/eventbase.c:258-268 | with time-ordered pushes it gives the same sequence |
| `EventBase.WindowOnTimes` | src/eventbase.c:258-268 | all windows on keys select a time as windows on times do if and only if the time is not before the epoch or is a key |
| `Windows.PulledCount` | src/eventbase.c:258-268 | the number of log positions a tick pulls is the number of events returned |
| `Windows.RunKeepsSpans` | src/control/europar21.c:147-161 | over every run the spans of the acting ticks tile the time line from the start to the last action, and each used exactly the events of its window pushed by then |
| `Windows.EventsUsedAtMostOnce` | src/control/europar21.c:210-250 | with a clock that never goes back, no pushed event is used in two progress computations |
| `Windows.WindowsAndGapsPartition` | src/binaries/nrmd.c:67-112 | up to the last action, each key is either in the window of a computation or in a gap, and never both |
| `Windows.GapEventsNeverUsed` | src/control/europar21.c:248-250 | an event keyed at or after the first reading of an acting tick and before the second is never used |
| `Windows.EventFate` | src/control/europar21.c:210-250 | an event keyed between the start and the last action is used by some computation if and only if its key is in no gap and it was not pushed after the pull that looked at its key |
| `Windows.FateIsSettled` | src/control/europar21.c:248-250 | an event keyed before the last action is used in some continuation if and only if it has been used |
| `Windows.LostEvent` | src/eventbase.c:258-268 | a run that loses an event timed and pushed before the pull, and uses two timed between the readings |
| `Windows.SkippedWindowIsKept` | src/control/europar21.c:210-214 | a tick with too few events changes nothing and its window is contained in the next one |
| `DaemonWindows.SeenIsPulled` | src/eventbase.c:258-268 | the events a tick of the daemon sees are those at the positions it pulls |
| `DaemonWindows.DaemonFollowsWindows` | src/binaries/nrmd.c:67-112 | a run of the daemon, seen by one sensor and scope, is a run of the windows: same events, same last action, same events used, one set for each progress computed |
| `DaemonWindows.DaemonUsesEventsOnce` | src/control/europar21.c:210-250 | over every run of the daemon with a clock that never goes back, no event is used in two progress computations |
| `DaemonWindows.DaemonEventFate` | src/control/europar21.c:210-250 | the exact condition of use, over every run of the daemon |
| `DaemonWindows.DaemonKeepsSkippedWindow` | src/control/europar21.c:210-214 | a tick of the daemon with too few events keeps the memory, and the window of the next tick contains its window, whatever happens between |
| `Median.Events2Progress` | src/control/europar21.c:163-195 | progress is the median of the rates between consecutive events, all indices in range |
| `Median.RatesMeaning` | src/control/europar21.c:171-178 | there is one rate for each event but the first, and it times the nanoseconds since the event before is that event's value times 10^9 |
| `Median.FirstValueIsUnused` | src/control/europar21.c:170-178 | progress does not depend on the first event's value |
| `Median.SteadyProgress` | src/control/europar21.c:163-195 | events of value v every d nanoseconds make a progress of v * 10^9 / d |
| `Median.MedianOfSorted` | src/control/europar21.c:183-192 | against any sorted vector of the same rates: the middle one, or the mean of the middle two |
| `Median.MedianSplits` | src/control/europar21.c:183-195 | at least half of the rates are at most the result and at least half are at least it |
| `Median.MedianOrderFree` | src/control/europar21.c:183-195 | the result depends only on the multiset of rates |
| `Sorting.SortedUnique` | src/control/europar21.c:183-184 | two sorted vectors with the same elements are equal, so any correct sort gives the same vector |
| `Control.LinearizeDelinearize` | src/control/europar21.c:30-34 | linearising undoes delinearising on the negative half line |
| `Control.DelinearizeLinearize` | src/control/europar21.c:56-60 | delinearising undoes linearising everywhere |
| `Control.LinearizeMonotone` | src/control/europar21.c:30-34 | linearising is negative, and strictly rising or falling with the sign of alpha * a |
| `Control.EuroPar21.Action` | src/control/europar21.c:197-253 | at most one event changes nothing; otherwise output and memory follow the law on the median rate, fallback included |
| `Control.LinearizeInLog` | src/control/europar21.c:30-34 | in the logarithm linearising is affine with slope alpha * a and value 0 where a * cap + b is beta |
| `Control.FallbackUsesMaximum` | src/control/europar21.c:223-229 | an inactive step changes nothing; a progress below (1 - e) Kl or above 2 Kl gives the maximum and clears the memory |
| `Control.LawWrittenOut` | src/control/europar21.c:230-243 | elsewhere, with T = e Kl (1 + L(max)), the memory becomes T - progress and the linearised cap L(cap) + ((3 + t)(T - progress) - t prev_e) / (Kl tobj), or the bound that exceeds |
| `Control.CapsDifferAsProgress` | src/control/europar21.c:230-243 | from one state, unclamped caps for two progresses p and q differ in the linearised domain by (3 + t) / (Kl tobj) * (q - p) |
| `Control.LessProgressLargerCap` | src/control/europar21.c:36-54 | so with positive gains less progress gives the larger cap, and conversely |
| `Control.StandstillAtTarget` | src/control/europar21.c:36-54 | with the error settled, an unclamped step leaves the loop where it is if and only if progress is T |
| `Control.OutputWithinBounds` | src/control/europar21.c:223-246 | every output of an active step lies in [min, max], whatever the events, the cap and the memory; the linearised state does not wind up |
| `Control.ReversedGainPinsMinimum` | src/control/europar21.c:41-44 | with alpha * a < 0 every regular output is the minimum |
| `Control.MinimumWhenAskedFor` | src/control/europar21.c:230-243 | with alpha * a > 0 a regular output is the minimum if and only if the unclamped action is at most the linearised minimum |
| `Control.CapStaysWithinBounds` | src/control/europar21.c:134-137 | over every closed run the cap read back stays in [min, max] |
| `Control.RegularStep` | src/control/europar21.c:46-54 | a regular step closed through a covering actuator moves the linearised cap by exactly the incremental law |
| `Control.PositionalLaw` | src/control/europar21.c:230-243 | after any run of regular steps the linearised cap is its start plus Kp (e_n - e_0) plus Ki times the sum of errors |
| `Control.FixedPointIsTarget` | src/control/europar21.c:36-54 | with the error settled, a regular step leaves the loop where it is if and only if the error is zero |
| `ControlLoop.Nrmd.ControlTick` | src/binaries/nrmd.c:67-112 | pull, read back, act and actuate make one step of the closed loop when more than one event is seen, and otherwise correct the cap again |
| `ControlLoop.Nrmd.ClientActuate` | src/binaries/nrmd.c:47-54 | a client's request is always allowed: its corrected value becomes the cap |
| `ControlLoop.Nrmd.Turns` | src/binaries/nrmd.c:35-112 | any run of event callbacks, client actuations and ticks ends in the log and the loop state the run function gives |
| `ControlLoop.DaemonIsClosedLoop` | src/binaries/nrmd.c:67-112 | wherever in a run a stretch without client actuations begins, it is the closed loop run over the median rates of its acting ticks; the rest of it changes neither cap nor memory |
| `ControlLoop.DaemonFollowsPositionalLaw` | src/control/europar21.c:230-243 | in each such stretch of regular steps the cap follows the positional PI law from where the stretch began |
| `ControlLoop.ActingTickBoundsCap` | src/control/europar21.c:223-246 | after every tick that runs the controller the cap is in [min, max], whatever clients did before |
| `ControlLoop.CapIsAsSet` | src/server.c:43-50 | over every run the cap is what its last setter, controller or client, made it |
| `ControlLoop.DaemonKeepsCap` | src/binaries/nrmd.c:47-107 | over every run the cap ends in [min, max] if and only if the controller set it last, or the last client's request was corrected into it, or nobody set it and its first value is there |
| `ControlLoop.ClientLeavesRange` | src/binaries/nrmd.c:47-54 | limits [0, 200], range [40, 120] and a request of 200 |
| `Actuators.Actuator.SetChoices` | src/actuators/discrete.c:57-69 | the choices become a sorted permutation of the input; an empty input is refused and changes nothing |
| `Actuators.Actuator.SetLimits` | src/actuators/continuous.c:55-64 | the limits become those given, ordered or not |
| `Actuators.Actuator.CorrectedValue` | src/actuators/discrete.c:86-124 | the loop computes the correction whose meaning the lemmas below state; no choices is an error and leaves the value |
| `Actuators.Actuator.ValidateValue` | src/actuators/discrete.c:126-142 | success exactly for a choice, or for a value within the limits |
| `Actuators.DiscreteCorrection` | src/actuators/discrete.c:86-124 | the correction is a choice at minimal distance, the lowest on ties, exactly when a choice is in reach |
| `Actuators.ContinuousCorrection` | src/actuators/continuous.c:66-85 | the correction is the one value within ordered limits nearest to the request |
| `Actuators.CorrectionIdempotent` | src/actuators/discrete.c:86-124 | correcting twice is correcting once |
| `Actuators.CorrectionMonotone` | src/actuators/discrete.c:86-124 | a larger request is never corrected to a smaller value |
| `Actuators.CorrectionAdmissible` | src/actuators/discrete.c:86-142 | every corrected value passes validation if and only if the actuator is well formed |
| `Actuators.ExtremeChoicesAreNotCorrected` | src/actuators/discrete.c:112-122 | with the two extreme doubles as choices, zero is left as it is and fails validation |
| `Messages.HandleReplies` | src/server.c:301-342 | every request but EVENTS is answered once, with the type and target its caller asserts; whatever else is sent is an actuation command |
| `Messages.ActuateAllSets` | src/binaries/nrmd.c:101-107 | after a tick's outputs every actuator has the corrected value of the last command for it, and nothing else in the tables has changed |
| `Messages.ActuateAllSends` | src/server.c:416-433 | they send, in order, one command for each output of a registered name, to its owner with the corrected value |
| `Messages.KindFromMsgKeeps` | src/messages.c:689-728 | limits keep their places; choices become a sorted permutation |
| `Messages.AddRegistersActuator` | src/server.c:85-103 | a free name is registered with the sender as owner, value and kind as sent and not actuated; a taken name changes nothing; other names and tables are untouched |
| `Messages.AddRegistersObject` | src/server.c:105-125 | the same for scopes, sensors and slices, each in its own table |
| `Messages.RemoveUnregisters` | src/state.c:27-65 | a removal that takes effect leaves every other name and kind alone |
| `Messages.RemoveTakesOut` | src/state.c:27-65 | and takes out its own |
| `Messages.ListHasObject` | src/state.c:77-105 | a list of a kind shows what is registered in its table |
| `Server.Daemon.ActuateOne` | src/server.c:416-433 | the corrected value is stored and sent to the owner; an unknown name does nothing |
| `Server.Daemon.ControlOutputs` | src/binaries/nrmd.c:101-107 | the output loop is the fold of single actuations, messages in order |
| `Server.Daemon.ListActuators` | src/state.c:67-75 | the listing shows every registered actuator in insertion order |
| `Server.ListEntries` | src/state.c:77-105 | so do the listings of scopes, sensors and slices |
| `Server.KindOf` | src/messages.c:689-728 | an actuator made from a message has its choices sorted, none when none are given, and its limits as they are |
| `Server.Daemon.AddObject` | src/server.c:127-163 | the object is registered unless its name is taken, with the sender as owner of an actuator, and sent back either way |
| `Server.Daemon.RoleCallback` | src/server.c:301-342 | the dispatch changes the table and enqueues commands then reply as the protocol step does, and stops the loop exactly on EXIT |
| `Protocol.HandleView` | src/server.c:301-342 | what one client sees of a daemon step: commands, then the answer if the request was its own |
| `Protocol.RelayView` | src/roles/controller.c:43-96 | relaying between pipe and socket changes neither what is on its way up nor what is on its way down, nor any order |
| `Protocol.BrokerDownView` | src/roles/client.c:103-123 | the client broker's step moves one message into the reply pipe or the command callback and nothing else |
| `Protocol.StepKeeps` | src/roles/client.c:70-123 | every step of every party keeps, for every client, the matching of pending requests with replies and requests in flight |
| `Protocol.InvRun` | src/roles/client.c:70-123 | so does every run |
| `ProtocolTheorems.RepliesAnswerRequests` | src/client.c:84-114 | in every interleaving a reply read answers the oldest unanswered request; it is what the caller asserts if and only if there was no exit before or the caller asserts an ACK |
| `ProtocolTheorems.ExitThenListFails` | src/client.c:710-723 | a run in which a list after an exit reads an ACK |
| `ProtocolTheorems.CommandsStayOutOfReplies` | src/messages.c:1269-1279 | in every run the reply pipe holds replies only and the callback gets commands only |
| `ProtocolTheorems.CallbackBeforeReturn` | src/server.c:43-59 | when a client actuates its own actuator and it is allowed, the callback has been given the corrected value before the call returns, at the place after all commands sent before |
| `ProtocolTheorems.ReplyIsRead` | src/roles/client.c:103-123 | the next reply a client reads after the daemon handled its request is the daemon's reply to that request |
| `ProtocolTheorems.ActuatedValuesAreTold` | src/server.c:32-61 | in every run an actuated actuator holds the value last sent to its owner, admissible if the actuator is well formed |
| `ProtocolTheorems.StepKeepsActuator` | src/server.c:85-103 | a registered actuator keeps owner, choices and limits until removed, whoever adds the name again, and its value until actuated |
| `ProtocolTheorems.RunKeepsActuator` | src/state.c:107-111 | the same over every run |
| `ProtocolTheorems.ListSeesActuation` | bindings/python/tests/test_client.py:123-134 | a client whose list request is handled before anyone else sets or removes the actuator reads a list that shows the corrected value |
| `RegistrationTheorems.TimerActuates` | src/binaries/nrmd.c:114-130 | a control tick of the daemon's own sends each registered output's owner the corrected value, in order, stores the last, and changes nothing else |
| `RegistrationTheorems.TickActuates` | src/server.c:290-299 | so does one asked for by a client, acknowledged after the commands |
| `RegistrationTheorems.ListSeesAddedActuator` | src/server.c:85-103 | an added actuator is shown until removed to whoever reads a list, with owner and kind, and until set with its value |
| `RegistrationTheorems.StepKeepsObject` | src/state.c:113-129 | a registered scope, sensor or slice stays as it is until removed |
| `RegistrationTheorems.ListSeesAddedObject` | src/server.c:127-225 | an added scope, sensor or slice is shown until removed to whoever reads a list of its kind |
| `ProtocolLiveness.CallIsSent` | src/client.c:62-80 | a call puts its request last on the client's way to the daemon, and blocks the caller except for EVENTS and EXIT |
| `ProtocolLiveness.CallReturns` | src/roles/controller.c:43-96 | from any reachable state with a reply under way, or a running daemon and no EXIT ahead, there are steps after which the call has returned |
| `ProtocolLiveness.StepKeepsStuck` | src/server.c:281-288 | otherwise no step lets the caller read or makes it answerable |
| `ProtocolLiveness.BlockedCallerIsAnswerable` | src/roles/client.c:298-317 | in every reachable state a blocked caller can still get a reply if and only if one is on its way, or the daemon runs with no EXIT ahead of its request |
| `Bitmaps.Bitmap.IsSet` | src/utils/bitmaps.c:28-35 | the answer is the bit, or -1 out of range |
| `Bitmaps.Bitmap.Set` | src/utils/bitmaps.c:40-48 | one bit is set, or -1 and nothing changes |
| `Bitmaps.SetBitOk` | src/utils/bitmaps.c:40-48 | setting a bit adds exactly that element to the set and keeps every word in 64 bits |
| `Bitmaps.Bitmap.NSet` | src/utils/bitmaps.c:68-85 | shifting each word through counts the cardinality of the set |
| `Bitmaps.Bitmap.Cmp` | src/utils/bitmaps.c:93-96 | equal words if and only if equal sets |
| `Bitmaps.Bitmap.ToArray` | src/utils/bitmaps.c:163-179 | the early stop loses nothing: all members are listed |
| `Bitmaps.MembersOfSet` | src/utils/bitmaps.c:163-179 | the listing is strictly ascending, holds exactly the set, and is as long as its cardinality |
| `Bitmaps.Bitmap.FromArray` | src/utils/bitmaps.c:181-187 | resetting and setting every item, out-of-range items refused |
| `Bitmaps.FromItemsIsInRange` | src/utils/bitmaps.c:181-187 | the resulting set is the set of in-range items |
| `Bitmaps.ArrayRoundTrip` | src/utils/bitmaps.c:163-187 | reading a bitmap back from its array restores it |
| `Bitmaps.ItemsRoundTrip` | src/utils/bitmaps.c:163-187 | listing a bitmap made from items gives the in-range items, sorted and without repetition |
| `Bitmaps.NrmScope.Add` | src/utils/scopes.c:28-31 | one resource is added to the set of its type, or -1 and nothing changes |
| `Bitmaps.NrmScope.Length` | src/utils/scopes.c:38-41 | the cardinality of that type's set |
| `Bitmaps.NrmScope.Cmp` | src/utils/scopes.c:58-64 | 0 if and only if every type has the same resources |
| `Bitmaps.NrmScope.SendAndReadBack` | src/messages.c:203-217 | a scope sent and read back has the same name and resources |
| `Bitmaps.ScopeRoundTrip` | src/messages.c:730-742 | the same on values |
| `Bitmaps.MessageListsResources` | src/messages.c:203-217 | each field of the message lists exactly the resources of its type |
| `Bitmaps.MessagesTellScopesApart` | src/utils/scopes.c:58-64 | two scopes have the same message if and only if they have the same name and compare equal |
| `RingBuffer.IndicesAreInverse` | include/internal/utringbuffer.h:117-125 | logical and real indices are mutually inverse and find the element of that rank |
| `RingBuffer.NeighbourRanks` | include/internal/utringbuffer.h:131-141 | next and prev move one rank, fall off the ends and undo each other |
| `RingBuffer.TraversalIsContents` | include/internal/utringbuffer.h:131-134 | next-traversal from the front visits exactly the contents, oldest first, and stops |
| `RingBuffer.RingBuffer.Create` | src/utils/ringbuffer.c:20-41 | a size or element size of zero is refused; otherwise an empty ring of that capacity |
| `RingBuffer.RingBuffer.PushBack` | include/internal/utringbuffer.h:95-111 | the contents become the last n of the old contents and the new element |
| `RingBuffer.RingBuffer.Get` | src/utils/ringbuffer.c:62-73 | the j-th oldest element, or -EDOM exactly when there is none |
| `RingBuffer.RingBuffer.Back` | src/utils/ringbuffer.c:75-84 | the newest element, or -EDOM exactly when empty |
| `RingBuffer.RingBuffer.IsEmpty` | src/utils/ringbuffer.c:95-100 | true exactly when there are no contents |
| `RingBuffer.RingBuffer.IsFull` | src/utils/ringbuffer.c:102-107 | true exactly when the contents fill the capacity |
| `RingBuffer.RingBuffer.Run` | include/internal/utringbuffer.h:54-111 | after any pushes and clears the contents are the last n elements pushed since the last clear, in order |
| `RateLimit.Limiter.SendEvent` | src/preloads/ompt/nrm_omp_callbacks.c:16-30 | one call counts one, and sends and resets when more than the limit has passed |
| `RateLimit.Limiter.Finalize` | src/preloads/ompt/entrypoint.c:36-45 | what is pending is sent |
| `RateLimit.Limiter.Life` | src/preloads/ompt/entrypoint.c:29-45 | any sequence of calls and then the end is the run the lemmas speak of |
| `RateLimit.Conservation` | src/preloads/ompt/nrm_omp_callbacks.c:16-30 | for any clock readings, amounts sent plus the pending count are the calls made, and nothing is sent empty |
| `RateLimit.EveryCallIsReportedOnce` | src/preloads/ompt/entrypoint.c:36-45 | after the end the amounts sent add up to the calls made |
| `RateLimit.SecondFinalizeRepeats` | src/preloads/ompt/entrypoint.c:36-45 | a second finalize keeps the total right if and only if nothing was pending |
| `RateLimit.RunSpacing` | src/preloads/ompt/nrm_omp_callbacks.c:20-28 | k messages move the last sending time at least k (limit + 1) ns on, and any two messages are spaced likewise, even if the clock goes backward |
| `RateLimit.PendingCalls` | src/preloads/ompt/nrm_omp_callbacks.c:20-28 | in every run the pending count is the number of calls since the last report, each of which read a clock at most the limit past it |
| `RateLimit.LateCallIsReported` | src/preloads/ompt/nrm_omp_callbacks.c:20-28 | a call is reported at its own clock, with all calls since the last report, if and only if it comes later than the limit after that |
| `RateLimit.NsRoundTrip` | src/utils/timers.c:29-46 | nanoseconds survive the way to seconds and back, of either sign |
| `RateLimit.TimeRoundTrip` | src/utils/timers.c:29-46 | so do times whose nanoseconds are less than a second |
| `Strings.NrmString.IncRef` | src/utils/strings.c:98-103 | the count of a live string goes up by one |
| `Strings.NrmString.DecRef` | src/utils/strings.c:105-112 | the count goes down by one, to freed at zero |
| `Strings.Join` | src/utils/strings.c:134-154 | the result is new and holds both texts around the separator; the old destination loses one reference; a null source does nothing |
| `Strings.NonEmptyConcat` | src/utils/strings.c:159-163 | of two vectors in a row the non-empty texts are those of the first and then of the second; the empty ones are left out |
| `Strings.VJoin` | src/utils/strings.c:156-172 | the text is the separator-join of the non-empty inputs; at no step is an input's count below its start; the result is new, or an input with one more reference |
| `Strings.VJoinAndRelease` | src/utils/strings.c:105-172 | one release of the result restores every input's count |
| `Strings.JoinIsInvertible` | src/utils/strings.c:134-172 | splitting a join at the separator gives the texts back if and only if none of them holds the separator |

## Left out

- ZeroMQ sockets, actors, event loops, connection monitoring, signals: links are FIFO sequences and each handler call is
  one step. The two broker threads are steps of a state machine on values, not objects.
- Two threads calling through one client handle: send and receive are locked separately, so matching needs one caller
  thread per client; an action of the model is a whole send or a whole receive of one caller.
- Protobuf encoding, JSON, hwloc, PAPI, GEOPM, MPI, OMPT registration, command-line tools, logging, bindings.
- Floating-point rounding, integer overflow, allocation failure, null handles as arguments.
- Messages.HandleReplies: scopes, sensors and slices carry their name only, since nothing the daemon does depends on
  more; the subscription link (published events) is not modelled.
- ProtocolTheorems.ActuatedValuesAreTold: `nrm_hash_remove` looks up the address of its argument and returns the element
  in place of the payload, against its documentation; so a REMOVE may drop an entry or leave it, and every theorem holds
  either way. Deletion itself is proved on `HASH_DELETE_HH`.
- UtHash.Table.AddKeyptr: an element's key and hash are fixed when it is made, and the pointer from an element to its
  table is the table itself. A key already present is excluded here because `NrmHash.Add` never adds one.
- UtHash.Table.Fsck: a chain that never ends is not modelled; the check itself does not look at hash values or buckets.
- HASH_SRT, HASH_SELECT, the Bloom filter and the other hash functions, which libnrm does not use; utlist and utarray.
- EventBase.Base.PushEvent: the nested tables are values of the ordered map that `NrmHash.Run` shows the hash table to
  be; aliasing between them is not modelled.
- `nrm_eventbase_tick`, which does nothing, and any expiry of slices.
- Control.EuroPar21.Action: one input and one output, the ones the controller reads; consecutive events of a window have
  distinct times, as the division by their difference demands, and the configured divisors are not zero.
- Median.Events2Progress: with equal consecutive times the code divides by zero and goes on with an infinity or a NaN,
  which reals do not have.
- ControlLoop.Nrmd.ControlTick: the actuator and the scope are and stay registered; with an unknown actuator the daemon
  would read 0 and actuate nothing.
- Strings.VJoin: the initial empty string is never released by the code, so nothing is claimed about leaks.
- `nrm_scope_dup`, `nrm_scope_snprintf` and `nrm_bitmap_to_string`, and the atomic variant of setting a bit.

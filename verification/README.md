# GenoM: a verified model of the module runtime and its generators

GenoM turns the description of a robot module into a program: a control task that accepts requests,
execution tasks that run the codels of activities, and the tables both of them index. This project
models that runtime together with the generators whose output it depends on, and proves what holds of
them in every run and for every module description.

## The modules

The runtime, from the data upwards:

- `Activities`, `ControlBase`: the activity table, its states, events and counters (`SDI_C`).
- `CodelTables`, `Compatibility`: the generated codel tables and compatibility vectors, with the code
  that consults them; both are compilers whose output is proved to mean the description.
- `ControlTask`: the control task's operations, in place on the table, against slot-by-slot
  specifications (acknowledging, allocating, freeing, aborting, spawning, the handlers of execution,
  control and abort requests).
- `ExecTask`: one iteration of an execution task, its early-exit scan in place, against a full map.
- `ScanMeaning`, `ControlMeaning`: what an iteration and the control task's operations come to, told by
  the description, statuses, events and codel answers alone.
- `ActivityLife`, `TableInvariants`, `Wakeups`: what single operations keep. `Machine`: the
  interleaving of any number of execution tasks, the control task and other users of `genomTakeSDIs`,
  at the granularity of lock operations. `Safety`: what every step of every run keeps. `Invariance`:
  what every step keeps but one kind, and that this kind breaks it. `Theorems`: what follows for
  reachable states. `Counterexamples`: runs that show where the theorems end. `Resumption`: where a
  task goes on that was suspended inside its section.
- `Timing`, `TimedTask`: the time statistics of an execution task, on their own and around the scan.
  `StartUp`: the start-up handshake.

The generators and libraries:

- `Declarations`, `Flattening`, `FlatProperties`, `OpParams`: the two recursive walks over declared
  types with their shared, mutated prefix and counters. `AccessPaths`: which scalar each of their
  statements is for, told by member numbers and array indexes.
- `Reports`: collection, numbering and decoding of report codes. `Enums`: enumerations from the parser
  to C and Python.
- `Environment`, `Tokens`, `ByteSwap`: the in-place algorithms of `compat/` and `lib/`.

Codels are arbitrary: in each iteration an oracle chooses the answer of every codel in every slot, any
integer outside the enumeration included, and all theorems quantify over it. Template parameters such
as the number of tasks and their periods are constants of a configuration. Mutual exclusion locks and
pending-event flags are modelled as states of the transition system, binary semaphores likewise.

## Results worth knowing

- The property that a nested call of `flatDcl` returns with the prefix as it found it holds for every
  call under a non-empty prefix. A structure flattened under the empty prefix, which is only the
  outermost call, leaves its own name behind: there is no dot to cut at (`src/initGen.c:266`).
- Codes of a module are pairwise distinct not only below 0x8000 reports but exactly below 58369, the
  number of the first standard error.
- A swap compiled for one byte order and executed on a host of the other is the identity.
- Resuming a task that was suspended inside its section breaks mutual exclusion. `Suspend(TRUE)` gives
  both locks back before it suspends the task, and a later `taskResume` lets it go on inside its section
  without them (`canvas/server/execTask.c:571-583`). There are three calls of `taskResume`, all in
  `canvas/server/cntrlTask.c`: in the abort request with number -88 (line 848), in the one with number
  -99, which ends the module when no activity is live (line 896), and in `SignalEnd`, which SIGTERM
  brings about whatever the table holds (line 990). The user guide presents such tasks as resumable
  (`doc/user_guide/tex/genom-codels.tex:828-832`); the model follows the code. Exactly the runs in which
  none of the three resumes a task inside its section keep the lock discipline throughout. A state that
  such a run reaches is called cleanly reachable below; resuming tasks that are suspended elsewhere is
  harmless and part of such runs.
- A resume request that is served between the moment a failing task gives the locks back and the moment
  it suspends itself clears its status and resumes nothing: the task is suspended afterwards with the
  status OK, and requests are accepted that nobody will run (a `taskResume` of a task that is not
  suspended is taken to do nothing).
- What does not depend on the locks holds in every run, such resumptions included: no deadlock, mutual
  exclusion of incompatible activities, waiting that is never circular, activity numbers that lead
  abort requests to the right activity, and the meaning of the error status.
- An activity is found by its number although the search does not skip free slots, which keep the
  numbers of finished activities or whatever the memory held: slots are first used in order.
- Mutual exclusion of activities is one-sided: an older activity that the newer request interrupts is
  over before the newer one starts; if the newer request does not interrupt the older one's, both may
  run, whether or not the older request interrupts the newer.
- The maximum period also restarts when the display of times is switched off, not only when START is
  dispatched.

## Model

Where the code is in a file kept in a Latin encoding (`canvas/server/cntrlTask.c`, `src/genom.c`,
`lib/printScanUtil.c`, `include/genom/modules.h`), the row cites lines that depend on it and names the
file and its lines in the third column.

| member | source | states |
|---|---|---|
| Theorems.LockDiscipline | canvas/server/execTask.c:260-265 | in every cleanly reachable state, for any number of execution tasks, the control task and users of genomTakeSDIs: the functional lock is held only by the holder of the control lock, one process at most is inside its section and it holds both, and whoever sleeps, is suspended or has stopped holds neither |
| Theorems.DisciplineExact | canvas/server/execTask.c:559-583 | in any run whatever, in all states the functional lock is held only together with the control lock and whoever is inside its section holds both, if and only if no step resumes the tasks (by request -88, by request -99, or because of SIGTERM) while an execution task is suspended through Suspend(TRUE) (the code is in canvas/server/cntrlTask.c, lines 845-851, 883-898 and 975-993) |
| Theorems.DisciplinedSoFar | canvas/server/execTask.c:559-583 | as long as a run has been so disciplined, all its steps have been such and the whole invariant holds |
| Invariance.RunExact | canvas/server/execTask.c:559-583 | likewise the whole invariant (locks, lives of activities, signals) holds throughout a run if and only if no step resumes the tasks while an execution task is suspended through Suspend(TRUE), for all three calls of taskResume (the code is in canvas/server/cntrlTask.c, lines 845-851, 883-898 and 975-993) |
| Invariance.UncleanBreaks | canvas/server/execTask.c:571-583 | resuming such a task breaks the invariant at once: it is back inside its section without the locks, and after a resume request the control task holds both; the end of the module, by request or by SIGTERM, does it with both locks free (the code is in canvas/server/cntrlTask.c, lines 845-851, 889-896 and 983-990) |
| Counterexamples.ResumeBreaksExclusion | canvas/server/execTask.c:287-291 | for every module with two periodic execution tasks a run in which the permanent codel of one fails, the tasks are resumed and the other one wakes up; both are then inside their sections |
| Safety.StoreKept | canvas/server/execTask.c:297-359 | every step of every run, that of a resumed stray task included, keeps the table well-formed |
| Safety.SafeKept | canvas/server/execTask.c:174-450 | every step of every process, resuming tasks inside their sections and the steps of these tasks included, keeps the table (well-formed, numbered, incompatible activities excluded, nobody waiting in vain), the recorded holder of each lock on its way to giving it, and the meaning of the error status |
| Safety.RunSafe | canvas/server/execTask.c:174-450 | this holds in every state of every run, of any length |
| Safety.SectionSafe | canvas/server/requestCntrl.c:60-65 | a whole section of the control task, with any list of execution, control and abort requests, the negative abort commands included, keeps the table so (the code is in canvas/server/cntrlTask.c, lines 155-186 and 827-957) |
| Safety.IterationSafe | canvas/server/execTask.c:297-359 | so does a whole iteration of an execution task, suspended or not |
| Safety.SteppedSafe | canvas/server/execTask.c:307-358 | and so does the dispatch of a single slot by a resumed task |
| Safety.TurnKeepsOwners | canvas/server/requestCntrl.c:54-65 | resuming tasks never takes a lock from the point of view of its holder, and leads astray only tasks suspended inside their sections (the code is in canvas/server/cntrlTask.c, lines 845-851, 883-898 and 975-993) |
| Safety.TakenWhenFree | lib/genomModulesLib.c:41-56 | in every run a lock goes to a process only when nobody holds it, and to one that was waiting for it, the functional lock after the control lock |
| Safety.SignalTaken | canvas/server/execTask.c:185-189 | in every run a pending signal is taken only by the process it is for, when it wakes up |
| Safety.EndSignals | canvas/server/execTask.c:233-258 | ending the module, by request or by SIGTERM, signals every aperiodic task (the code is in canvas/server/cntrlTask.c, lines 893-899 and 987-993) |
| Resumption.SuspendedPlace | canvas/server/execTask.c:287-381 | an iteration that suspends leaves its task before the scan, behind the first slot that suspended it, or before the end, as the first permanent codel, a slot or the second one was the reason; behind a slot the recorded count leaves exactly the task's remaining slots |
| Resumption.StrayMovesOn | canvas/server/execTask.c:297-359 | a resumed scan goes on with the next slot, dispatches it as an iteration would, and has again exactly the remaining slots left |
| Resumption.StrayDone | canvas/server/execTask.c:298-299 | when a resumed scan ends, no slot of the task is left behind |
| Theorems.NoDeadlock | lib/genomModulesLib.c:41-66 | in every reachable state: a process underway can move unless it waits for a lock that is taken; the holder of the functional lock can move, and so can that of the control lock while the functional one is free; so some process underway can move |
| Theorems.Proceeds | canvas/server/execTask.c:441-445 | whatever point a process underway has reached, one of its own steps is possible, a task resumed inside its section included, unless it waits for a lock that is taken |
| Theorems.IterationPossible | canvas/server/execTask.c:297-359 | an iteration of an execution task never gets stuck on the contents of the table: the generated tables are always indexed within bounds |
| Theorems.IncompatibleExclude | canvas/server/requestExec.c:145-153 | in every reachable state: once an activity has been told to start, every older live activity that its request interrupts is a zombie |
| Counterexamples.OneSided | canvas/server/requestExec.c:145-153 | and only those: from every cleanly reachable state of a module at rest (no activity live, no task in error, no init request still to be served, control task asleep, locks free), for every pair of requests of which the newer does not interrupt the older (whether or not the older interrupts the newer), a run leads to a started newer and a started older activity of them, neither a zombie |
| Theorems.MutuallyIncompatible | canvas/server/requestExec.c:145-153 | in every reachable state: of two started activities whose requests interrupt each other, one is a zombie |
| Theorems.WaitingMakesSense | canvas/server/requestExec.c:145-153 | in every reachable state: while an activity waits, some activity that has been told to start is live and not a zombie: waiting is never circular (the code is in canvas/server/cntrlTask.c, lines 289-330) |
| Theorems.EndOfChain | canvas/server/requestExec.c:149-153 | in every such table, following the recorded lists from a waiting activity ends at a started one that is not a zombie; activity numbers grow along the way (the code is in canvas/server/cntrlTask.c, lines 302-316) |
| Theorems.AbortReaches | canvas/server/requestExec.c:150 | in every reachable state an abort request with an activity number aborts slot i if and only if slot i holds the live activity of that number, whatever the memory held at first and whatever numbers finished activities left (the code is in canvas/server/cntrlTask.c, lines 930-950) |
| TableInvariants.AllocationNumbers | canvas/server/requestExec.c:63-64 | as long as some slot has never been used the next activity gets the first such slot, so that used slots keep pairwise different numbers and no unused slot is live (the code is in canvas/server/cntrlTask.c, lines 531-577) |
| TableInvariants.EventNumbers | canvas/server/requestExec.c:41-154 | serving any request keeps the numbers so (the code is in canvas/server/cntrlTask.c, lines 519-577 and 827-957) |
| Theorems.EveryLife | canvas/server/execTask.c:307-358 | in every cleanly reachable state, each activity's codel calls form a word of START* EXEC* END* INTER* FAIL?, at most five of them plus one per "stay" or SLEEP, and a live activity whose last answer was forbidden belongs to an execution task suspended inside its section |
| Theorems.LifeEnds | canvas/server/execTask.c:736-758 | in every cleanly reachable state: once a live activity with at most n "stay" or SLEEP answers has been dispatched n + 5 times by an execution task that is not suspended inside its section, its last answer was ETHER or ZOMBIE |
| ActivityLife.ContinuesLife | canvas/server/execTask.c:307-358 | if a resumed task dispatches a forbidden answer, the word survives if and only if the answer does not go back in the order START, EXEC, END, INTER, FAIL and the last call was not FAIL |
| Theorems.ErrorMeansTrouble | canvas/server/execTask.c:559-566 | in every reachable state: until the module is ended, only a task that is suspended or about to be has the status ERROR |
| Safety.TroubleSetsError | canvas/server/execTask.c:559-583 | in every run, whatever step brings an execution task into trouble gives it the status ERROR and signals the control task |
| Safety.ErrorStays | canvas/server/execTask.c:564-565 | and only a turn that serves a resume request takes the status back (the code is in canvas/server/cntrlTask.c, lines 845-851) |
| Counterexamples.ResumeComesTooEarly | canvas/server/execTask.c:571-583 | for every module with a periodic execution task a run in which a resume request is served after a failing task has set its status and given the locks, but before it suspends itself: it ends up suspended inside its section, and no task has the status ERROR |
| Theorems.NoLostWakeup | canvas/server/execTask.c:425-439 | in every cleanly reachable state, a sleeping aperiodic execution task with an event to dispatch has a pending signal, and so has the sleeping control task when there is an event to acknowledge |
| Theorems.SleeperWakes | canvas/server/execTask.c:173-189 | and a sleeping process that has been signalled, or whose timer fires, can wake up |
| Invariance.InvKept | canvas/server/execTask.c:174-450 | every step of every process, other than resuming a task inside its section, keeps what every step keeps, and besides the locks' discipline, the life of each activity and the pending signals |
| Invariance.InitialInv | canvas/server/requestExec.c:63-64 | the invariant holds when the table is empty and everybody sleeps (the code is in canvas/server/cntrlTask.c, lines 413-422) |
| Invariance.RunInv | canvas/server/execTask.c:174-450 | the invariant holds in every state of every run, of any length, in which no task is resumed inside its section |
| Invariance.MoveKeepsLocks | canvas/server/execTask.c:559-583 | each lock is held by exactly the process whose position says so, through takes, gives and both kinds of suspension |
| Invariance.TurnKeepsLocks | canvas/server/requestCntrl.c:54-65 | so it is through a turn of the control task, resuming tasks suspended outside their sections and ending the module, by request or by SIGTERM, included (the code is in canvas/server/cntrlTask.c, lines 827-993) |
| Invariance.SectionKeeps | canvas/server/requestCntrl.c:60-65 | a whole section of the control task, with any list of requests, keeps every activity's calls a history in step with its slot and every aperiodic task with an event signalled, and leaves no event unacknowledged (the code is in canvas/server/cntrlTask.c, lines 155-186 and 827-957) |
| Invariance.EndKeeps | canvas/server/requestCntrl.c:60-65 | ending the module by request keeps lives and signals as well (the code is in canvas/server/cntrlTask.c, lines 873-923) |
| Invariance.SignalEndKeeps | canvas/server/execTask.c:233-258 | and so does ending it by SIGTERM, with the events of activities left unacknowledged (the code is in canvas/server/cntrlTask.c, lines 165-167 and 975-993) |
| Invariance.IterationLives | canvas/server/execTask.c:297-359 | a whole iteration of an execution task extends the histories of its activities by legal calls, but for the slot that suspends it |
| Machine.GeneratedCovers | canvas/server/execTask.c:617-618 | tables generated for a module can be indexed by the request number of every slot of the execution task |
| Invariance.MoveProceeds | canvas/server/execTask.c:173-265 | lock operations, waking, stopping and suspending only advance a process and take a signal only from a process that sets out |
| ExecTask.Scan | canvas/server/execTask.c:297-359 | the early-exit loop, for any recorded count: it has stepped exactly the owned slots below where it stopped, counted them, noted whether some codel made a transition and whether START or anything but EXEC was dispatched, signalled itself iff aperiodic and some codel asked to go on, and stopped at the first suspending slot |
| ExecTask.Visit | canvas/server/execTask.c:300-359 | one turn of the loop changes slot i only, as the reference step says, and only if the execution task owns it |
| ExecTask.Handle | canvas/server/execTask.c:307-358 | one owned slot: wake-up of a sleeper, dispatch, transition check, signals; an unknown event or a forbidden transition suspends |
| ScanMeaning.DispatchMeans | canvas/server/execTask.c:307-358 | one owned slot, told by its status and event alone: exactly if the event is START, EXEC, END, FAIL or INTER, or the activity is asleep without event, one call is made, for the event or for EXEC; status, event and history change accordingly and nothing else does; it suspends iff the event does not exist or the answer is out of order; what it signals |
| ScanMeaning.AnswerMeans | canvas/server/execTask.c:629-708 | the answer of a call through generated tables is that of the codel the request declares for the state, asked for this slot, or the default event if it declares none or belongs to another task |
| ScanMeaning.IterationRuns | canvas/server/execTask.c:297-359 | in an iteration an activity is dispatched, once, iff the first permanent codel worked, its slot is the task's, something is due (sleepers included) and no earlier slot has suspended the task; every other slot is left alone |
| ScanMeaning.IterationSuspends | canvas/server/execTask.c:287-381 | an iteration suspends its task iff a permanent codel fails or a slot holds an unknown event or gets an answer out of order; exactly then the task gets the status ERROR |
| ScanMeaning.IterationSignalled | canvas/server/execTask.c:425-439 | exactly who is signalled by an iteration, suspended or not, told by the answers of the codels, the report and the wake-up flags |
| ActivityLife.PermittedIsLegal | canvas/server/execTask.c:736-763 | the transition table permits exactly this: going on or staying in the order START, EXEC, END, INTER, FAIL, except into INTER and out of FAIL; SLEEP from START and EXEC; ETHER from all but FAIL; ZOMBIE from all |
| ExecTask.EarlyExitIsFullMap | canvas/server/execTask.c:297-363 | for any recorded count the visited slots number min(count, owned); with count = owned the early exit changes nothing: the scan is the full map over the table, with the same signals |
| ExecTask.ScanRecorded | canvas/server/execTask.c:298-359 | with the recorded counter the scan is the full map up to and including the first suspending slot |
| ExecTask.CompleteEnd | canvas/server/execTask.c:297-363 | an unsuspended scan has done to the table what the full map does |
| ExecTask.NoCodelsEnds | canvas/server/execTask.c:631-665 | an activity of a request without codels goes through START, EXEC and END to ETHER in three iterations and never suspends its execution task |
| ExecTask.EndsUnattended | canvas/server/execTask.c:679-697 | without a declared codel an interrupted activity is over after one iteration and a failed one is a zombie after one |
| ExecTask.Iterate | canvas/server/execTask.c:232-439 | a section as a whole: permanent codels, scan, report change, control-task signal, wake-up flags; the new table, the new set of pending signals and the error status are given exactly, and no flag stays raised unless the execution task is suspended |
| ExecTask.WakeOthers | canvas/server/execTask.c:433-439 | every raised wake-up flag gives its execution task a signal and is cleared |
| ExecTask.MergedRaises | canvas/server/execTask.c:433-439 | the flags codels raise are added to those raised before |
| ControlTask.RefusedWhileFailed | canvas/server/requestCntrl.c:54-58 | what a suspension means to clients: while some execution task has the status ERROR, serving any list of execution and control requests other than the init request changes nothing at all (the code is in canvas/server/cntrlTask.c, lines 584-632) |
| ControlTask.FailedAfter | canvas/server/execTask.c:564-565 | no request clears the error status but the one to resume the tasks (the code is in canvas/server/cntrlTask.c, lines 845-851) |
| ExecTask.AnyMeansExists | canvas/server/execTask.c:346-348 | the accumulated wake-up requests mean: some dispatched slot made a transition, some asked to go on |
| ExecTask.AnyDispatchMeansExists | canvas/server/execTask.c:326-332 | the accumulated flags of the time statistics mean: some slot dispatched START, some dispatched anything but EXEC |
| ActivityLife.HistoryIsLifeWord | canvas/server/execTask.c:736-763 | any history of calls that respects the transition table, with arbitrary codel answers, is a word of START* EXEC* END* INTER* FAIL? |
| ActivityLife.StepUp | canvas/server/execTask.c:736-758 | one permitted answer never leads back, never follows FAIL, and leads strictly on unless it is "stay" or SLEEP |
| ActivityLife.CallsBounded | canvas/server/execTask.c:736-758 | the number of calls is at most five plus the number of "stay" or SLEEP answers (the lexicographic measure summed up) |
| ActivityLife.EndsWithinBudget | canvas/server/execTask.c:736-758 | with at most n such answers the activity has reached ETHER or ZOMBIE by its call n + 5 |
| CodelTables.EmitTable | src/execTaskGen.c:298-311 | entry k of an emitted table is request k's codel for the state iff the execution task owns the request, and a closing NULL follows |
| CodelTables.GenTables | src/execTaskGen.c:295-383 | all five tables of an execution task |
| CodelTables.DispatchMeansDeclaration | canvas/server/execTask.c:595-717 | dispatching through generated tables calls a codel exactly when the execution task owns the request and the request declares it for the state; otherwise the answer is a default event, always a permitted one |
| Compatibility.ResolvedMeansInterrupting | src/cntrlTaskGen.c:253-257 | the resolved interrupt list of a request stands for exactly the requests its description names (first of each name), all of them for ALL and for an init request (the code is in src/genom.c, lines 1223-1266) |
| Compatibility.InterruptingNames | src/cntrlTaskGen.c:253-257 | ALL and the init request interrupt every request, NONE interrupts none, and a list of names interrupts exactly the requests of these names that are the first of their name (the code is in src/genom.c, lines 1223-1266) |
| Compatibility.FirstNamed | src/cntrlTaskGen.c:253-257 | a name is resolved to the first request of that name, or to none (the code is in src/genom.c, lines 1189-1200) |
| Compatibility.CompatVector | src/cntrlTaskGen.c:245-264 | the vector has one entry per request, zero exactly for the listed ones |
| Compatibility.GenCompatibility | src/cntrlTaskGen.c:245-274 | from the description to the vector: entry k is zero iff the request interrupts request k; the reentrant flag says that it does not interrupt itself |
| ControlTask.AbortIncompatible | canvas/server/requestExec.c:145-153 | the in-place interruption loop: every live incompatible slot other than the new one is aborted, once, every other slot is left alone, the recorded list is the reference list, the signals are the reference signals |
| ControlTask.RecordedIs | canvas/server/requestExec.c:149-153 | the recorded list is strictly increasing and holds exactly the incompatible slots whose end is not immediate |
| ControlTask.InterruptionMeansDescription | canvas/server/requestExec.c:145-153 | with a generated vector, the slots aborted are exactly the other live ones whose request the accepted request interrupts, and the slots recorded are exactly those of them that do not end at once |
| ControlTask.RecordedBound | canvas/server/requestExec.c:151-152 | the recorded list never has more than MAX_ACTIVITIES - 1 entries (the code is in include/genom/modules.h, lines 112-113) |
| ControlTask.InterruptedOk | canvas/server/requestExec.c:145-153 | the interruption loop leaves a well-formed table |
| ControlTask.ExecutionRequest | canvas/server/requestExec.c:41-154 | the handler as a whole: refusal, allocation, a failing control codel that frees the slot again, interruption; the new state is given exactly |
| ControlMeaning.ExecutionRequestMeans | canvas/server/requestExec.c:41-90 | a request is admitted iff it is the init request or accepted with no task in error, there is no zombie and a slot is free; it then takes the next free slot going round the table and the next number, and gives the slot back if its control codel fails; otherwise nothing changes (the code is in canvas/server/cntrlTask.c, lines 519-577 and 584-632) |
| ControlMeaning.AdmissionMeans | canvas/server/requestExec.c:63-153 | slot by slot: the admitted activity waits without having called a codel, its list holds exactly the other activities its request interrupts that do not end at once, exactly those it interrupts are aborted, and every other slot is left alone |
| ControlMeaning.AdmissionSignals | canvas/server/requestExec.c:145-153 | exactly the aperiodic tasks of activities that are asked for their interruption are signalled (the code is in canvas/server/cntrlTask.c, lines 478-507) |
| ControlTask.ControlRequest | canvas/server/requestCntrl.c:43-65 | a control request is refused while a task is in error, and otherwise aborts exactly the live activities its vector marks |
| ControlMeaning.ControlRequestMeans | canvas/server/requestCntrl.c:54-65 | slot by slot: an accepted control request aborts a slot iff it is live and the request interrupts its request; while a task is in error nothing at all changes |
| ControlMeaning.ControlRequestSignals | canvas/server/requestCntrl.c:63-65 | exactly the aperiodic tasks of activities that are asked for their interruption are signalled (the code is in canvas/server/cntrlTask.c, lines 478-507) |
| ControlTask.AbortActivity | canvas/server/requestExec.c:150 | the answer and the new slot for every status and event; counters and signals included (the code is in canvas/server/cntrlTask.c, lines 457-510) |
| ControlMeaning.AbortMeans | canvas/server/requestExec.c:150 | aborting frees a live activity iff it has not been dispatched, is a zombie or has just answered ETHER; any other one stays as it is but for its event, which becomes INTER unless it is FAIL (the code is in canvas/server/cntrlTask.c, lines 457-510) |
| ControlTask.AbortRequest | canvas/server/requestExec.c:150 | the abort request: by activity number, or a command to resume the tasks or to end the module, granted iff no activity is live; unknown, finished and other numbers change nothing (the code is in canvas/server/cntrlTask.c, lines 827-957) |
| ControlMeaning.AbortRequestMeans | canvas/server/requestExec.c:150 | slot by slot: an abort request aborts exactly the live activity with its number; -88 clears the error states and no other number does (the code is in canvas/server/cntrlTask.c, lines 842-953) |
| ControlMeaning.AbortRequestSignals | canvas/server/requestExec.c:150 | exactly the aperiodic task of an activity that is asked for its interruption is signalled (the code is in canvas/server/cntrlTask.c, lines 478-507 and 939-953) |
| ControlMeaning.EndMeans | canvas/server/execTask.c:233-258 | the request that ends the module is the one with number -99 that is served when every slot is free (the code is in canvas/server/cntrlTask.c, lines 873-923) |
| ControlTask.AbortFinds | canvas/server/requestExec.c:150 | a live activity is found by its number if and only if no earlier slot keeps that number (the code is in canvas/server/cntrlTask.c, lines 939-950) |
| ControlTask.FreeActivity | canvas/server/requestExec.c:86 | the slot is freed and every counter stays the true count (the code is in canvas/server/cntrlTask.c, lines 639-653) |
| ControlTask.AllocActivity | canvas/server/requestExec.c:63-64 | refused while there is a zombie or no free slot; otherwise the first free slot after the last one gets the next number, nothing else changes, the counters stay true (the code is in canvas/server/cntrlTask.c, lines 519-577) |
| ControlTask.FreeSlotComplete | canvas/server/requestExec.c:63-64 | the circular search finds a slot whenever one is free (the code is in canvas/server/cntrlTask.c, lines 531-548) |
| ControlTask.IntEvnExec | canvas/server/execTask.c:318-323 | every finished, failed or sleeping activity is acknowledged, all other slots untouched (the code is in canvas/server/cntrlTask.c, lines 202-245) |
| ControlMeaning.AcknowledgeMeans | canvas/server/execTask.c:318-323 | acknowledging frees a slot iff its activity answered ETHER, makes it a zombie iff it answered ZOMBIE, puts it to sleep iff it answered SLEEP; exactly these events are consumed, and the activity is otherwise the same (the code is in canvas/server/cntrlTask.c, lines 202-245) |
| ControlTask.SpawnActivities | canvas/server/requestExec.c:149-153 | every waiting activity loses exactly the entries that are over and starts iff none is left; aperiodic execution tasks are signalled for the started ones (the code is in canvas/server/cntrlTask.c, lines 289-330) |
| ControlMeaning.SpawnMeans | canvas/server/requestExec.c:149-153 | a waiting activity is started iff everyone on its list is ETHER or ZOMBIE; one that goes on waiting keeps exactly the others on its list; nothing else changes (the code is in canvas/server/cntrlTask.c, lines 289-330) |
| ControlMeaning.SpawnSignalsMean | canvas/server/requestExec.c:149-153 | exactly the aperiodic tasks of started activities are signalled (the code is in canvas/server/cntrlTask.c, lines 318-321) |
| ControlTask.Compact | canvas/server/requestExec.c:149-153 | the in-place compaction keeps exactly the entries that are not over, in order (the code is in canvas/server/cntrlTask.c, lines 306-313) |
| ControlTask.StillThereIs | canvas/server/requestExec.c:149-153 | an entry stays iff its activity is neither ETHER nor ZOMBIE (the code is in canvas/server/cntrlTask.c, lines 306-313) |
| ControlTask.ControlSection | canvas/server/execTask.c:318-323 | a whole turn of the control task equals acknowledging, serving, signalling and spawning on the abstract table; if a request ends the module, acknowledging and serving the requests before it; after SIGTERM, nothing but raising every flag and signalling the aperiodic tasks (the code is in canvas/server/cntrlTask.c, lines 155-186, 873-923 and 975-993) |
| ControlMeaning.ServedInOrder | canvas/server/requestCntrl.c:60-65 | the requests of a turn are served in their order (the code is in canvas/server/cntrlTask.c, lines 254-265) |
| ControlMeaning.TurnSignals | canvas/server/execTask.c:425-439 | a turn that serves any request signals every aperiodic task, and no turn takes a signal away (the code is in canvas/server/cntrlTask.c, lines 275-278) |
| ControlTask.StopTasks | canvas/server/execTask.c:433-439 | at the end of the module every wake-up flag is raised and exactly the aperiodic tasks are signalled (the code is in canvas/server/cntrlTask.c, lines 885-899 and 979-993) |
| ControlBase.Sdi.constructor | canvas/server/execTask.c:298-300 | an empty table with true counters (the code is in canvas/server/cntrlTask.c, lines 413-438) |
| Activities.CountMonotonic | canvas/server/execTask.c:298-302 | two counts agree iff no slot in between belongs to the population (the code is in canvas/server/cntrlTask.c, lines 651-652) |
| Activities.CountUpdate | canvas/server/execTask.c:361-363 | what writing one slot does to every counter (the code is in canvas/server/cntrlTask.c, lines 572-573) |
| TableInvariants.ExecutionKeeps | canvas/server/requestExec.c:41-154 | admitting a request keeps activity numbers unique and increasing, and every activity that must wait for an older incompatible one has it in its list |
| TableInvariants.AdmissionKeeps | canvas/server/requestExec.c:63-153 | the same for an accepted request |
| TableInvariants.BenignKeeps | canvas/server/execTask.c:297-359 | changes that never start, admit or renumber an activity keep mutual exclusion |
| TableInvariants.SpawnKeeps | canvas/server/requestExec.c:145-153 | spawning starts an activity only when nothing it must wait for is left (the code is in canvas/server/cntrlTask.c, lines 289-330) |
| TableInvariants.EventLives | canvas/server/requestExec.c:145-153 | serving a request leaves every activity's history consistent with its slot (the code is in canvas/server/cntrlTask.c, lines 254-279) |
| TableInvariants.ScanLives | canvas/server/execTask.c:297-359 | a scan extends histories by permitted calls, except for the slot that suspends the execution task |
| Wakeups.IterationAlerts | canvas/server/execTask.c:430-439 | after an iteration every event some aperiodic execution task has to dispatch has raised its signal, or that task is excused because it is suspended |
| Wakeups.IterationAlertsControl | canvas/server/execTask.c:424-431 | after an iteration the control task has been signalled if there is anything for it to acknowledge |
| Wakeups.IterationSignals | canvas/server/execTask.c:346-348 | after an unsuspended iteration the control task has been signalled iff a dispatched activity returned an event different from its state or the task report changed, an aperiodic execution task has signalled itself iff an activity it dispatched returned something other than SLEEP, and otherwise exactly the tasks with a raised wake-up flag have been signalled |
| Wakeups.EventAlerts | canvas/server/requestExec.c:145-153 | aborting and admitting signal every aperiodic execution task that gets something to do (the code is in canvas/server/cntrlTask.c, lines 457-510) |
| Wakeups.SpawnAlerts | canvas/server/requestExec.c:149-153 | so does spawning (the code is in canvas/server/cntrlTask.c, lines 318-321) |
| Timing.Udiff | canvas/server/execTask.c:789-810 | for all integer fields, normalised or not, in either order: floor of the difference of total nanoseconds by 1000 |
| Timing.LossOverRun | canvas/server/execTask.c:198-212 | over every run of a periodic execution task, of any length, the sum of the measured periods, times 1000, falls short of the true nanoseconds from the first begin to the last by between 0 and 999 for each period measured |
| Timing.MaximumIs | canvas/server/execTask.c:205-211 | over every sequence of iterations, periodic or not, the maximum period is the highest one measured since the last iteration that dispatched START, or since the display of times was switched off, whichever is later |
| Timing.MeanIs | canvas/server/execTask.c:395-412 | over every sequence of iterations, nbIter - 1 is the number of those that ended, dispatched nothing but EXEC and did not exceed the maximum before them, and the mean is the truncated mean of exactly their durations |
| Timing.ClockKeepsTime | canvas/server/execTask.c:196-212 | what the chronometer's fields hold after any sequence of iterations: the begin of the last one and its period |
| Timing.PeriodicRound | canvas/server/execTask.c:198-212 | one iteration of a periodic task: the whole microseconds since the previous begin against the maximum, and when that restarts |
| Timing.AperiodicRound | canvas/server/execTask.c:389-401 | one iteration of an aperiodic task: its own duration in place of the period |
| TimedTask.TimedIteration | canvas/server/execTask.c:192-412 | an iteration with its statistics, in place: the table is as after the iteration, and the history of the statistics grows by one round whose begin, end and flags are those of this iteration and of what its scan dispatched |
| TimedTask.TallyMeans | canvas/server/execTask.c:326-332 | the flags that restart the maximum and exclude the iteration say exactly that a visited slot of the execution task dispatched START, or anything but EXEC |
| Timing.CountedStep | canvas/server/execTask.c:397-412 | an iteration is folded into the mean exactly if it counts, and leaves nbIter and the mean alone otherwise |
| Timing.MaximumStep | canvas/server/execTask.c:326-331 | one more iteration keeps the maximum the highest period that is not forgotten |
| Timing.MeanStep | canvas/server/execTask.c:407-412 | the incremental mean m of k samples of sum S, of either sign, stays between the smallest and the largest and satisfies -k(k-1)/2 <= S - k*m <= k(k-1)/2, with 0 <= S - k*m if no sample is negative |
| Timing.DeficitStep | canvas/server/execTask.c:408-410 | truncation is off by at most k more with sample k + 1 |
| Timing.Between | canvas/server/execTask.c:408-410 | the new mean lies between the old one and the sample |
| Timing.Telescope | canvas/server/execTask.c:205-212 | the accumulated rounding loss grows by 0 to 999 nanoseconds per period |
| StartUp.OneByOne | canvas/server/moduleInit.c:204-227 | in every interleaving a task is spawned only after every earlier one has finished its init function successfully and released its semaphore |
| StartUp.AtReturn | canvas/server/moduleInit.c:238-270 | OK is returned only if every init function succeeded; on either return every semaphore created has been deleted exactly once |
| StartUp.GivesUpExactly | canvas/server/moduleInit.c:172-270 | in every run TaskInit goes to its clean-up, and returns ERROR, if and only if one of its calls has failed or a task was in error when its status was checked |
| StartUp.NotWithoutCause | canvas/server/moduleInit.c:172-270 | so if it does, an earlier call failed or an already spawned task was in error |
| StartUp.WellMeansOk | canvas/server/moduleInit.c:246 | in a run in which every call works, every init function succeeds and no task breaks, it returns nothing but OK |
| StartUp.NeverHangs | canvas/server/moduleInit.c:187-224 | until TaskInit returns it can act, or the task it waits for is still initializing |
| StartUp.InvKept | canvas/server/moduleInit.c:172-270 | every action of TaskInit, succeeding or failing, and of every task keeps the handshake's invariant |
| StartUp.RunInv | canvas/server/moduleInit.c:172-270 | the invariant holds in every state of every run |
| Flattening.Generator.FlatDcl | src/initGen.c:210-270 | the prefix-mutating recursion emits exactly what the reference list of leaves emits, in declaration order, fails iff some leaf has no conversion, and returns with the prefix as it found it (a structure flattened under the empty prefix leaves its own name) |
| AccessPaths.EveryScalarFilled | src/initGen.c:239-417 | every scalar of a declaration, told by its member numbers and its indexes within the dimensions (a string's last one excepted), gets one statement: number n + 1 where n scalars come before it, row by row and member by member; it stores into the C expression of the scalar, is converted as its leaf declares, and the lists show the last part of the expression |
| AccessPaths.OnlyScalarsFilled | src/initGen.c:239-417 | and every statement is that of such a scalar |
| AccessPaths.FailsExactly | src/initGen.c:327-398 | the walk fails iff the declaration has a leaf that is no string and whose type cannot be converted |
| Flattening.Generator.FlatElement | src/initGen.c:244-263 | index and dot go onto the prefix and come off again; the members of that element are emitted |
| Flattening.Generator.FlatMembers | src/initGen.c:256-259 | the members in order, each under the same prefix |
| Flattening.Generator.AddParamToStrings | src/initGen.c:277-417 | one statement, variable and list item per element of a leaf, a separator before the leaf unless it is the first and between its elements |
| Flattening.CutBack | src/initGen.c:265-267 | cutting after the last dot gives back the prefix before the name, since names hold no dot |
| Flattening.EmitAppend | src/initGen.c:239-263 | emitting two lists of leaves one after the other is emitting their concatenation |
| FlatProperties.FlatteningPromises | src/initGen.c:210-417 | a fresh walk gives one fill statement per access path, in declaration order, all paths different, variables 1..N without gaps, and N list items with N - 1 separators |
| FlatProperties.DeclDistinct | src/initGen.c:236-259 | all access paths below a declaration are different and continue the prefix with its name |
| FlatProperties.OutputNumbered | src/initGen.c:287-412 | numbering without gaps and alternation of items and separators hold after every leaf |
| Declarations.IndexesInjective | src/initGen.c:245-249 | different elements of an array have different index texts (the code is in lib/printScanUtil.c, lines 116-133) |
| Declarations.VectorPosition | src/initGen.c:245-249 | the indexes of element elt are below their dimensions and their row-major position is elt (the code is in lib/printScanUtil.c, lines 116-133) |
| Declarations.PositionVector | src/initGen.c:245-249 | conversely, all indexes below their dimensions are those of the element at their position (the code is in lib/printScanUtil.c, lines 116-133) |
| Declarations.RenderSpells | src/initGen.c:245-249 | the text is, for each index, its decimal digits without leading zeros in brackets (the code is in lib/printScanUtil.c, lines 121-131) |
| Declarations.IndexesNoDot | src/initGen.c:245-254 | an index text holds no dot, begins with a bracket, and is empty without dimensions (the code is in lib/printScanUtil.c, lines 116-133) |
| Declarations.CountElements | src/initGen.c:240-241 | the loop computes the product of the dimensions |
| Declarations.ProductAppend | src/initGen.c:240-241 | the number of elements of an array is that of its outer dimensions times that of its inner ones |
| Declarations.DecimalInjective | src/initGen.c:246-248 | decimal texts determine the number (the code is in lib/printScanUtil.c, lines 128-131) |
| Declarations.DecimalMeans | src/initGen.c:246-248 | a decimal text has the value of its number and no leading zero (the code is in lib/printScanUtil.c, lines 128-131) |
| OpParams.OpGenerator.BreakUp | src/openprsOpGen.c:261-321 | the text added is exactly one group per visit, holding the parameters of a leaf or the groups of the members of each element, one level deeper; the level counter is restored; the text is balanced, indented by its depth, with one pair of parentheses per visited declaration; the variable counter advances by the number of scalars, numbered without gaps |
| OpParams.OpGenerator.AddOpParams | src/openprsOpGen.c:328-365 | one numbered parameter per element of a leaf |
| OpParams.SameVariables | src/initGen.c:239-263 | flattening and operator parameters give a declaration the same number of variables |
| OpParams.GenerateBoth | src/openprsOpGen.c:261-365 | the two generators side by side: a flattening that succeeds keeps all its promises, and both have numbered one variable per scalar |
| OpParams.Appends | src/openprsOpGen.c:261-321 | nesting depth, number of pairs and numbering of a concatenation |
| Environment.Environ.FindEnv | compat/setenv.c:41-64 | found iff the map that the array stands for binds the name; the entry is the first match and gives the bound value |
| Environment.Environ.SetEnv | compat/setenv.c:73-117 | with rewrite, or for a new name, the array afterwards means the old map with the name bound to the value, only the first entry of that name having changed or one having been appended; without rewrite an existing binding is untouched |
| Environment.Environ.Rebind | compat/setenv.c:86-90 | in place when the old value is at least as long (the memory keeps its size), in fresh memory otherwise; every other entry as before |
| Environment.Environ.AddSlot | compat/setenv.c:91-106 | a new slot at the end of a new array, the old entries unchanged |
| Environment.Environ.UnsetEnv | compat/setenv.c:123-133 | terminates, leaves exactly the entries of other names in their order, even with duplicates, and removes exactly that name from the map |
| Environment.Environ.ShiftDown | compat/setenv.c:130-132 | the in-place shift deletes one slot, null pointer included |
| Environment.Compare | compat/setenv.c:55-60 | the comparison loop succeeds iff the entry is the name followed by '=' |
| Environment.TrimmedMeans | compat/setenv.c:80-81 | one leading '=' of a value is dropped, and nothing else |
| Environment.FirstMatch | compat/setenv.c:54-62 | the first matching entry gives the value in the map |
| Environment.ReplaceMeaning | compat/setenv.c:107-115 | replacing the first match updates the map at that name only, whatever duplicates follow |
| Environment.AppendMeaning | compat/setenv.c:103-115 | appending for an unbound name updates the map at that name only |
| Environment.WithoutMeaning | compat/setenv.c:129-132 | dropping every entry of a name removes exactly that name |
| Reports.Collect | src/errorGen.c:174-205 | both lists are free of duplicates; a report is on the control list iff no execution task has it and the first request that reports it is a control request, otherwise on the execution list |
| Reports.SidesPartition | src/errorGen.c:174-205 | the two sides are disjoint and together cover exactly the declared reports |
| Reports.IdMember | src/errorGen.c:49-57 | membership |
| Reports.ErrorGen | src/errorGen.c:151-262 | every declared report gets one number of 1..N, control reports first, in the header, the enumeration and the table alike |
| Reports.CodesDistinct | src/errorGen.c:207-262 | the codes of a module are pairwise distinct iff the number of reports stays below the first standard number (58369), in particular for fewer than 0x8000 |
| Reports.CodeTells | src/errorGen.c:207-262 | a code divided by 65536 is the module and its remainder the position of the report, counted from 1; for standard errors the remainder is 0x8000, 100 in the upper byte, and the position of the error |
| Reports.CodesOfModules | src/parser.y:378-386 | with accepted module numbers and fewer than 0x8000 reports no two modules share a code and no code is 0 |
| Reports.RowsMean | canvas/server/tclservClient/error.c:11-15 | through enumerators and macros each row of the compiled table has the code of its report, provided report names do not clash with standard ones |
| Reports.DecodeError | canvas/server/tclservClient/error.c:17-31 | the code of the first row with that message, or failure iff there is none |
| Reports.ErrorStr | canvas/server/tclservClient/error.c:33-48 | "OK" for 0, the message of the first row with that code, or the null pointer |
| Reports.RoundTrip | canvas/server/tclservClient/error.c:17-48 | on the generated table a string decodes to a code iff the message of the code is that string, and iff the pair is a row |
| Reports.ReportText | canvas/server/tclservClient/error.c:17-48 | the code of report i of module m, 65536 * m + i + 1, has the text S_, module, _, report, and this text decodes to it |
| Reports.StandardText | canvas/server/tclservClient/error.c:17-48 | likewise for the standard errors |
| Reports.FirstMessageIs | canvas/server/tclservClient/error.c:40-47 | on any table the message of a code is that of its first row |
| ByteSwap.SwapArray | include/genom/printScan.h:59-65 | compiled for the byte order of its host, the swap mirrors exactly the product-of-dimensions elements in place; compiled for the other one it changes nothing |
| ByteSwap.SwapShortElt | lib/h2endian.c:109-123 | two bytes: the mirror, or nothing, and no other byte changes |
| ByteSwap.SwapIntElt | lib/h2endian.c:143-158 | the same for four bytes |
| ByteSwap.SwapLongLongElt | lib/h2endian.c:72-90 | the same for eight bytes |
| ByteSwap.SwapBuffer | lib/h2endian.c:193-208 | the two-pointer loop is the same mirror, for any size, 0 included |
| ByteSwap.SwapTwice | lib/h2endian.c:65-70 | swapping an array twice is the identity |
| ByteSwap.SwapsOrNot | lib/h2endian.c:65-70 | compiled for its host the swap of an array mirrors its elements, compiled for the other one it changes nothing |
| ByteSwap.CountMeans | include/genom/printScan.h:59-65 | with positive dimensions as many elements are swapped as their product says |
| ByteSwap.EachElement | lib/h2endian.c:136-141 | each element within the array is mirrored and nothing beyond the array is touched |
| ByteSwap.ElementPositions | include/genom/printScan.h:59-65 | the elements of the array are those at the multiples of their size below the product of the dimensions times that size |
| ByteSwap.Laid | lib/h2endian.c:150-157 | an integer assembled from the bytes in the order the macro chooses goes back to memory mirrored if macro and host agree, and unchanged if not |
| ByteSwap.HostOrder | lib/h2endian.c:150-157 | a little-endian host keeps the lowest byte of an integer first, a big-endian one last |
| ByteSwap.WordBytes64 | lib/h2endian.c:78-89 | the bytes of the integer assembled by shifts and ors are the eight bytes, last one lowest |
| Tokens.Tokenizer.StrSep | compat/strsep.c:46-71 | returns the old position, which now points to the first piece; one delimiter is overwritten and the rest splits into the other pieces, or nothing is written and the string is used up; a null pointer stays one |
| Tokens.Tokenizer.AllTokens | compat/strsep.c:46-71 | calling until NULL terminates with the split of the string; every token pointer still points to its token at the end and only delimiters were overwritten |
| Tokens.Tokenizer.TokenEnd | compat/strsep.c:56-68 | the scan stops at the first delimiter or at the end |
| Tokens.SplitRebuilds | compat/strsep.c:36-44 | one token more than delimiters, no delimiter in a token, interleaving rebuilds the string |
| Tokens.OnlySplit | compat/strsep.c:36-44 | conversely, any such tokens and delimiters are the split of what they interleave to |
| Tokens.Hits | compat/strsep.c:58-68 | the inner loop succeeds iff the character is NUL or a delimiter |
| Enums.Parser.Enumeration | src/parser.y:1328-1369 | whatever value the global counter has been left with, the parsed list is the reverse of the source list and every member has the value C gives it |
| Enums.Parser.Further | src/parser.y:1340-1349 | head insertion; a member without a constant gets the counter |
| Enums.CValueCounts | src/parser.y:1328-1349 | the value of an enumerator is the last constant before it plus its distance to it, or its position if there is none |
| Enums.SameMeaning | src/typeGen.c:101-109 | an enumeration in the opposite order, with the same values, declares the same map from names to values |
| Enums.CPreserved | src/typeGen.c:101-109 | the emitted C enumeration declares what the source declares |
| Enums.TuplesMean | src/pythonInterfaceGen.c:140-153 | the paired tuples assign what an enumeration with these constants declares |
| Enums.Translate | src/pythonInterfaceGen.c:140-153 | parser and both generators together: the C and the Python output mean what the source means |

## Left out

- Theorems.NoDeadlock: lock operations succeed and the scheduler is left open; that a process able to move is eventually scheduled is not modelled.
- Theorems.EveryLife: bounds the calls of an activity by the number of "stay" and SLEEP answers; that a periodic timer keeps firing is not modelled.
- Timing.MeanIs: wrap-around of the unsigned fields is not modelled; the double in the mean is read as exact.
- TimedTask.TimedIteration: an iteration that a resumed task completes after its suspension is recorded as one without an end.
- Reports.RoundTrip: supposes report names that clash with no standard name and not with "OK", as the generated enumeration does not compile otherwise or defines a macro twice.
- StartUp.AtReturn: the data structures created and destroyed around the handshake are not modelled.
- Invariance.InvKept: an iteration, a turn of the control task and a use of the data are single steps, since both locks are held throughout; codels that give the locks back themselves are not modelled.
- Theorems.DisciplineExact: a stray task calls one codel per step, between sections of other processes and not within them; giving a lock that it does not hold may succeed or fail, as the semaphores of pocolibs are not part of this model.
- Machine.GeneratedCovers: requests are indexed by their position in the description, as the generator numbers them.
- ControlTask.ExecutionRequest: the copying of inputs and outputs, replies to the client, and the refusal of requests before the init request has been served (an arbitrary flag, so both cases are covered).
- ControlTask.AbortRequest: the display of times and the verbosity, which two of its commands switch, are not in the table; what the former does to the maximum period is in `Timing`.
- ControlTask.ControlSection: the control task's own Suspend(TRUE) in the middle of a section (`canvas/server/requestExec.c:78` and `118`, `canvas/server/cntrlTask.c:272-273` and `327`), for lost parameters or an undeliverable reply, gives both locks and leaves a half-served turn from which nothing resumes it; it is not modelled. After the end of the module the control task's waiting for the other tasks and its exit are not modelled.
- ExecTask.Iterate: messages to event listeners, posters, client replies, bilans other than "the task report changed", and the `codel_task_wait` variant of waiting.
- Invariance.InitialInv: the invariant is established for an empty table; creation of mailboxes and posters by the control task is not modelled.
- Flattening.Generator.FlatDcl: one token stands for the text added in step to the usage, parameter and name lists; dimensions below 1, size warnings, fixed buffer sizes and the wording of the emitted text are not modelled.
- OpParams.OpGenerator.BreakUp: the words inside the parentheses and the documentation of enumerations are not modelled.
- Environment.Environ.SetEnv: memory is always granted; a value that points into the environment itself, and two array cells that share one string, are not modelled.
- ByteSwap.SwapArray: 8-byte `long` (of which the source assembles only four bytes) is not modelled; signed shifts are taken as bit patterns.
- Reports.CodesDistinct: H2_ENCODE_ERR and H2_ENCODE_STD_ERR belong to pocolibs, which is not part of this model; their values are those the generator writes into its comments.
- Enums.Parser.Enumeration: machine overflow of enumerator values is not modelled.
- Activity histories (`calls`) and the rounds of the time statistics are ghosts of the model; incompatibility lists are sequences instead of fixed arrays.
- Tcl, OpenPRS and tclserv glue, XML posters, scanning and printing, the lexer and the precedence parser, autoconf and shell scripts: input and output plumbing.
- The alias-grouping loop of `src/typeGen.c`: nothing is claimed about how often a type name is printed.

# Verified model of the accumulator management firmware

A Dafny model of the three parts of the firmware whose correctness is least obvious, with proofs.

* **The tractive-system safety controller.** `StateController` is a ten-state supervisor,
  `ContactorController` an interlock that accepts or rejects contactor commands. The two call each
  other recursively, and three agents drive them: the state-machine thread, the CAN command thread
  and the one-shot precharge timer. `Supervisor.dfy` holds the data and the mutual recursion,
  `SupervisorRuns.dfy` the steps, the runs from power-on and the joint invariant,
  `StepOutcomes.dfy` what each step does in raw inputs and named states, `SafetyGuarantees.dfy` and
  `PrechargeTiming.dfy` what every run guarantees, `CoilCallbacks.dfy` when
  the coils' fire-once flags can be trusted, `Recovery.dfy` that no
  history leaves it stuck, `BootHazard.dfy` what can go wrong before the interlock is initialised, and `Controllers.dfy` the two controllers as
  objects updated in place, each method proved to compute the function the guarantees are about.
* **Fixed-point arithmetic and ring buffers of `arm_math.h`.** `Saturation.dfy`, `Clarke.dfy`,
  `Pid.dfy`, `Interpolation.dfy` and `Circular.dfy`.
* **Tables, registers and slots.** `PageTable.dfy` (ARMv7-A translation-table writers against the
  table walk of section B3.5 of ARM DDI 0406C), `Nvic.dfy` (priority encoding and packed priority
  words), `BitReverse.dfy` (software `__RBIT`) and `CanMailbox.dfy` (CAN receive path over a pool of
  32 slots). `Words.dfy` has the word arithmetic they share: wrap-around, and bitwise operators
  defined digit by digit.

`dafny verify dfyconfig.toml` checks the whole project.

## How the safety controller is modelled

A `Plant` is the shared state: supervisor state, contactor state, both coils, the enable bit, the
edge the CAN thread has stored but not yet reported, all timers as deadlines, the clock, both lock
depths, and a count of rejected requests. Every lock-held body is one step. Pin readings are arbitrary
booleans chosen at each process step. The CAN command is two steps (store the bit, then notify), so
anything may come between them. The timer of a coil expires in one step, which posts its callback, and
the callback runs in another, any time later: the supervisor's thread has realtime priority
(controller/StateController.cpp:10), the timer thread only high priority
(mbed-os/rtos/rtx/TARGET_CORTEX_M/RTX_Conf_CM.c:183), restarting a timer does not withdraw a posted
callback, and so a coil may be moved in between. The precharge timer's expiry and callback are one step
that may come any time after the deadline: outside `scsStartedPrecharge` the callback does nothing, and
a later `scsStartedPrecharge` cannot be reached before a late callback runs, because that takes a driver
command (`ReentryNeedsCommand`) and the CAN thread (net/CANTransceiver.cpp:9) runs below the timer
thread. Boot is part of every run: the two `initialise` calls are steps that may come in any order and at
any time.

The mutual recursion is written as the code has it, with a bound on how many `push_state` calls may be
nested. `TransitionFinishesIff` then says for which states some bound is large enough, and that beyond
two the bound does not matter; the recursion-free `Settled` is what the call computes.

## Where the code and its comments or intentions differ

* `PRECHARGE_MINIMUM_TIME_MILLISEC` is 5000, its comment says 3 seconds. The model has 5000.
* In `scsPrechargeMinimumTimeExceeded` the result of `process_activated_states` is ignored, so a step
  that samples a fault may still end in `scsTractiveSystemRaceReady`, with both contactors open
  (`RaceReadyWithOpenContactors`). Only the interlock keeps the coils off, and this is the only
  situation in which it ever rejects a request after boot (`RejectionIffLateFault`).
* `main` creates `StateController` before `ContactorController`. In between, a transition from above
  `scsWaitingForInternalSafety` recurses without end (`BootCanHang`; exactly when: `ProcessHangsIff`,
  `NotifyHangsIff`).
* `arm_linear_interp_q15` never takes its branch for negative indices: a negative position is read as
  one beyond entry 2047 (`Interp15Negative`), so the function is monotone over all positions only for
  the tables of `Monotone15Iff`. `arm_linear_interp_q7` does clamp to the first sample. Both weigh by
  2^20 - 1, so at a positive sample they return one less than the table, which costs the 8-bit routine
  its monotonicity at zero (`Monotone7Iff`).
* `arm_circularWrite_q15` keeps its offset in 16 bits: the next write continues the last one exactly
  if the offset fits (`WritesContinueIff`), and in any buffer of more than 65536 cells some block does
  go wrong (`LargeBufferLosesOffset`).
* The circular copies are commented to watch out for positive and negative increments, but an offset is
  never wrapped at zero, and only once at the length. `PositionsInBoundsIff` and `TargetsWithinIff` say
  for which starts, increments and counts the two sides stay in their buffers.
* `arm_pid_q31` is documented to saturate its output and to avoid overflow completely if the input is
  scaled down by two bits. The code wraps around, and an integral gain overflows the running sum for
  any scaling that still moves the output (`IntegralOverflows`), with the largest gain after five scaled samples
  (`ScaledInputOverflows`). `OutputIsPositional` says exactly when the output is right.
* A fire-once flag is meant to say that its coil has had its pull-in or pull-out time. If a callback is
  posted when the coil moves, it sets the flag too early, in the extreme on the tick of the move
  (`FlagCanBePremature`): the timer expires, the process step on the same tick opens the coil, and then
  the callback runs. `TrustworthyIff` says when a flag can be trusted.
* `__TTPage_64k` does not align the slot it starts at; with a base that is not in the first 4 KB of a
  64 KB page addresses are mapped elsewhere (`LargePageIdentityIff`).
* The indices of `NVIC_SetPriority` wrap for the handlers without a priority field
  (`NoPriorityField`).
* `arm_clarke_q31` documents that there is no risk of overflow. The conversion of its second product
  to 32 bits does overflow for large inputs (`OverflowChangesSign`), and the sum saturates for others
  (`SaturationLoses`). `WithinFourIff` and `TightBoundsIff` give the exact inputs for which the round
  trip is still close.

## Model

| member | source | states |
|---|---|---|
| Supervisor.TransitionState | controller/StateController.cpp:91-120 | With PushState and NotifyEvent, the recursion as the code has it; whenever it returns, the target state is reached, both lock depths are what they were, and the precharge timer is armed for exactly 5000 ms for StartedPrecharge and stopped for every state below it. |
| Supervisor.NotifyEvent | controller/StateController.cpp:53-88 | Whenever a notification returns, at any nesting, both lock depths are restored, and for each event and state it has either changed nothing or gone to WaitingForInternalSafety with the timer stopped. |
| Supervisor.PushState | controller/ContactorController.cpp:82-154 | Whenever a request returns, through the re-entrant error path or not, both lock depths are restored. |
| Supervisor.AcceptedPairs | controller/ContactorController.cpp:87-121 | The five pairs of an operational contactor state and a request that the interlock accepts, besides LatchingMechanicalError; it rejects all others, Precharge from HighCurrentRun among them. |
| Supervisor.PushSettles | controller/ContactorController.cpp:82-154 | From an operational interlock, or with nothing to abandon, a request computes the recursion-free Pushed; one level is enough exactly when it is accepted or the supervisor is at or below WaitingForInternalSafety. |
| Supervisor.PushRejectedHigh | controller/ContactorController.cpp:123-131 | The re-entrant error path: a rejected request makes the nested transition open the contactors, and that transition is itself accepted. |
| Supervisor.RecursionSettles | controller/StateController.cpp:91-120 | Under CanTransition push_state nests at most two deep and the transition computes Settled, for every larger bound the same; it nests twice exactly when the request is rejected from above WaitingForInternalSafety. |
| Supervisor.RecursionDiverges | controller/StateController.cpp:53-120 | Without CanTransition no bound on the nesting is large enough. |
| Supervisor.TransitionFinishesIff | controller/StateController.cpp:91-120 | The recursion ends if and only if the contactor state is at least AllOpen, or the supervisor state at most WaitingForInternalSafety, or the target is PrechargeMinimumTimeExceeded. |
| SupervisorRuns.ProcessMeetsTable | controller/StateController.cpp:175-231 | A process step is a table of next supervisor state, next contactor state, timer and rejected requests over the state before it, through all nested calls. |
| SupervisorRuns.NotifyMeets | controller/StateController.cpp:53-88 | A notification either changes nothing or ends in WaitingForInternalSafety with both coils off and the precharge timer stopped. |
| SupervisorRuns.StepMeets | controller/StateController.cpp:20-231 | Every step of every agent has the tabled effect. |
| SupervisorRuns.JointIsInductive | controller/StateController.cpp:91-231 | Every step, from any agent, keeps the joint invariant of supervisor, interlock, coils, timer and locks. |
| SupervisorRuns.JointInvariant | controller/StateController.cpp:91-231 | The joint invariant holds in every state of every run from power-on, boot included. |
| SafetyGuarantees.JointStates | controller/ContactorController.cpp:82-154 | In every reachable state: supervisor up to WaitingForPrechargeActivation means contactors open; the two precharge states hold exactly when the contactor state is Precharge; HighCurrentRun implies RaceReady, and RaceReady implies HighCurrentRun or AllOpen; coils equal the state masks; the timer is armed exactly in StartedPrecharge. |
| SafetyGuarantees.ContactorHistory | controller/ContactorController.cpp:82-131 | Over every run the distinct contactor states follow AllOpen, Precharge, optionally HighCurrentRun, over and over; Precharge never follows HighCurrentRun. |
| SafetyGuarantees.RejectionIffLateFault | controller/StateController.cpp:214-223 | After boot a request is rejected in exactly one situation: a faulted step in PrechargeMinimumTimeExceeded with both precharge inputs asserted, which ends in RaceReady with the contactors open. |
| StepOutcomes.ProcessOutcome | controller/StateController.cpp:135-228 | Over every run, the state after a process step by the raw inputs: which waiting state for which missing input, LatchingError for any of the four once energised, and what the precharge inputs decide. |
| StepOutcomes.ProcessContactors | controller/StateController.cpp:175-231 | The contactor state after a process step: Precharge with StartedPrecharge, HighCurrentRun with a healthy RaceReady, AllOpen otherwise. |
| StepOutcomes.ErrorOutcome | controller/StateController.cpp:58-70 | Over every run, each of the seven error events sends every state above WaitingForInternalSafety back there with both coils open and the timer stopped, RaceReady included, and changes nothing otherwise. |
| StepOutcomes.ActivationOutcome | controller/StateController.cpp:81-84 | A delivered activation changes nothing but the pending edge. |
| StepOutcomes.AnyoneMayAct | controller/StateController.cpp:20-231 | After boot every run can be continued by a process step with any inputs, any error event, any command that is not pending, every due timer and every posted callback, and by nothing else. |
| SafetyGuarantees.FaultLatchesUnlessLate | controller/StateController.cpp:154-228 | From StartedPrecharge on, a faulted process step ends in LatchingError if and only if it is not the late fault, and in RaceReady if and only if it is. |
| SafetyGuarantees.ReadyButOpenIffLateFault | controller/StateController.cpp:214-223 | Over every run, RaceReady with open coils is entered by the late fault and by nothing else. |
| SafetyGuarantees.FaultOpensCoils | controller/StateController.cpp:134-228 | Every process step that samples a BMS, IMD, disconnect or power fault ends with both coils open, from any reachable state. |
| SafetyGuarantees.OnlyDeactivationUnlatches | controller/StateController.cpp:72-79 | LatchingError is left exactly by the driver's deactivation, and only for WaitingForInternalSafety. |
| SafetyGuarantees.ClosingNeedsPrecharge | controller/StateController.cpp:202-228 | From any reachable state with open coils, RaceReady included, no coil closes before StartedPrecharge is entered again. |
| SafetyGuarantees.DisableIsNeverLost | controller/StateController.cpp:36-51 | In LatchingError or from StartedPrecharge on, the enable bit is set or the deactivation is still to be delivered, whatever comes between storing the bit and notifying. |
| SafetyGuarantees.DeactivationWins | controller/StateController.cpp:72-79 | Delivering a deactivation opens both coils, stops the precharge timer and clears the latch, from any reachable state. |
| SafetyGuarantees.RestartNeedsOffOnCycle | controller/StateController.cpp:191-207 | Between two entries into StartedPrecharge a process step sampled the enable bit clear and a driver command set it again after that. |
| SafetyGuarantees.ReentryNeedsCommand | controller/StateController.cpp:27-34 | StartedPrecharge, once left, is not entered again before a driver command, so a late callback of the precharge timer cannot meet a later precharge. |
| PrechargeTiming.RunCoilClosesAfterPrecharge | controller/StateController.cpp:105-116 | Whenever the run coil closes in any run, the precharge coil has been on without a break for at least 5000 ms, and that same step sampled BMS, IMD, disconnects and contactor power healthy and both precharge inputs asserted. |
| PrechargeTiming.PrechargeLasts5000 | controller/StateController.cpp:105-108 | StartedPrecharge is entered, with the precharge coil closing, with the timer at exactly clock + 5000; it keeps it there, and PrechargeMinimumTimeExceeded is entered only by that timer when due. |
| CoilCallbacks.StepOnCoil | controller/ContactorController.cpp:133-151 | Every step of a run moves a coil, which clears its flag and restarts its timer but leaves posted callbacks alone, or expires its timer, or runs one callback, or clears the flag, or leaves the coil alone. |
| CoilCallbacks.FlagMeansSettled | controller/ContactorController.cpp:68-80 | For either coil and over every run: if no callback was posted when the coil moved, a flag set while it stays there means that it has been there for at least 300 ms. |
| CoilCallbacks.PrematureNeedsPosted | controller/ContactorController.cpp:68-80 | For either coil and over every run: a set flag has a move of its coil behind it, and comes earlier than 300 ms after it only if a callback was posted at that move. |
| CoilCallbacks.PrechargeFlag | controller/ContactorController.cpp:68-73 | The same for the precharge coil, field by field. |
| CoilCallbacks.RunFlag | controller/ContactorController.cpp:75-80 | The same for the run coil, field by field. |
| CoilCallbacks.MovesStartTimers | controller/ContactorController.cpp:141-151 | Over every run, exactly a coil that moves starts its timer, at exactly clock + 300, and loses its flag. |
| CoilCallbacks.TrustworthyIff | controller/ContactorController.cpp:133-151 | When a coil moves, its flag will be right in every continuation until the next move if and only if none of its callbacks is posted at that moment. |
| CoilCallbacks.FlagCanBePremature | controller/ContactorController.cpp:68-80 | For either coil, a run at whose end the flag is set at the very instant the coil has opened. |
| BootHazard.OperationalStepsReturn | controller/ContactorController.cpp:93-99 | Once the interlock is operational every step of every agent returns. |
| BootHazard.ProcessHangsIff | controller/StateController.cpp:175-231 | Exactly which process steps never return, by state, enable bit and inputs; all of them while the interlock is initialising. |
| BootHazard.NotifyHangsIff | controller/StateController.cpp:53-88 | Exactly which notifications never return. |
| BootHazard.BootCanHang | main.cpp:16-22 | A run of two steps after which a faulted process step recurses without end. |
| BootHazard.RaceReadyWithOpenContactors | controller/StateController.cpp:214-223 | A run that ends in RaceReady with both contactors open. |
| BootHazard.RunCoilCanClose | controller/StateController.cpp:214-219 | A run in which the run coil does close: the guarantees are not vacuous. |
| Recovery.AlwaysRecoverable | controller/StateController.cpp:36-231 | No history of faults and commands leaves the system stuck: every run after boot, latched or in RaceReady with open contactors, can be continued by at most nine steps (command off and on, healthy inputs, the precharge time) to one with the run coil closed. |
| Controllers.ContactorController.Initialise | controller/ContactorController.cpp:26-36 | The object ends in AllOpen with its flags clear and its coils and lock untouched: the BootContactors step. |
| Controllers.ContactorController.SyncCoils | controller/ContactorController.cpp:133-151 | The coils follow the state masks; exactly a coil that toggled clears its flag and restarts its timer. |
| Controllers.ContactorController.Interlock | controller/ContactorController.cpp:87-121 | A request is taken over exactly if Accepts says so, and otherwise leaves the state alone. |
| Controllers.ContactorController.PushState | controller/ContactorController.cpp:82-154 | In place, with the supervisor re-entered halfway: computes Supervisor.PushState on the joint state of both objects. |
| Controllers.ContactorController.PrechargeToggleCallback | controller/ContactorController.cpp:68-73 | A posted callback sets the flag, whatever has happened to coil and timer since, and leaves a restarted timer running. |
| Controllers.ContactorController.RunToggleCallback | controller/ContactorController.cpp:75-80 | The same for the run coil. |
| Controllers.StateController.TransitionState | controller/StateController.cpp:91-120 | In place: computes Supervisor.TransitionState, for every bound under which that returns. |
| Controllers.StateController.NotifyEvent | controller/StateController.cpp:53-88 | In place: computes Supervisor.NotifyEvent, lock included. |
| Controllers.StateController.Initialise | controller/StateController.cpp:20-25 | Computes the BootSupervisor step and restores the lock. |
| Controllers.StateController.PrechargeTimerFire | controller/StateController.cpp:27-34 | Computes the PrechargeTimerExpires step and restores the lock. |
| Controllers.StateController.StoreEnable | controller/StateController.cpp:38-45 | Stores the bit and reports an edge exactly when the value changed. |
| Controllers.StateController.PushTractiveEnable | controller/StateController.cpp:36-51 | With any steps of other agents between storing the bit and notifying, the command is the run's two steps with those between them; without an edge it changes nothing. |
| Controllers.StateController.TakeStep | controller/StateController.cpp:20-231 | Every step of a run, by whichever agent, is what the objects' own method for it does in place. |
| Controllers.StateController.ProcessWaitingStates | controller/StateController.cpp:135-151 | Computes SupervisorRuns.ProcessWaitingStates on the joint state of both objects. |
| Controllers.StateController.ProcessActivatedStates | controller/StateController.cpp:154-173 | Computes SupervisorRuns.ProcessActivatedStates on the joint state of both objects. |
| Controllers.StateController.ProcessStep | controller/StateController.cpp:175-231 | Computes the process step the run guarantees are about, on the joint state of both objects, and restores the lock. |
| Controllers.NotifyReturns | controller/StateController.cpp:53-88 | A notification with two levels of nesting or more is the notification step of a run. |
| CanMailbox.StepKeepsSound | net/CANTransceiver.cpp:23-77 | Every interrupt pass and every thread step keeps each of the 32 slots in exactly one place, and the frames in order. |
| CanMailbox.MailboxInvariant | net/CANTransceiver.cpp:23-77 | Over every interleaving of arrivals, interrupt and thread this holds, and frames read plus frames in the FIFO are the arrivals. |
| CanMailbox.DeliveredInOrder | net/CANTransceiver.cpp:65-77 | Delivered frames are an in-order, duplicate-free subsequence of the arrivals, contents included. |
| CanMailbox.SlotsConserved | net/CANTransceiver.hpp:10-20 | Free, queued, next_message and held slots are always 32. |
| CanMailbox.DropIffPoolExhausted | net/CANTransceiver.cpp:29-41 | A frame is dropped exactly when it is read with next_message null and the pool empty; then all 32 slots are queued or with the thread. |
| CanMailbox.InterruptEndsDrained | net/CANTransceiver.cpp:28-43 | The interrupt returns only with the hardware FIFO empty. |
| CanMailbox.FreshInterrupt | net/CANTransceiver.cpp:23-44 | The first interrupt of a fresh receiver queues every frame that arrives while it runs if there are at most 32, and exactly the first 32 otherwise, contents included and in order. |
| CanMailbox.AnyoneMayAct | net/CANTransceiver.cpp:23-77 | Frames may arrive and the interrupt may be entered at any time, the thread handles one slot after the other in between, and nothing else happens. |
| CanMailbox.DrainKeepsEarliest | net/CANTransceiver.cpp:23-44 | Whatever arrives before each of its passes, the interrupt keeps the earliest frames, as many as there are slots for, and drops the rest. |
| CanMailbox.DrainIsSteps | net/CANTransceiver.cpp:28-43 | The loop is a stretch of a run that consists of its passes and of arrivals between them. |
| CanMailbox.InterruptIsSteps | net/CANTransceiver.cpp:23-44 | The whole interrupt is a stretch of a run: its entry, then passes and arrivals only. |
| CanMailbox.CanReceiver.RxPass | net/CANTransceiver.cpp:29-41 | One pass in place, over the slot memory, is the modelled pass; it reports whether a frame was read. |
| CanMailbox.CanReceiver.RxInterrupt | net/CANTransceiver.cpp:23-44 | The do-while loop in place, with frames arriving before any pass, is that stretch of a run: it drains the FIFO and keeps exactly the earliest frames there was room for. |
| CanMailbox.CanReceiver.Get | net/CANTransceiver.cpp:68-70 | Takes the oldest queued slot and leaves everything else. |
| CanMailbox.CanReceiver.Dispatch | net/CANTransceiver.cpp:70-72 | Delivers what the held slot contains. |
| CanMailbox.CanReceiver.Free | net/CANTransceiver.cpp:73-73 | Gives the held slot back to the pool. |
| Saturation.ClampIsNearest | mbed-os/cmsis/arm_math.h:656-690 | Clamping gives the closest value of the range. |
| Saturation.Ssat | mbed-os/cmsis/arm_math.h:656-690 | The doubling loop clamps to y signed bits, for every 32-bit x and every y from 1 to 32. |
| Saturation.PackedBytes | mbed-os/cmsis/arm_math.h:720-722 | The shifts, masks and ors put four signed bytes together; each is found unchanged in its lane, for all arguments. |
| Saturation.PackedHalves | mbed-os/cmsis/arm_math.h:775-775 | The same for two halfwords. |
| Saturation.ExtractBytes | mbed-os/cmsis/arm_math.h:712-718 | Shifting a lane up and back down is sign extension. |
| Saturation.QAdd8 | mbed-os/cmsis/arm_math.h:704-726 | Four independent saturating additions, for all packed words. |
| Saturation.QSub8 | mbed-os/cmsis/arm_math.h:731-752 | Four independent saturating subtractions, for all packed words. |
| Saturation.QAdd16 | mbed-os/cmsis/arm_math.h:761-779 | Two independent saturating additions, for all packed words. |
| Saturation.QSub16 | mbed-os/cmsis/arm_math.h:807-824 | Two independent saturating subtractions, for all packed words. |
| Saturation.LanesDetermineWord | mbed-os/cmsis/arm_math.h:704-824 | Words are equal exactly if their bytes are, and exactly if their halfwords are: the lane contracts fix the results. |
| Saturation.ClipIsClamp | mbed-os/cmsis/arm_math.h:469-474 | The sign comparison and the exclusive-or are the 32-bit clamp, for every 64-bit input. |
| Saturation.Mult32x64IsFloor | mbed-os/cmsis/arm_math.h:510-516 | No half-product overflows and the result is exactly the floor of x * y / 2^32. |
| Clarke.ForwardValue | mbed-os/cmsis/arm_math.h:5331-5350 | The first product never overflows; only the second product's conversion and the sum's saturation can change the result. |
| Clarke.InverseValue | mbed-os/cmsis/arm_math.h:5435-5455 | No product of the inverse overflows. |
| Clarke.RoundTripIsClose | mbed-os/cmsis/arm_math.h:5331-5455 | If the second product fits 32 bits and the sum does not saturate, Ia comes back exactly and Ib with an error from -3 to 1. |
| Clarke.LowerBoundIsReached | mbed-os/cmsis/arm_math.h:5331-5455 | An input with error -3. |
| Clarke.UpperBoundIsReached | mbed-os/cmsis/arm_math.h:5331-5455 | An input with error 1. |
| Clarke.WrappedProductIsFar | mbed-os/cmsis/arm_math.h:5345-5346 | A second product that does not fit makes the round trip miss Ib by more than an eighth of the range, for every such input. |
| Clarke.WithinFourIff | mbed-os/cmsis/arm_math.h:5331-5455 | For all inputs: Ib comes back within 4 if and only if the second product fits and -3719550794 <= Ia + 2 Ib <= 3719550793. |
| Clarke.TightBoundsIff | mbed-os/cmsis/arm_math.h:5331-5455 | For all inputs: the error is from -3 to 1 if and only if the second product fits and -3719550788 <= Ia + 2 Ib <= 3719550791. |
| Clarke.OverflowChangesSign | mbed-os/cmsis/arm_math.h:5345-5346 | For Ia = 0 and the largest Ib the product overflows and Ib comes back negative. |
| Clarke.SaturationLoses | mbed-os/cmsis/arm_math.h:5348-5349 | An input whose products fit and whose sum saturates, with its error. |
| Pid.OutputIsWrapped | mbed-os/cmsis/arm_math.h:5133-5164 | For every input and all gains, overflow on the way is not lost: the output is the unbounded sum converted to 32 bits once. |
| Pid.IncrementIsDifference | mbed-os/cmsis/arm_math.h:5042-5047 | The increments telescope to the positional controller. |
| Pid.TruncationBound | mbed-os/cmsis/arm_math.h:5150-5151 | For every input sequence 0 <= P[n] - 2^31 y[n] <= n (2^31 - 1), for the unbounded sum. |
| Pid.OutputIsPositional | mbed-os/cmsis/arm_math.h:5133-5164 | The output obeys that bound exactly when the sum fits 32 bits at the end, whatever overflowed before. |
| Pid.ScaledInputsFollow | mbed-os/cmsis/arm_math.h:5133-5164 | It does whenever the positional controller is in range with room for the truncation. |
| Pid.IntegralStalls | mbed-os/cmsis/arm_math.h:5150-5151 | The bound is reached at every n: with the smallest integral gain the output never moves. |
| Pid.IntegralFollowsIff | mbed-os/cmsis/arm_math.h:5130-5154 | A purely integral controller on a constant input follows the positional one if and only if n truncated steps fit 32 bits. |
| Pid.IntegralOverflows | mbed-os/cmsis/arm_math.h:5130-5154 | No scaling of the input avoids overflow: if one step moves the output at all, 2^31 + 1 of them overflow. |
| Pid.ScaledInputOverflows | mbed-os/cmsis/arm_math.h:5130-5154 | Five samples scaled down by two bits give a negative output where the positional controller is beyond the top of the range. |
| Pid.PidQ31.Process | mbed-os/cmsis/arm_math.h:5133-5164 | In place, with a 64-bit accumulator that wraps at every addition: the output is Output of all samples so far. |
| Pid.RealStep | mbed-os/cmsis/arm_math.h:5042-5047 | Without rounding, one incremental step takes the positional controller to its next value exactly. |
| Pid.PidF32.Process | mbed-os/cmsis/arm_math.h:5099-5117 | In place: the output equals the positional controller of all samples so far. |
| Interpolation.Interp15Accurate | mbed-os/cmsis/arm_math.h:5895-5939 | For every position from zero on: between the two neighbours (up to one below), within the stated distance of the straight line, exact at a sample up to one, and the last sample beyond the table. |
| Interpolation.Interp7Accurate | mbed-os/cmsis/arm_math.h:5955-6001 | The same for 8 bits, and the first sample for every negative position. |
| Interpolation.Interp15Monotone | mbed-os/cmsis/arm_math.h:5895-5939 | A non-decreasing table gives a non-decreasing function over all positions from zero on, across segments and into the final clamp. |
| Interpolation.Interp7Monotone | mbed-os/cmsis/arm_math.h:5955-6001 | The same for 8 bits on either side of zero; between the sides there is at most one step down, by one, and none for a single sample or a first sample that is not positive. |
| Interpolation.Interp15Negative | mbed-os/cmsis/arm_math.h:5908-5917 | What the 16-bit routine returns for every negative position: the table from entry 2048 on, the last sample if there is no such entry. |
| Interpolation.Monotone15Iff | mbed-os/cmsis/arm_math.h:5895-5939 | For which non-decreasing tables, of any size, the 16-bit routine is non-decreasing over all positions, negative ones included: a caller can read the condition off samples 0, 4096 and the last. |
| Interpolation.Monotone15AtZero | mbed-os/cmsis/arm_math.h:5908-5917 | The only place where the order can fail is between the positions -1 and 0. |
| Interpolation.Monotone7Iff | mbed-os/cmsis/arm_math.h:5955-6001 | The 8-bit routine is non-decreasing over all positions if and only if the table has one sample or its first is not positive. |
| Circular.Write | mbed-os/cmsis/arm_math.h:6260-6298 | For every increment, negative ones included, whose accesses are in bounds: the loop stores the source samples at the successive positions and nothing else; the offset left is the last position cut to 16 bits. |
| Circular.Read | mbed-os/cmsis/arm_math.h:6305-6355 | For every increment on either side whose accesses are in bounds: the loop stores what stands at the successive positions along the destination's positions, and leaves the last position as offset. |
| Circular.PositionsAreWalk | mbed-os/cmsis/arm_math.h:6287-6290 | For all increments from 0 to L, comparing and subtracting at every step is multiplication modulo the length: the final offset is (start + n * inc) mod L. |
| Circular.WalkDoesNotOverflow | mbed-os/cmsis/arm_math.h:6279-6294 | For these increments every access is in bounds and the offset arithmetic fits 32 bits if L + inc does not exceed 2^31. |
| Circular.PositionsInBoundsIff | mbed-os/cmsis/arm_math.h:6287-6290 | For every start, increment and count: all positions are inside the buffer if and only if the increment is from 0 to L or the drift of the others has not left it yet. |
| Circular.BackwardLeaves | mbed-os/cmsis/arm_math.h:6287-6290 | From any start, a walk with increment -1 leaves the buffer, and so does one with increment L + 1. |
| Circular.TargetsWithinIff | mbed-os/cmsis/arm_math.h:6333-6339 | For every start, increment and count: the destination pointer stays in its buffer if and only if it has not reached the end, or meets it exactly, once for a second lap and always if the increment divides the length. |
| Circular.TargetIsWalk | mbed-os/cmsis/arm_math.h:6333-6339 | If the increment divides the length and the way to the end, the destination is base + (start + k * inc) mod length after k steps. |
| Circular.ScatterStored | mbed-os/cmsis/arm_math.h:6279-6294 | A cell holds the last sample stored in it. |
| Circular.ScatterUntouched | mbed-os/cmsis/arm_math.h:6279-6294 | A cell off the walk keeps its content. |
| Circular.ReadBackIff | mbed-os/cmsis/arm_math.h:6260-6355 | Every block can be read back if and only if the walk uses no position twice. |
| Circular.WalkDistinctIff | mbed-os/cmsis/arm_math.h:6287-6290 | A walk of n steps uses no position twice if and only if no shorter distance is a multiple of the length. |
| Circular.UnitWalkDistinctIff | mbed-os/cmsis/arm_math.h:6287-6290 | With unit increments: if and only if n <= L. |
| Circular.BlockRoundTrip | mbed-os/cmsis/arm_math.h:6260-6355 | Write then read delivers the block in order and changes no other cell of either buffer, for any distinct walks. |
| Circular.UnitRoundTrip | mbed-os/cmsis/arm_math.h:6260-6355 | With unit increments and n <= L the samples appear in order at the start of the destination. |
| Circular.BlocksCompose | mbed-os/cmsis/arm_math.h:6260-6298 | For every increment that stays in the buffer, writing a block and then another from where the first ended is writing both at once. |
| Circular.WritesContinueIff | mbed-os/cmsis/arm_math.h:6296-6297 | For every increment: every next write continues the last if and only if the offset fits 16 bits, or points outside the buffer anyway. |
| Circular.FailingBlock | mbed-os/cmsis/arm_math.h:6296-6297 | If it does not, a next write of a single 0 or 1 that goes to the wrong cell. |
| Circular.LargeBufferLosesOffset | mbed-os/cmsis/arm_math.h:6296-6297 | In any buffer of more than 65536 cells, such a write after 65536 samples from the start. |
| PageTable.TTSection | mbed-os/cmsis/core_ca_mmu.h:747-765 | In place: exactly the covered entries are replaced, by consecutive section entries. |
| PageTable.TTPage4k | mbed-os/cmsis/core_ca_mmu.h:777-802 | In place: one first-level entry and exactly the covered second-level entries are replaced. |
| PageTable.TTPage64k | mbed-os/cmsis/core_ca_mmu.h:814-840 | The nested loops write sixteen equal entries a page and replace nothing else. |
| PageTable.EntryValues | mbed-os/cmsis/core_ca_mmu.h:753-753 | Mask and or leave address and descriptor readable side by side, for descriptors without address bits, for all four masks. |
| PageTable.SectionIdentity | mbed-os/cmsis/core_ca_mmu.h:747-765 | The walk maps each covered address to itself with the attributes asked for, and every other address as before. |
| PageTable.SectionIdentityIff | mbed-os/cmsis/core_ca_mmu.h:747-765 | Among the descriptors without address bits, exactly those of type 2 with bit 18 clear map a covered address to itself as a section. |
| PageTable.PagesWalk | mbed-os/cmsis/core_ca_mmu.h:785-790 | The first-level entry leads the walk to the second-level table for its megabyte only. |
| PageTable.SmallPageIdentity | mbed-os/cmsis/core_ca_mmu.h:777-802 | The walk maps each covered address to itself with both sets of attributes; the rest of the megabyte follows the old second-level entries, other megabytes are as before. |
| PageTable.LargePageWalk | mbed-os/cmsis/core_ca_mmu.h:814-840 | Where the walk sends each covered address whatever the base's alignment; what is not covered is as before. |
| PageTable.LargePageIdentityIff | mbed-os/cmsis/core_ca_mmu.h:827-839 | The covered addresses are mapped to themselves if and only if the base is in the first 4 KB of its 64 KB page. |
| PageTable.PageKinds | mbed-os/cmsis/core_ca_mmu.h:710-725 | Which second-level descriptors make a small page and which a large one that maps its addresses to themselves. |
| Nvic.WidthsAddUp | mbed-os/cmsis/core_cm4.h:1719-1720 | Preemption and subpriority widths sum to the implemented bits, for every group. |
| Nvic.InFigures | mbed-os/cmsis/core_cm4.h:1713-1752 | The preemption width is the smaller of the implemented bits and 7 - group mod 8, the subpriority has the rest, and encoding and decoding are multiplication, division and remainder by those powers of two. |
| Nvic.DecodeEncode | mbed-os/cmsis/core_cm4.h:1713-1752 | Decoding an encoding gives both fields cut to their widths, and the encoding is below 2^bits. |
| Nvic.EncodeDecode | mbed-os/cmsis/core_cm4.h:1713-1752 | Encoding a decoding gives the priority back: a bijection onto [0, 2^bits). |
| Nvic.EncodeOrders | mbed-os/cmsis/core_cm4.h:1713-1726 | Encoded priorities compare as preemption priority first, subpriority second. |
| Nvic.Located | mbed-os/cmsis/core_cm0.h:566-568 | The wrapping index expressions locate the bytes of an array, for every interrupt with a priority field. |
| Nvic.NoPriorityField | mbed-os/cmsis/core_cm0.h:567-567 | For the handlers below -8 the register index wraps far outside the array. |
| Nvic.LaneAfterWrite | mbed-os/cmsis/core_cm0.h:647-652 | A read-modify-write of one byte is read back there and seen in no other byte of the word. |
| Nvic.PriorityRegisters.SetPriority | mbed-os/cmsis/core_cm0.h:644-654 | The packed words refine a map from interrupts to bytes: a set changes its own interrupt only. |
| Nvic.PriorityRegisters.GetPriority | mbed-os/cmsis/core_cm0.h:668-677 | Reads the implemented bits of the interrupt's byte. |
| Nvic.FieldValue | mbed-os/cmsis/core_cm0.h:644-677 | The byte a set stores has the priority in its top bits, and a get finds the priority cut to the implemented bits. |
| BitReverse.Rbit | mbed-os/cmsis/core_cmInstr.h:193-207 | With its early exit: bit i of the result is bit 31 - i of the input, and reversing the result gives the input back. |
| BitReverse.ReversedBit | mbed-os/cmsis/core_cmInstr.h:193-207 | Bit i of the reversal is bit n - 1 - i, for every width. |
| BitReverse.ReversedTwice | mbed-os/cmsis/core_cmInstr.h:193-207 | Reversal is its own inverse, for every width. |

## Left out

- Wake-up signals and the thread loop around `state_machine_process_step`: a process step may happen at any time in the model.
- Mutex, timer and mail-pool internals: the mutexes are lock depths, timers are one-shot deadlines, the pool hands out any free slot. Blocking and priority inversion are not modelled.
- Ticks and callbacks inside a lock-held body: a coil timer that expires or whose callback runs while the CAN thread is in `push_state` counts as expiring before that body, its callback as running before or after it.
- The gap between the precharge timer's expiry and its callback, see above for why the two are one step; the order in which posted callbacks run, and the limit of four posted at a time.
- `ContactorController::procedure`: its body is commented out, so the hardware-error flags never change and `hvcLatchingMechanicalError` is never requested. The state is kept in the interlock and in the termination result.
- `StackPlausibility`, `BMSController` and `InsulationMonitoringDevice` readings: arbitrary booleans at each process step; a process step reads each input once.
- Dispatchers, message services, heartbeat, status mask and LEDs: packing and sending of values.
- Decoding of the CAN command (message length, the conversions bit): the command's enable value is a parameter.
- `write`, error counters and the driver's own FIFO behaviour in `CANTransceiver`: the FIFO is unbounded.
- Saturation.Ssat: `y` of 32 relies on signed wrap-around, which C leaves undefined; the model wraps. `y` of 0 and above 32 are not modelled.
- `clip_q31_to_q7`, `clip_q63_to_q15`, `__QASX`, `__QSAX`: as written they do not compute a plain clamp or lanes on all inputs. The halving and multiplying SIMD functions would repeat the lane proofs.
- `arm_linear_interp_q31`, bilinear interpolation, `arm_recip_*` and all prototypes without a body, the gain computation of `arm_pid_init_*` among them: gains are inputs.
- Pid.PidF32.Process: over the reals, rounding is not modelled.
- Pid.OutputIsPositional: its converse is for up to 2^32 samples, beyond which the bound itself is wider than the 32-bit range.
- Circular.Write: source and buffer are different arrays; likewise Circular.Read for the destination. Accesses outside the arrays are not modelled. The 32-bit and 8-bit variants are the same loops.
- Interpolation.Interp15Monotone: negative positions are excluded because the claim fails there; Interpolation.Interp15Negative and Interpolation.Monotone15Iff say what happens instead and for which tables the claim still holds.
- Access-permission and cacheability decoding of the MMU descriptors, supersections and the PXN entry type: the descriptor is an opaque input, and the walk names the last two without addresses.
- Register accessors, inline assembly, cache and TLB operations, analog, bus, Ethernet and WiFi drivers.

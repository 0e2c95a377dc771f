/** What single steps of a run do, in raw inputs and named states: process steps, error events,
    driver edges, and which steps an agent may take at all. */
module StepOutcomes {
  import opened Wrappers
  import opened Supervisor
  import opened SupervisorRuns
  import opened SafetyGuarantees
  import opened BootHazard

  // ---------- Process steps ----------

  /** The state a supervisor in a waiting state falls back to, by the first input that is missing. */
  function FallBack(pins: Pins): SupervisorState {
    if !pins.bms then WaitingForInternalSafety
    else if !pins.imd || !pins.disconnects then WaitingForTractiveLoop
    else if !pins.contactorPower then WaitingForShutdownCircuit
    else WaitingForPrechargeActivation
  }

  function SupervisorAfter(s: SupervisorState, enable: bool, pins: Pins): SupervisorState {
    if s == WaitingForInternalSafety || s == WaitingForTractiveLoop || s == WaitingForShutdownCircuit then
      if enable then LatchingError else FallBack(pins)
    else if s == WaitingForPrechargeActivation then
      if enable && FallBack(pins) == s then StartedPrecharge else FallBack(pins)
    else if s == StartedPrecharge || s == RaceReady then
      if pins.bms && pins.imd && pins.disconnects && pins.contactorPower then s else LatchingError
    else if s == PrechargeMinimumTimeExceeded then
      if pins.precharge99 && pins.prechargeInRange then RaceReady else LatchingError
    else s
  }

  /** Every process step of a run ends in the state that the raw inputs say: which waiting state for
      which missing input, LatchingError for any of them once energised. */
  lemma ProcessOutcome(states: seq<Plant>, steps: seq<Step>, n: nat)
    requires IsRun(states, steps) && n < |steps| && steps[n].Process?
    ensures states[n + 1].state == SupervisorAfter(states[n].state, states[n].enable, steps[n].pins)
    ensures states[n + 1].enable == states[n].enable && states[n + 1].toNotify == states[n].toNotify
    ensures states[n + 1].clock == states[n].clock
  {
    JointAt(states, steps, n);
    TabledAt(states, steps, n);
  }

  /** And with the contactors that belong to it: Precharge is taken up with StartedPrecharge,
      HighCurrentRun with a healthy RaceReady, and everything else of an energised supervisor opens. */
  lemma ProcessContactors(states: seq<Plant>, steps: seq<Step>, n: nat)
    requires IsRun(states, steps) && n < |steps| && steps[n].Process? && Ready(states[n].contactors.state)
    ensures var p, q, pins := states[n], states[n + 1], steps[n].pins;
            q.contactors.state ==
              if q.state == StartedPrecharge then Precharge
              else if q.state == RaceReady then
                if Healthy(pins) && (p.state == PrechargeMinimumTimeExceeded || p.contactors.state == HighCurrentRun) then HighCurrentRun else AllOpen
              else AllOpen
  {
    JointAt(states, steps, n);
    JointAt(states, steps, n + 1);
    TabledAt(states, steps, n);
    ContactorMoves(states[n], steps[n], states[n + 1]);
    RawReadings(states[n].state, states[n].contactors.state, steps[n].pins);
  }

  // ---------- Events ----------

  // The states above WaitingForInternalSafety.
  predicate Abandons(s: SupervisorState) {
    || s == WaitingForTractiveLoop || s == WaitingForShutdownCircuit || s == WaitingForPrechargeActivation
    || s == StartedPrecharge || s == PrechargeMinimumTimeExceeded || s == RaceReady
  }

  /** Every error event, of whatever kind, sends a supervisor above WaitingForInternalSafety back there
      with both coils open and the precharge timer stopped, and changes nothing otherwise. */
  lemma ErrorOutcome(states: seq<Plant>, steps: seq<Step>, n: nat)
    requires IsRun(states, steps) && n < |steps| && steps[n].Raise?
    ensures var p, q := states[n], states[n + 1];
            && (Abandons(p.state) ==>
                && q.state == WaitingForInternalSafety && q.prechargeDeadline == None
                && q.contactors.state == AllOpen && !q.contactors.prechargeCoil && !q.contactors.runCoil
                && q.enable == p.enable && q.toNotify == p.toNotify && q.clock == p.clock
                && q.sequenceErrors == p.sequenceErrors)
            && (!Abandons(p.state) ==> q == p)
  {
    JointAt(states, steps, n);
    ErrorStep(states[n], steps[n].error, states[n + 1]);
  }

  lemma ErrorStep(p: Plant, error: Event, q: Plant)
    requires Joint(p) && Leads(p, Raise(error), q)
    ensures Abandons(p.state) ==>
            && q.state == WaitingForInternalSafety && q.prechargeDeadline == None
            && q.contactors.state == AllOpen && !q.contactors.prechargeCoil && !q.contactors.runCoil
            && q.enable == p.enable && q.toNotify == p.toNotify && q.clock == p.clock
            && q.sequenceErrors == p.sequenceErrors
    ensures !Abandons(p.state) ==> q == p
  {
    StepMeets(p, Raise(error), q);
    if Abandons(p.state) {
      assert CanTransition(p, WaitingForInternalSafety);
      SyncTwice(p.contactors.(state := AllOpen), p.clock, AllOpen);
    }
  }

  /** A delivered activation only takes note of itself. */
  lemma ActivationOutcome(states: seq<Plant>, steps: seq<Step>, n: nat)
    requires IsRun(states, steps) && n < |steps| && steps[n] == DeliverEdge && states[n].toNotify == Some(true)
    ensures states[n + 1] == states[n].(toNotify := None)
  {
    TabledAt(states, steps, n);
  }

  // ---------- Who may act ----------

  predicate Due(timer: Option<nat>, clock: nat) {
    timer.Some? && timer.value <= clock
  }

  predicate MayAct(p: Plant, step: Step) {
    match step
    case BootSupervisor => p.state == Initialising
    case BootContactors => p.contactors.state == ContactorsInitialising
    case Process(_) => true
    case SetEnable(_) => p.toNotify == None
    case DeliverEdge => p.toNotify != None
    case Raise(error) =>
      || error == CANBusIntegrityError || error == StackPlausibilityError || error == HardwareOvercurrentError
      || error == InsulationMonitoringDeviceError || error == BatteryManagementSystemError
      || error == ContactorHardwareFaultError || error == ContactorSequenceError
    case PrechargeTimerExpires => Due(p.prechargeDeadline, p.clock)
    case PrechargeCoilTimerExpires => Due(p.contactors.prechargeTimer, p.clock)
    case PrechargeCoilCallback => p.contactors.prechargePosted != 0
    case RunCoilTimerExpires => Due(p.contactors.runTimer, p.clock)
    case RunCoilCallback => p.contactors.runPosted != 0
    case Pass(_) => true
  }

  /** The guarantees are about every behaviour of the surroundings: after boot a run can be continued by
      a step of any agent, with any inputs, events and commands, and only by such steps. */
  lemma AnyoneMayAct(states: seq<Plant>, steps: seq<Step>, step: Step)
    requires IsRun(states, steps) && Ready(states[|steps|].contactors.state)
    ensures MayAct(states[|steps|], step) <==> exists q :: IsRun(states + [q], steps + [step])
  {
    var p := states[|steps|];
    if MayAct(p, step) {
      OperationalStepsReturn(p, step);
      var longer, path := ExtendRun(states, steps, step, Apply(p, step).value);
    }
    forall q | IsRun(states + [q], steps + [step]) ensures MayAct(p, step) {
      assert Leads((states + [q])[|steps|], (steps + [step])[|steps|], (states + [q])[|steps| + 1]);
    }
  }
}

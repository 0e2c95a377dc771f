/** Every step the safety controller can take, runs from power-on, and the joint invariant of the
    supervisor and the contactor interlock.

    Each lock-held body is one step. The CAN command is two steps, because the enable bit is stored
    before, and outside the lock of, the notification. A coil timer's expiry and its callback are
    two steps as well: the supervisor's thread has priority over the timer thread and may restart
    the timer in between. The precharge timer's expiry and callback are one step: a late callback
    could only matter if StartedPrecharge had been left and entered again before it runs, which
    takes a driver command, and the CAN thread runs below the timer thread. */
module SupervisorRuns {
  import opened Wrappers
  import opened Supervisor

  datatype Step =
    | BootSupervisor
    | BootContactors
    | Process(pins: Pins)
    | SetEnable(value: bool)
    | DeliverEdge
    | Raise(error: Event)
    | PrechargeTimerExpires
    | PrechargeCoilTimerExpires
    | PrechargeCoilCallback
    | RunCoilTimerExpires
    | RunCoilCallback
    | Pass(millisec: nat)

  const POWER_ON := Plant(
    Initialising,
    Contactors(ContactorsInitialising, false, false, false, false, None, None, 0, 0, 0),
    false, None, None, 0, 0, 0)

  // ---------- The steps ----------

  function Notify(p: Plant, ev: Event): Option<Plant> {
    if NotifyRestarts(p.state, ev) then Transition(p, WaitingForInternalSafety) else Some(p)
  }

  datatype Checked = Checked(plant: Plant, ok: bool)

  function ProcessWaitingStates(p: Plant, pins: Pins): Option<Checked> {
    if pins.InternalFault() then
      var q :- Transition(p, WaitingForInternalSafety); Some(Checked(q, false))
    else if pins.LoopFault() then
      var q :- Transition(p, WaitingForTractiveLoop); Some(Checked(q, false))
    else if !pins.contactorPower then
      var q :- Transition(p, WaitingForShutdownCircuit); Some(Checked(q, false))
    else Some(Checked(p, true))
  }

  function ProcessActivatedStates(p: Plant, pins: Pins): Option<Checked> {
    if pins.InternalFault() then
      var q :- Transition(p, LatchingError); Some(Checked(q, false))
    else if pins.LoopFault() then
      var q :- Transition(p, LatchingError); Some(Checked(q, false))
    else if !pins.contactorPower then
      var q :- Transition(p, LatchingError); Some(Checked(q, false))
    else Some(Checked(p, true))
  }

  function ProcessStep(p: Plant, pins: Pins): Option<Plant> {
    match p.state
    case Initialising => Some(p)
    case NonResettableLatchingError => Some(p)
    case LatchingError => Some(p)
    case WaitingForPrechargeActivation =>
      var c :- ProcessWaitingStates(p, pins);
      if c.ok && p.enable then Transition(c.plant, StartedPrecharge) else Some(c.plant)
    case StartedPrecharge =>
      var c :- ProcessActivatedStates(p, pins);
      Some(c.plant)
    case PrechargeMinimumTimeExceeded =>
      // The outcome of the check is not consulted before going on to RaceReady.
      var c :- ProcessActivatedStates(p, pins);
      if pins.precharge99 && pins.prechargeInRange
      then Transition(c.plant, RaceReady)
      else Transition(c.plant, LatchingError)
    case RaceReady =>
      var c :- ProcessActivatedStates(p, pins);
      Some(c.plant)
    case _ =>
      var c :- ProcessWaitingStates(p, pins);
      if p.enable then Transition(c.plant, LatchingError)
      else if c.ok then Transition(c.plant, WaitingForPrechargeActivation)
      else Some(c.plant)
  }

  function StoreEnable(p: Plant, value: bool): Plant {
    p.(enable := value, toNotify := if value != p.enable then Some(value) else None)
  }

  function DriverEvent(value: bool): Event {
    if value then DriverEnables else DriverDeactivates
  }

  predicate Enabled(p: Plant, step: Step) {
    match step
    case BootSupervisor => p.state == Initialising
    case BootContactors => p.contactors.state == ContactorsInitialising
    case Process(_) => true
    case SetEnable(_) => p.toNotify.None?
    case DeliverEdge => p.toNotify.Some?
    case Raise(error) => error.IsError()
    case PrechargeTimerExpires => p.prechargeDeadline.Some? && p.prechargeDeadline.value <= p.clock
    case PrechargeCoilTimerExpires =>
      p.contactors.prechargeTimer.Some? && p.contactors.prechargeTimer.value <= p.clock
    case PrechargeCoilCallback => p.contactors.prechargePosted > 0
    case RunCoilTimerExpires => p.contactors.runTimer.Some? && p.contactors.runTimer.value <= p.clock
    case RunCoilCallback => p.contactors.runPosted > 0
    case Pass(_) => true
  }

  /** The effect of an enabled step; None if the step never returns. */
  function Apply(p: Plant, step: Step): Option<Plant>
    requires Enabled(p, step)
  {
    match step
    case BootSupervisor => Transition(p, WaitingForInternalSafety)
    case BootContactors =>
      Some(p.(contactors := p.contactors.(state := AllOpen, prechargeFireOnce := false, runFireOnce := false)))
    case Process(pins) => ProcessStep(p, pins)
    case SetEnable(value) => Some(StoreEnable(p, value))
    case DeliverEdge => Notify(p.(toNotify := None), DriverEvent(p.toNotify.value))
    case Raise(error) => Notify(p, error)
    case PrechargeTimerExpires =>
      var expired := p.(prechargeDeadline := None);
      if p.state == StartedPrecharge then Transition(expired, PrechargeMinimumTimeExceeded) else Some(expired)
    case PrechargeCoilTimerExpires =>
      Some(p.(contactors := p.contactors.(prechargeTimer := None, prechargePosted := p.contactors.prechargePosted + 1)))
    case PrechargeCoilCallback =>
      Some(p.(contactors := p.contactors.(prechargePosted := p.contactors.prechargePosted - 1, prechargeFireOnce := true)))
    case RunCoilTimerExpires =>
      Some(p.(contactors := p.contactors.(runTimer := None, runPosted := p.contactors.runPosted + 1)))
    case RunCoilCallback =>
      Some(p.(contactors := p.contactors.(runPosted := p.contactors.runPosted - 1, runFireOnce := true)))
    case Pass(millisec) => Some(p.(clock := p.clock + millisec))
  }

  predicate Leads(p: Plant, step: Step, q: Plant) {
    Enabled(p, step) && Apply(p, step) == Some(q)
  }

  /** A run: states[i] is the state before steps[i]. */
  predicate IsRun(states: seq<Plant>, steps: seq<Step>) {
    && |states| == |steps| + 1
    && states[0] == POWER_ON
    && forall i :: 0 <= i < |steps| ==> Leads(states[i], steps[i], states[i + 1])
  }

  // ---------- The joint invariant ----------

  predicate Joint(p: Plant) {
    var c := p.contactors;
    && p.state != NonResettableLatchingError
    && c.state != LatchingMechanicalError
    && c.prechargeCoil == c.state.PrechargeBit() && c.runCoil == c.state.RunBit()
    && (p.state.Rank() <= WaitingForPrechargeActivation.Rank() ==> c.state == AllOpen || c.state == ContactorsInitialising)
    && (p.state == StartedPrecharge || p.state == PrechargeMinimumTimeExceeded <==> c.state == Precharge)
    && (c.state == HighCurrentRun ==> p.state == RaceReady)
    && (p.state == RaceReady ==> c.state == HighCurrentRun || c.state == AllOpen)
    && (p.prechargeDeadline.Some? <==> p.state == StartedPrecharge)
    && p.lock == 0 && c.lock == 0
  }

  predicate Waiting(s: SupervisorState) {
    WaitingForInternalSafety.Rank() <= s.Rank() <= WaitingForPrechargeActivation.Rank()
  }

  // Transitions only read the supervisor state, the contactors, the timer and the clock.
  predicate SameDriver(p: Plant, q: Plant) {
    q.clock == p.clock && q.enable == p.enable && q.toNotify == p.toNotify && q.lock == p.lock
  }

  // A transition to a state below StartedPrecharge opens the contactors, from anywhere.
  lemma OpeningTransition(p: Plant, s: SupervisorState)
    requires CanTransition(p, s) && s.Rank() <= WaitingForPrechargeActivation.Rank()
    ensures var q := Settled(p, s);
            && q.state == s && q.prechargeDeadline == None && SameDriver(p, q)
            && q.contactors == SyncCoils(p.contactors.(state := Forced(p.contactors.state)), p.clock)
            && (p.contactors.state.Operational() ==> q.sequenceErrors == p.sequenceErrors)
  {
  }

  lemma SyncTwice(c: Contactors, now: nat, s: ContactorState)
    ensures SyncCoils(SyncCoils(c, now).(state := s), now).state == s
    ensures c.prechargeCoil == c.state.PrechargeBit() && c.runCoil == c.state.RunBit() ==> SyncCoils(c, now) == c
    ensures SyncCoils(c, now).(state := c.state) == SyncCoils(c, now)
    ensures SyncCoils(SyncCoils(c, now), now) == SyncCoils(c, now)
    ensures var d := SyncCoils(c, now);
            d.state == c.state && d.lock == c.lock
            && d.prechargeCoil == c.state.PrechargeBit() && d.runCoil == c.state.RunBit()
  {
  }

  // ---------- What one process step amounts to ----------

  function FaultState(pins: Pins): SupervisorState {
    if pins.InternalFault() then WaitingForInternalSafety
    else if pins.LoopFault() then WaitingForTractiveLoop
    else WaitingForShutdownCircuit
  }

  predicate PrechargeDone(pins: Pins) {
    pins.precharge99 && pins.prechargeInRange
  }

  function NextState(s: SupervisorState, enable: bool, pins: Pins): SupervisorState {
    match s
    case Initialising => s
    case NonResettableLatchingError => s
    case LatchingError => s
    case WaitingForPrechargeActivation =>
      if pins.Fault() then FaultState(pins) else if enable then StartedPrecharge else s
    case StartedPrecharge => if pins.Fault() then LatchingError else s
    case PrechargeMinimumTimeExceeded => if PrechargeDone(pins) then RaceReady else LatchingError
    case RaceReady => if pins.Fault() then LatchingError else s
    case _ =>
      if enable then LatchingError
      else if pins.Fault() then FaultState(pins)
      else WaitingForPrechargeActivation
  }

  function NextContactor(c: ContactorState, s: SupervisorState, enable: bool, pins: Pins): ContactorState {
    match s
    case WaitingForPrechargeActivation => if !pins.Fault() && enable then Precharge else c
    case StartedPrecharge => if pins.Fault() then AllOpen else c
    case PrechargeMinimumTimeExceeded =>
      if PrechargeDone(pins) && !pins.Fault() then HighCurrentRun else AllOpen
    case RaceReady => if pins.Fault() then AllOpen else c
    case _ => c
  }

  // The late fault: state 8 goes on to RaceReady although the check has just failed.
  predicate LateFault(s: SupervisorState, pins: Pins) {
    s == PrechargeMinimumTimeExceeded && pins.Fault() && PrechargeDone(pins)
  }

  /** The whole effect of a process step as a table over the state before it. */
  predicate ProcessEffect(p: Plant, pins: Pins, q: Plant) {
    && SameDriver(p, q)
    && q.state == NextState(p.state, p.enable, pins)
    && q.contactors == SyncCoils(p.contactors.(state := NextContactor(p.contactors.state, p.state, p.enable, pins)), p.clock)
    && q.prechargeDeadline == (if q.state != StartedPrecharge then None
                               else if p.state == StartedPrecharge then p.prechargeDeadline
                               else Some(p.clock + PRECHARGE_MINIMUM_TIME))
    && (q.state == StartedPrecharge ==> p.contactors.state.Operational())
    && (p.contactors.state.Operational() ==>
        q.sequenceErrors == p.sequenceErrors + if LateFault(p.state, pins) then 1 else 0)
  }

  lemma WaitingEffect(p: Plant, pins: Pins)
    requires Joint(p) && Waiting(p.state)
    ensures ProcessWaitingStates(p, pins).Some? ==>
            var c := ProcessWaitingStates(p, pins).value;
            && c.ok == !pins.Fault() && SameDriver(p, c.plant)
            && c.plant.contactors == p.contactors && c.plant.prechargeDeadline == None
            && c.plant.state == (if pins.Fault() then FaultState(pins) else p.state)
            && (p.contactors.state.Operational() ==> c.plant.sequenceErrors == p.sequenceErrors)
  {
    if pins.Fault() && CanTransition(p, FaultState(pins)) {
      OpeningTransition(p, FaultState(pins));
      SyncTwice(p.contactors, p.clock, AllOpen);
      assert p.contactors.(state := p.contactors.state) == p.contactors;
    }
  }

  lemma ActivatedEffect(p: Plant, pins: Pins)
    requires Joint(p) && p.state.Rank() >= StartedPrecharge.Rank()
    ensures var c := ProcessActivatedStates(p, pins);
            c == Some(Checked(if pins.Fault() then Settled(p, LatchingError) else p, !pins.Fault()))
  {
  }

  // Coils that agree with the contactor state stay as they are.
  lemma SteadySync(p: Plant)
    requires Joint(p)
    ensures SyncCoils(p.contactors.(state := p.contactors.state), p.clock) == p.contactors
    ensures p.state.Rank() <= WaitingForPrechargeActivation.Rank() ==>
            SyncCoils(p.contactors.(state := Forced(p.contactors.state)), p.clock) == p.contactors
  {
    assert p.contactors.(state := p.contactors.state) == p.contactors;
  }

  lemma ProcessWaitingMeets(p: Plant, pins: Pins, q: Plant)
    requires Joint(p) && Waiting(p.state) && p.state != WaitingForPrechargeActivation
    requires ProcessStep(p, pins) == Some(q)
    ensures ProcessEffect(p, pins, q)
  {
    WaitingEffect(p, pins);
    var c := ProcessWaitingStates(p, pins).value;
    SteadySync(p);
    if p.enable { OpeningTransition(c.plant, LatchingError); }
    else if c.ok { OpeningTransition(c.plant, WaitingForPrechargeActivation); }
  }

  lemma ProcessReadyMeets(p: Plant, pins: Pins, q: Plant)
    requires Joint(p) && p.state == WaitingForPrechargeActivation
    requires ProcessStep(p, pins) == Some(q)
    ensures ProcessEffect(p, pins, q)
  {
    WaitingEffect(p, pins);
    SteadySync(p);
    if !pins.Fault() {
      assert ProcessWaitingStates(p, pins) == Some(Checked(p, true));
    }
  }

  lemma ProcessIdleMeets(p: Plant, pins: Pins, q: Plant)
    requires Joint(p) && p.state.Rank() <= Initialising.Rank()
    requires ProcessStep(p, pins) == Some(q)
    ensures ProcessEffect(p, pins, q)
  {
    SteadySync(p);
  }

  // Latching an energised supervisor opens the contactors.
  lemma LatchedFrom(p: Plant)
    requires Joint(p) && p.state.Rank() >= StartedPrecharge.Rank()
    ensures var q := Settled(p, LatchingError);
            && CanTransition(p, LatchingError)
            && q.state == LatchingError && q.prechargeDeadline == None && SameDriver(p, q)
            && q.contactors == SyncCoils(p.contactors.(state := AllOpen), p.clock) && q.contactors.state == AllOpen
            && q.sequenceErrors == p.sequenceErrors
  {
    OpeningTransition(p, LatchingError);
  }

  lemma ProcessEnergisedMeets(p: Plant, pins: Pins, q: Plant)
    requires Joint(p) && (p.state == StartedPrecharge || p.state == RaceReady) && ProcessStep(p, pins) == Some(q)
    ensures ProcessEffect(p, pins, q)
  {
    ActivatedEffect(p, pins);
    LatchedFrom(p);
    SteadySync(p);
  }

  // Going on from PrechargeMinimumTimeExceeded without a fault.
  lemma ProcessHealthyMeets(p: Plant, pins: Pins, q: Plant)
    requires Joint(p) && p.state == PrechargeMinimumTimeExceeded && !pins.Fault() && ProcessStep(p, pins) == Some(q)
    ensures ProcessEffect(p, pins, q)
  {
    ActivatedEffect(p, pins);
    if !PrechargeDone(pins) { LatchedFrom(p); }
  }

  // Going on after the check has latched the supervisor: a second transition from open contactors
  // leaves them open, and only the request for HighCurrentRun is rejected.
  lemma LatchedThen(p: Plant, s: SupervisorState)
    requires Joint(p) && p.state == PrechargeMinimumTimeExceeded && (s == RaceReady || s == LatchingError)
    ensures var c := Settled(p, LatchingError);
            var q := Settled(c, s);
            && CanTransition(c, s)
            && q.state == s && q.prechargeDeadline == None && SameDriver(p, q)
            && q.contactors == SyncCoils(p.contactors.(state := AllOpen), p.clock)
            && q.sequenceErrors == p.sequenceErrors + if s == RaceReady then 1 else 0
  {
    LatchedFrom(p);
    var c := Settled(p, LatchingError);
    SyncTwice(p.contactors.(state := AllOpen), p.clock, AllOpen);
    assert Drive(c, AllOpen).contactors == c.contactors;
  }

  lemma ProcessFaultedMeets(p: Plant, pins: Pins, q: Plant)
    requires Joint(p) && p.state == PrechargeMinimumTimeExceeded && pins.Fault() && ProcessStep(p, pins) == Some(q)
    ensures ProcessEffect(p, pins, q)
  {
    ActivatedEffect(p, pins);
    var s := if PrechargeDone(pins) then RaceReady else LatchingError;
    LatchedThen(p, s);
    assert q == Settled(Settled(p, LatchingError), s);
  }

  lemma ProcessActivatedMeets(p: Plant, pins: Pins, q: Plant)
    requires Joint(p) && p.state.Rank() >= StartedPrecharge.Rank() && ProcessStep(p, pins) == Some(q)
    ensures ProcessEffect(p, pins, q)
  {
    if p.state == PrechargeMinimumTimeExceeded {
      if pins.Fault() { ProcessFaultedMeets(p, pins, q); } else { ProcessHealthyMeets(p, pins, q); }
    } else {
      ProcessEnergisedMeets(p, pins, q);
    }
  }

  lemma ProcessMeetsTable(p: Plant, pins: Pins, q: Plant)
    requires Joint(p) && ProcessStep(p, pins) == Some(q)
    ensures ProcessEffect(p, pins, q)
  {
    if p.state.Rank() >= StartedPrecharge.Rank() {
      ProcessActivatedMeets(p, pins, q);
    } else if p.state == WaitingForPrechargeActivation {
      ProcessReadyMeets(p, pins, q);
    } else if Waiting(p.state) {
      ProcessWaitingMeets(p, pins, q);
    } else {
      ProcessIdleMeets(p, pins, q);
    }
  }

  /** The whole effect of a notification. */
  predicate NotifyEffect(p: Plant, ev: Event, q: Plant) {
    && SameDriver(p, q)
    && (!NotifyRestarts(p.state, ev) ==> q == p)
    && (NotifyRestarts(p.state, ev) ==>
        && q.state == WaitingForInternalSafety && q.prechargeDeadline == None
        && q.contactors == SyncCoils(p.contactors.(state := Forced(p.contactors.state)), p.clock)
        && !q.contactors.prechargeCoil && !q.contactors.runCoil
        && (p.contactors.state.Operational() ==> q.sequenceErrors == p.sequenceErrors))
  }

  lemma NotifyMeets(p: Plant, ev: Event, q: Plant)
    requires Joint(p) && Notify(p, ev) == Some(q)
    ensures NotifyEffect(p, ev, q)
  {
    if NotifyRestarts(p.state, ev) {
      OpeningTransition(p, WaitingForInternalSafety);
      SyncTwice(p.contactors.(state := Forced(p.contactors.state)), p.clock, AllOpen);
    }
  }

  /** Every step as a table, without the recursion: what the guarantees are proved from. */
  predicate StepEffect(p: Plant, step: Step, q: Plant) {
    match step
    case BootSupervisor =>
      && p.state == Initialising
      && q == p.(state := WaitingForInternalSafety, sequenceErrors := q.sequenceErrors)
      && (p.contactors.state.Operational() ==> q.sequenceErrors == p.sequenceErrors)
    case BootContactors =>
      && p.contactors.state == ContactorsInitialising
      && q == p.(contactors := p.contactors.(state := AllOpen, prechargeFireOnce := false, runFireOnce := false))
    case Process(pins) => ProcessEffect(p, pins, q)
    case SetEnable(value) => p.toNotify.None? && q == StoreEnable(p, value)
    case DeliverEdge => p.toNotify.Some? && NotifyEffect(p.(toNotify := None), DriverEvent(p.toNotify.value), q)
    case Raise(error) => error.IsError() && NotifyEffect(p, error, q)
    case PrechargeTimerExpires =>
      && p.state == StartedPrecharge && p.prechargeDeadline.Some? && p.prechargeDeadline.value <= p.clock
      && q == p.(state := PrechargeMinimumTimeExceeded, prechargeDeadline := None)
    case PrechargeCoilTimerExpires =>
      && p.contactors.prechargeTimer.Some? && p.contactors.prechargeTimer.value <= p.clock
      && q == p.(contactors := p.contactors.(prechargeTimer := None, prechargePosted := p.contactors.prechargePosted + 1))
    case PrechargeCoilCallback =>
      && p.contactors.prechargePosted > 0
      && q == p.(contactors := p.contactors.(prechargePosted := p.contactors.prechargePosted - 1, prechargeFireOnce := true))
    case RunCoilTimerExpires =>
      && p.contactors.runTimer.Some? && p.contactors.runTimer.value <= p.clock
      && q == p.(contactors := p.contactors.(runTimer := None, runPosted := p.contactors.runPosted + 1))
    case RunCoilCallback =>
      && p.contactors.runPosted > 0
      && q == p.(contactors := p.contactors.(runPosted := p.contactors.runPosted - 1, runFireOnce := true))
    case Pass(millisec) => q == p.(clock := p.clock + millisec)
  }

  lemma BootSupervisorMeets(p: Plant, q: Plant)
    requires Joint(p) && Leads(p, BootSupervisor, q)
    ensures StepEffect(p, BootSupervisor, q)
  {
    OpeningTransition(p, WaitingForInternalSafety);
    SteadySync(p);
  }

  lemma StepMeets(p: Plant, step: Step, q: Plant)
    requires Joint(p) && Leads(p, step, q)
    ensures StepEffect(p, step, q)
  {
    match step
    case BootSupervisor => BootSupervisorMeets(p, q);
    case Process(pins) => ProcessMeetsTable(p, pins, q);
    case DeliverEdge => NotifyMeets(p.(toNotify := None), DriverEvent(p.toNotify.value), q);
    case Raise(error) => NotifyMeets(p, error, q);
    case _ =>
  }

  lemma ProcessKeepsJoint(p: Plant, pins: Pins, q: Plant)
    requires Joint(p) && ProcessEffect(p, pins, q)
    ensures Joint(q)
  {
    SyncTwice(p.contactors.(state := NextContactor(p.contactors.state, p.state, p.enable, pins)), p.clock, AllOpen);
  }

  lemma NotifyKeepsJoint(p: Plant, ev: Event, q: Plant)
    requires Joint(p) && NotifyEffect(p, ev, q)
    ensures Joint(q)
  {
    SyncTwice(p.contactors.(state := Forced(p.contactors.state)), p.clock, AllOpen);
  }

  lemma EffectKeepsJoint(p: Plant, step: Step, q: Plant)
    requires Joint(p) && StepEffect(p, step, q)
    ensures Joint(q)
  {
    match step
    case Process(pins) => ProcessKeepsJoint(p, pins, q);
    case DeliverEdge => NotifyKeepsJoint(p.(toNotify := None), DriverEvent(p.toNotify.value), q);
    case Raise(error) => NotifyKeepsJoint(p, error, q);
    case _ =>
  }

  /** The invariant is kept by every step. */
  lemma JointIsInductive(p: Plant, step: Step, q: Plant)
    requires Joint(p) && Leads(p, step, q)
    ensures Joint(q)
  {
    StepMeets(p, step, q);
    EffectKeepsJoint(p, step, q);
  }

  // A run seen through the tables.
  predicate IsTabledRun(states: seq<Plant>, steps: seq<Step>) {
    && |states| == |steps| + 1
    && states[0] == POWER_ON
    && (forall i :: 0 <= i < |states| ==> Joint(states[i]))
    && (forall i :: 0 <= i < |steps| ==> StepEffect(states[i], steps[i], states[i + 1]))
  }

  lemma {:induction false} JointAt(states: seq<Plant>, steps: seq<Step>, n: nat)
    requires IsRun(states, steps) && n < |states|
    ensures Joint(states[n])
    decreases n
  {
    if n > 0 {
      JointAt(states, steps, n - 1);
      JointIsInductive(states[n - 1], steps[n - 1], states[n]);
    }
  }

  lemma TabledAt(states: seq<Plant>, steps: seq<Step>, n: nat)
    requires IsRun(states, steps) && n < |steps|
    ensures StepEffect(states[n], steps[n], states[n + 1])
  {
    JointAt(states, steps, n);
    StepMeets(states[n], steps[n], states[n + 1]);
  }

  /** The joint invariant holds in every state of every run, and every step is as its table says. */
  lemma JointInvariant(states: seq<Plant>, steps: seq<Step>)
    requires IsRun(states, steps)
    ensures IsTabledRun(states, steps)
  {
    forall n | 0 <= n < |states| ensures Joint(states[n]) { JointAt(states, steps, n); }
    forall n | 0 <= n < |steps| ensures StepEffect(states[n], steps[n], states[n + 1]) { TabledAt(states, steps, n); }
  }
}

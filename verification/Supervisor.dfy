/** The tractive-system supervisor (StateController) and the contactor interlock
    (ContactorController) as functions on one shared state.

    The two controllers call each other: TransitionState asks PushState for a contactor
    state, a rejected request raises a sequence error through NotifyEvent, and NotifyEvent
    may ask TransitionState for WaitingForInternalSafety. The functions below follow that
    recursion call by call; `depth` bounds how many PushState calls may be nested, and the
    answer is None when the bound is hit. When the recursion ends, and what it then
    computes, is settled by RecursionSettles and RecursionDiverges. */
module Supervisor {
  import opened Wrappers

  const PRECHARGE_MINIMUM_TIME: nat := 5000
  const COIL_TIME: nat := 300  // pull-in and pull-out, precharge and run alike

  datatype SupervisorState =
    | NonResettableLatchingError
    | LatchingError
    | Initialising
    | WaitingForInternalSafety
    | WaitingForTractiveLoop
    | WaitingForShutdownCircuit
    | WaitingForPrechargeActivation
    | StartedPrecharge
    | PrechargeMinimumTimeExceeded
    | RaceReady
  {
    // The enumeration's numeric value; the controller compares states by it.
    function Rank(): nat {
      match this
      case NonResettableLatchingError => 0
      case LatchingError => 1
      case Initialising => 2
      case WaitingForInternalSafety => 3
      case WaitingForTractiveLoop => 4
      case WaitingForShutdownCircuit => 5
      case WaitingForPrechargeActivation => 6
      case StartedPrecharge => 7
      case PrechargeMinimumTimeExceeded => 8
      case RaceReady => 9
    }
  }

  datatype ContactorState =
    | ContactorsInitialising
    | LatchingMechanicalError
    | AllOpen
    | Precharge
    | HighCurrentRun
  {
    // The enumeration's numeric value: bit 2 drives the precharge coil, bit 3 the run coil.
    function Mask(): nat {
      match this
      case ContactorsInitialising => 0
      case LatchingMechanicalError => 1
      case AllOpen => 2
      case Precharge => 4
      case HighCurrentRun => 12
    }

    predicate PrechargeBit() {
      Mask() / 4 % 2 == 1
    }

    predicate RunBit() {
      Mask() / 8 % 2 == 1
    }

    // Past boot and not mechanically latched.
    predicate Operational() {
      Mask() >= AllOpen.Mask()
    }
  }

  datatype Event =
    | CANBusIntegrityError
    | StackPlausibilityError
    | HardwareOvercurrentError
    | InsulationMonitoringDeviceError
    | BatteryManagementSystemError
    | ContactorHardwareFaultError
    | ContactorSequenceError
    | DriverEnables
    | DriverDeactivates
  {
    predicate IsError() {
      !DriverEnables? && !DriverDeactivates?
    }
  }

  /** One reading of every input a process step may sample. */
  datatype Pins = Pins(bms: bool, imd: bool, disconnects: bool, contactorPower: bool,
                       precharge99: bool, prechargeInRange: bool)
  {
    predicate InternalFault() {
      !bms || !IsPlausible()
    }

    predicate LoopFault() {
      !imd || !disconnects
    }

    predicate Fault() {
      InternalFault() || LoopFault() || !contactorPower
    }
  }

  // The plausibility check of the stack voltages is compiled out: it always succeeds.
  predicate IsPlausible() {
    true
  }

  /** Timers are deadlines on the RTOS clock; None is a stopped timer. A coil's timer that expires
      posts its callback, which runs later: `prechargePosted` and `runPosted` count those posted and
      still to run. `lock` is the depth of the recursive mutex. */
  datatype Contactors = Contactors(
    state: ContactorState, prechargeCoil: bool, runCoil: bool,
    prechargeFireOnce: bool, runFireOnce: bool,
    prechargeTimer: Option<nat>, runTimer: Option<nat>,
    prechargePosted: nat, runPosted: nat,
    lock: nat)

  /** `toNotify` is the edge the CAN thread has stored in the enable bit but not yet reported.
      `sequenceErrors` counts the requests the interlock has rejected. */
  datatype Plant = Plant(
    state: SupervisorState, contactors: Contactors,
    enable: bool, toNotify: Option<bool>, prechargeDeadline: Option<nat>,
    clock: nat, lock: nat, sequenceErrors: nat)

  // ---------- The interlock ----------

  predicate Accepts(current: ContactorState, request: ContactorState) {
    match request
    case LatchingMechanicalError => true
    case AllOpen => current.Operational()
    case Precharge => current == AllOpen
    case HighCurrentRun => current == Precharge
    case ContactorsInitialising => false
  }

  /** Drives both coils from the contactor state; a coil that toggles restarts its error timer. */
  function SyncCoils(c: Contactors, now: nat): Contactors {
    var precharge := c.state.PrechargeBit();
    var run := c.state.RunBit();
    var c1 := if precharge != c.prechargeCoil
              then c.(prechargeCoil := precharge, prechargeFireOnce := false, prechargeTimer := Some(now + COIL_TIME))
              else c;
    if run != c.runCoil
    then c1.(runCoil := run, runFireOnce := false, runTimer := Some(now + COIL_TIME))
    else c1
  }

  /** All the pairs the interlock accepts. */
  lemma AcceptedPairs(current: ContactorState, request: ContactorState)
    ensures Accepts(current, request) <==>
            || request == LatchingMechanicalError
            || (current, request) == (AllOpen, AllOpen)
            || (current, request) == (Precharge, AllOpen)
            || (current, request) == (HighCurrentRun, AllOpen)
            || (current, request) == (AllOpen, Precharge)
            || (current, request) == (Precharge, HighCurrentRun)
  {
  }

  function WithContactorState(p: Plant, s: ContactorState): Plant {
    p.(contactors := p.contactors.(state := s))
  }

  // What PushState does once the sequence error has been raised.
  function ForceOpen(p: Plant): Plant {
    if p.contactors.state.Mask() > AllOpen.Mask() then WithContactorState(p, AllOpen) else p
  }

  function LockContactors(p: Plant): Plant {
    p.(contactors := p.contactors.(lock := p.contactors.lock + 1))
  }

  function SyncAndUnlock(p: Plant): Plant
    requires p.contactors.lock > 0
  {
    var c := SyncCoils(p.contactors, p.clock);
    p.(contactors := c.(lock := c.lock - 1))
  }

  // ---------- The mutual recursion ----------

  function PushState(depth: nat, p: Plant, request: ContactorState): (r: Option<Plant>)
    ensures r.Some? ==> r.value.contactors.lock == p.contactors.lock && r.value.lock == p.lock && r.value.clock == p.clock
    decreases depth, 0
  {
    if depth == 0 then None
    else
      var held := LockContactors(p);
      if Accepts(held.contactors.state, request)
      then Some(SyncAndUnlock(WithContactorState(held, request)))
      else
        var raised := held.(sequenceErrors := held.sequenceErrors + 1);
        var notified :- NotifyEvent(depth - 1, raised, ContactorSequenceError);
        Some(SyncAndUnlock(ForceOpen(notified)))
  }

  function NotifyEvent(depth: nat, p: Plant, ev: Event): (r: Option<Plant>)
    ensures r.Some? ==> r.value.contactors.lock == p.contactors.lock && r.value.lock == p.lock && r.value.clock == p.clock
    ensures r.Some? ==> if ev == DriverEnables || p.state == NonResettableLatchingError || p.state == Initialising
                           || (p.state == LatchingError && ev != DriverDeactivates)
                           || (p.state == WaitingForInternalSafety && ev != DriverDeactivates)
                        then r.value == p
                        else r.value.state == WaitingForInternalSafety && r.value.prechargeDeadline == None
    decreases depth, 2
  {
    var held := p.(lock := p.lock + 1);
    var after :- if NotifyRestarts(p.state, ev)
                 then TransitionState(depth, held, WaitingForInternalSafety)
                 else Some(held);
    Some(after.(lock := after.lock - 1))
  }

  // Whether an event sends the supervisor back to WaitingForInternalSafety.
  predicate NotifyRestarts(s: SupervisorState, ev: Event) {
    match ev
    case DriverDeactivates => s == LatchingError || s.Rank() >= WaitingForInternalSafety.Rank()
    case DriverEnables => false
    case _ => s.Rank() > WaitingForInternalSafety.Rank()
  }

  function TransitionState(depth: nat, p: Plant, s: SupervisorState): (r: Option<Plant>)
    ensures r.Some? ==> r.value.contactors.lock == p.contactors.lock && r.value.lock == p.lock
    ensures r.Some? ==> r.value.state == s && r.value.clock == p.clock
    ensures r.Some? ==> match s
                        case StartedPrecharge => r.value.prechargeDeadline == Some(p.clock + 5000)
                        case PrechargeMinimumTimeExceeded => r.value.prechargeDeadline == p.prechargeDeadline
                        case RaceReady => true
                        case _ => r.value.prechargeDeadline == None
    decreases depth, 1
  {
    match s
    case StartedPrecharge =>
      var q :- PushState(depth, p, Precharge);
      Some(q.(prechargeDeadline := Some(q.clock + PRECHARGE_MINIMUM_TIME), state := s))
    case PrechargeMinimumTimeExceeded =>
      Some(p.(state := s))
    case RaceReady =>
      var q :- PushState(depth, p, HighCurrentRun);
      Some(q.(state := s))
    case _ =>
      var q :- PushState(depth, p, AllOpen);
      Some(q.(prechargeDeadline := None, state := s))
  }

  // ---------- When the recursion ends, and what it computes ----------

  /** The condition a caller can check before calling TransitionState. */
  predicate CanTransition(p: Plant, s: SupervisorState) {
    || p.contactors.state.Operational()
    || p.state.Rank() <= WaitingForInternalSafety.Rank()
    || s == PrechargeMinimumTimeExceeded
  }

  function Request(s: SupervisorState): ContactorState {
    if s == StartedPrecharge then Precharge
    else if s == RaceReady then HighCurrentRun
    else AllOpen
  }

  predicate Rejected(p: Plant, s: SupervisorState) {
    s != PrechargeMinimumTimeExceeded && !Accepts(p.contactors.state, Request(s))
  }

  // The interlock accepts or is forced into state c and drives its coils.
  function Drive(p: Plant, c: ContactorState): Plant {
    p.(contactors := SyncCoils(p.contactors.(state := c), p.clock))
  }

  // The contactor state a rejected request leaves behind.
  function Forced(c: ContactorState): ContactorState {
    if c.Operational() then AllOpen else c
  }

  // The sequence error a rejected request raises: counted, and above WaitingForInternalSafety
  // the supervisor is sent back there with its timer stopped.
  function ErrorRaised(p: Plant): Plant {
    var q := p.(sequenceErrors := p.sequenceErrors + 1);
    if p.state.Rank() > WaitingForInternalSafety.Rank()
    then q.(state := WaitingForInternalSafety, prechargeDeadline := None)
    else q
  }

  /** The net effect of a request, without recursion: accepted requests become the contactor
      state, rejected ones raise the error and open the contactors unless they are not
      operational. */
  function Pushed(p: Plant, request: ContactorState): Plant {
    if Accepts(p.contactors.state, request) then Drive(p, request)
    else Drive(ErrorRaised(p), Forced(p.contactors.state))
  }

  /** The net effect of a transition, without recursion. */
  function Settled(p: Plant, s: SupervisorState): Plant {
    match s
    case StartedPrecharge =>
      Pushed(p, Precharge).(state := s, prechargeDeadline := Some(p.clock + PRECHARGE_MINIMUM_TIME))
    case PrechargeMinimumTimeExceeded => p.(state := s)
    case RaceReady => Pushed(p, HighCurrentRun).(state := s)
    case _ => Pushed(p, AllOpen).(state := s, prechargeDeadline := None)
  }

  lemma SyncUnderLock(c: Contactors, now: nat, depth: nat)
    ensures SyncCoils(c.(lock := depth), now) == SyncCoils(c, now).(lock := depth)
    ensures SyncCoils(SyncCoils(c, now), now) == SyncCoils(c, now)
    ensures SyncCoils(c, now).state == c.state && SyncCoils(c, now).lock == c.lock
  {
  }

  lemma DriveHeld(p: Plant, c: ContactorState)
    ensures SyncAndUnlock(WithContactorState(LockContactors(p), c)) == Drive(p, c)
  {
    SyncUnderLock(p.contactors.(state := c), p.clock, p.contactors.lock + 1);
  }

  lemma DriveTwice(p: Plant, c: ContactorState)
    ensures SyncAndUnlock(Drive(LockContactors(p), c)) == Drive(p, c)
  {
    var driven := p.contactors.(state := c);
    SyncUnderLock(driven, p.clock, p.contactors.lock + 1);
    SyncUnderLock(driven.(lock := p.contactors.lock + 1), p.clock, p.contactors.lock);
  }

  lemma DriveUnderLock(p: Plant, c: ContactorState)
    ensures SyncAndUnlock(WithContactorState(LockContactors(p), c)) == Drive(p, c)
    ensures SyncAndUnlock(Drive(LockContactors(p), c)) == Drive(p, c)
  {
    DriveHeld(p, c);
    DriveTwice(p, c);
  }

  lemma PushAccepted(depth: nat, p: Plant, request: ContactorState)
    requires depth >= 1 && Accepts(p.contactors.state, request)
    ensures PushState(depth, p, request) == Some(Pushed(p, request))
  {
    DriveUnderLock(p, request);
  }

  // A rejected request while the supervisor has nothing to abandon.
  lemma PushRejectedLow(depth: nat, p: Plant, request: ContactorState)
    requires depth >= 1 && !Accepts(p.contactors.state, request)
    requires p.state.Rank() <= WaitingForInternalSafety.Rank()
    ensures PushState(depth, p, request) == Some(Pushed(p, request))
  {
    var raised := LockContactors(p).(sequenceErrors := p.sequenceErrors + 1);
    assert NotifyEvent(depth - 1, raised, ContactorSequenceError) == Some(raised);
    assert ForceOpen(raised) == WithContactorState(LockContactors(ErrorRaised(p)), Forced(p.contactors.state));
    DriveUnderLock(ErrorRaised(p), Forced(p.contactors.state));
  }

  // A rejected request whose nested transition does not return does not return either.
  lemma PushDiverges(depth: nat, p: Plant, request: ContactorState)
    requires !Accepts(p.contactors.state, request) && p.state.Rank() > WaitingForInternalSafety.Rank()
    requires depth > 0 ==>
             var raised := LockContactors(p).(sequenceErrors := p.sequenceErrors + 1);
             TransitionState(depth - 1, raised.(lock := raised.lock + 1), WaitingForInternalSafety) == None
    ensures PushState(depth, p, request) == None
  {
    if depth > 0 {
      var raised := LockContactors(p).(sequenceErrors := p.sequenceErrors + 1);
      assert NotifyEvent(depth - 1, raised, ContactorSequenceError) == None;
    }
  }

  // A rejected request from an operational interlock above WaitingForInternalSafety: the nested
  // transition needs a second PushState call ...
  lemma PushRejectedOnce(p: Plant, request: ContactorState)
    requires !Accepts(p.contactors.state, request) && p.state.Rank() > WaitingForInternalSafety.Rank()
    ensures PushState(1, p, request) == None
  {
    PushDiverges(1, p, request);
  }

  // ... which opens the contactors and is itself accepted.
  lemma PushRejectedHigh(depth: nat, p: Plant, request: ContactorState)
    requires depth >= 2 && !Accepts(p.contactors.state, request) && p.contactors.state.Operational()
    requires p.state.Rank() > WaitingForInternalSafety.Rank()
    ensures PushState(depth, p, request) == Some(Pushed(p, request))
  {
    var raised := LockContactors(p).(sequenceErrors := p.sequenceErrors + 1);
    var held := raised.(lock := raised.lock + 1);
    NestedRestart(depth - 1, held);
    var back := Drive(LockContactors(ErrorRaised(p)), AllOpen);
    assert Settled(held, WaitingForInternalSafety) == back.(lock := held.lock);
    assert NotifyEvent(depth - 1, raised, ContactorSequenceError) == Some(back);
    SyncUnderLock(LockContactors(p).contactors.(state := AllOpen), p.clock, 0);
    assert ForceOpen(back) == back;
    DriveUnderLock(ErrorRaised(p), AllOpen);
  }

  lemma NestedRestart(depth: nat, p: Plant)
    requires depth >= 1 && p.contactors.state.Operational()
    ensures TransitionState(depth, p, WaitingForInternalSafety)
         == Some(Settled(p, WaitingForInternalSafety))
  {
    PushAccepted(depth, p, AllOpen);
  }

  lemma PushSettles(depth: nat, p: Plant, request: ContactorState)
    requires p.contactors.state.Operational() || p.state.Rank() <= WaitingForInternalSafety.Rank()
    ensures depth >= 2 ==> PushState(depth, p, request) == Some(Pushed(p, request))
    ensures depth == 1 ==> (PushState(depth, p, request).Some?
         <==> Accepts(p.contactors.state, request) || p.state.Rank() <= WaitingForInternalSafety.Rank())
  {
    if depth >= 1 {
      if Accepts(p.contactors.state, request) {
        PushAccepted(depth, p, request);
      } else if p.state.Rank() <= WaitingForInternalSafety.Rank() {
        PushRejectedLow(depth, p, request);
      } else if depth == 1 {
        PushRejectedOnce(p, request);
      } else {
        PushRejectedHigh(depth, p, request);
      }
    }
  }

  // What TransitionState does after its request.
  function Finished(q: Plant, s: SupervisorState): Plant {
    match s
    case StartedPrecharge => q.(prechargeDeadline := Some(q.clock + PRECHARGE_MINIMUM_TIME), state := s)
    case RaceReady => q.(state := s)
    case _ => q.(prechargeDeadline := None, state := s)
  }

  lemma TransitionAsRequest(depth: nat, p: Plant, s: SupervisorState)
    requires s != PrechargeMinimumTimeExceeded
    ensures var q := PushState(depth, p, Request(s));
            TransitionState(depth, p, s) == if q.None? then None else Some(Finished(q.value, s))
    ensures Settled(p, s) == Finished(Pushed(p, Request(s)), s)
  {
  }

  /** Under CanTransition two nested PushState calls are always enough, every deeper bound gives
      the same answer, and one is enough exactly when the request is accepted or there is nothing
      to abandon. */
  lemma RecursionSettles(depth: nat, p: Plant, s: SupervisorState)
    requires CanTransition(p, s)
    ensures depth >= 2 ==> TransitionState(depth, p, s) == Some(Settled(p, s))
    ensures TransitionState(1, p, s).Some? <==> !(Rejected(p, s) && p.state.Rank() > WaitingForInternalSafety.Rank())
  {
    if s != PrechargeMinimumTimeExceeded {
      TransitionAsRequest(1, p, s);
      TransitionAsRequest(depth, p, s);
      PushSettles(1, p, Request(s));
      PushSettles(depth, p, Request(s));
    }
  }

  /** Otherwise no bound is large enough: the rejected request re-enters TransitionState from the
      same supervisor state for ever. */
  lemma {:induction false} RecursionDiverges(depth: nat, p: Plant, s: SupervisorState)
    requires !CanTransition(p, s)
    ensures TransitionState(depth, p, s) == None
    decreases depth
  {
    if depth > 0 {
      var raised := LockContactors(p).(sequenceErrors := p.sequenceErrors + 1);
      RecursionDiverges(depth - 1, raised.(lock := raised.lock + 1), WaitingForInternalSafety);
    }
    PushDiverges(depth, p, Request(s));
    TransitionAsRequest(depth, p, s);
  }

  /** What a call of TransitionState does: None means that it never returns. */
  function Transition(p: Plant, s: SupervisorState): Option<Plant> {
    if CanTransition(p, s) then Some(Settled(p, s)) else None
  }

  lemma ConditionInStates(p: Plant, s: SupervisorState)
    ensures CanTransition(p, s) <==>
            || p.contactors.state == AllOpen || p.contactors.state == Precharge || p.contactors.state == HighCurrentRun
            || p.state == NonResettableLatchingError || p.state == LatchingError
            || p.state == Initialising || p.state == WaitingForInternalSafety
            || s == PrechargeMinimumTimeExceeded
  {
  }

  // Some bound is large enough for the call to return.
  ghost predicate Finishes(p: Plant, s: SupervisorState) {
    exists depth: nat :: TransitionState(depth, p, s).Some?
  }

  lemma FinishesIff(p: Plant, s: SupervisorState)
    ensures Finishes(p, s) <==> CanTransition(p, s)
    ensures forall depth :: depth >= 2 ==> TransitionState(depth, p, s) == Transition(p, s)
  {
    forall depth: nat
      ensures depth >= 2 ==> TransitionState(depth, p, s) == Transition(p, s)
      ensures !CanTransition(p, s) ==> TransitionState(depth, p, s).None?
    {
      if CanTransition(p, s) {
        RecursionSettles(depth, p, s);
      } else {
        RecursionDiverges(depth, p, s);
      }
    }
    assert CanTransition(p, s) ==> TransitionState(2, p, s).Some?;
  }

  /** The recursion returns exactly from an initialised interlock, or with nothing to abandon, or for
      the one state that makes no request; and from two nested PushState calls on, the bound no longer
      matters. */
  lemma TransitionFinishesIff(p: Plant, s: SupervisorState)
    ensures Finishes(p, s) <==>
            || p.contactors.state == AllOpen || p.contactors.state == Precharge || p.contactors.state == HighCurrentRun
            || p.state == NonResettableLatchingError || p.state == LatchingError
            || p.state == Initialising || p.state == WaitingForInternalSafety
            || s == PrechargeMinimumTimeExceeded
    ensures forall depth :: depth >= 2 ==> TransitionState(depth, p, s) == Transition(p, s)
  {
    FinishesIff(p, s);
    ConditionInStates(p, s);
  }
}

/** The two controllers as the objects they are: fields updated in place, PushState re-entering
    the supervisor halfway, locks taken and released. Every method is proved to compute the
    function of module Supervisor or SupervisorRuns that the guarantees are about. `depth` is the
    ghost bound on nested PushState calls under which the call is known to return. */
module Controllers {
  import opened Wrappers
  import opened S = Supervisor
  import R = SupervisorRuns

  class ContactorController {
    var currentState: ContactorState
    var prechargeCoil: bool
    var runCoil: bool
    var prechargeFireOnce: bool
    var runFireOnce: bool
    var prechargeErrorTimer: Option<nat>
    var runErrorTimer: Option<nat>
    var prechargePosted: nat
    var runPosted: nat
    var lockDepth: nat

    ghost function View(): Contactors
      reads this
    {
      Contactors(currentState, prechargeCoil, runCoil, prechargeFireOnce, runFireOnce,
                   prechargeErrorTimer, runErrorTimer, prechargePosted, runPosted, lockDepth)
    }

    constructor ()
      ensures View() == R.POWER_ON.contactors
    {
      currentState := ContactorsInitialising;
      prechargeCoil, runCoil := false, false;
      prechargeFireOnce, runFireOnce := false, false;
      prechargeErrorTimer, runErrorTimer := None, None;
      prechargePosted, runPosted := 0, 0;
      lockDepth := 0;
    }

    method Initialise()
      modifies this
      ensures View() == old(View()).(state := AllOpen, prechargeFireOnce := false, runFireOnce := false)
    {
      lockDepth := lockDepth + 1;
      currentState := AllOpen;
      lockDepth := lockDepth - 1;
      prechargeFireOnce := false;
      runFireOnce := false;
    }

    // Both coils follow the state mask; a toggled coil restarts its error timer.
    method SyncCoils(clock: nat)
      modifies this
      ensures View() == S.SyncCoils(old(View()), clock)
      ensures prechargeErrorTimer == if prechargeCoil != old(prechargeCoil) then Some(clock + 300) else old(prechargeErrorTimer)
      ensures runErrorTimer == if runCoil != old(runCoil) then Some(clock + 300) else old(runErrorTimer)
    {
      var prechargeWas, runWas := prechargeCoil, runCoil;
      prechargeCoil := currentState.PrechargeBit();
      runCoil := currentState.RunBit();
      if prechargeWas != prechargeCoil {
        prechargeFireOnce := false;
        prechargeErrorTimer := Some(clock + COIL_TIME);
      }
      if runWas != runCoil {
        runFireOnce := false;
        runErrorTimer := Some(clock + COIL_TIME);
      }
    }

    // The switch over the requested state.
    method Interlock(request: ContactorState) returns (raiseSequenceError: bool)
      modifies this`currentState
      ensures raiseSequenceError <==> !Accepts(old(currentState), request)
      ensures !raiseSequenceError <==>
              || request == LatchingMechanicalError
              || (request == AllOpen && (old(currentState) == AllOpen || old(currentState) == Precharge || old(currentState) == HighCurrentRun))
              || (request == Precharge && old(currentState) == AllOpen)
              || (request == HighCurrentRun && old(currentState) == Precharge)
      ensures currentState == if raiseSequenceError then old(currentState) else request
    {
      raiseSequenceError := true;
      match request {
        case LatchingMechanicalError =>
          currentState := LatchingMechanicalError;
          raiseSequenceError := false;
        case AllOpen =>
          if currentState.Operational() {
            currentState := AllOpen;
            raiseSequenceError := false;
          }
        case Precharge =>
          if currentState == AllOpen {
            currentState := Precharge;
            raiseSequenceError := false;
          }
        case HighCurrentRun =>
          if currentState == Precharge {
            currentState := HighCurrentRun;
            raiseSequenceError := false;
          }
        case ContactorsInitialising =>
      }
    }

    method SyncAndUnlock(owner: StateController)
      requires owner.contactors == this && lockDepth > 0
      modifies this
      ensures owner.View() == S.SyncAndUnlock(old(owner.View()))
    {
      SyncCoils(owner.clock);
      lockDepth := lockDepth - 1;
    }

    // The error path: the supervisor is told, and may re-enter PushState.
    method RaiseSequenceError(owner: StateController, ghost depth: nat)
      requires owner.contactors == this && depth > 0
      requires S.NotifyEvent(depth - 1, owner.View().(sequenceErrors := owner.sequenceErrors + 1), ContactorSequenceError).Some?
      modifies this, owner
      ensures var notified := S.NotifyEvent(depth - 1, old(owner.View()).(sequenceErrors := old(owner.sequenceErrors) + 1), ContactorSequenceError);
              notified.Some? && owner.View() == ForceOpen(notified.value)
      decreases depth, 0
    {
      owner.sequenceErrors := owner.sequenceErrors + 1;
      owner.NotifyEvent(ContactorSequenceError, depth - 1);
      if currentState.Mask() > AllOpen.Mask() {
        currentState := AllOpen;
      }
    }

    method PushState(owner: StateController, request: ContactorState, ghost depth: nat)
      requires owner.contactors == this
      requires S.PushState(depth, owner.View(), request).Some?
      modifies this, owner
      ensures S.PushState(depth, old(owner.View()), request) == Some(owner.View())
      decreases depth, 1
    {
      ghost var held := LockContactors(owner.View());
      lockDepth := lockDepth + 1;
      var raiseSequenceError := Interlock(request);
      if raiseSequenceError {
        assert owner.View() == held;
        RaiseSequenceError(owner, depth);
      } else {
        assert owner.View() == WithContactorState(held, request);
      }
      SyncAndUnlock(owner);
    }

    // The RTOS tick stops an expired timer and posts its callback.
    method PrechargeTimerExpires()
      requires prechargeErrorTimer.Some?
      modifies this
      ensures View() == old(View()).(prechargeTimer := None, prechargePosted := old(prechargePosted) + 1)
    {
      prechargeErrorTimer := None;
      prechargePosted := prechargePosted + 1;
    }

    method RunTimerExpires()
      requires runErrorTimer.Some?
      modifies this
      ensures View() == old(View()).(runTimer := None, runPosted := old(runPosted) + 1)
    {
      runErrorTimer := None;
      runPosted := runPosted + 1;
    }

    // The timer thread runs a posted callback, whatever has happened to the coil and its timer since.
    method PrechargeToggleCallback()
      requires prechargePosted > 0
      modifies this
      ensures View() == old(View()).(prechargePosted := old(prechargePosted) - 1, prechargeFireOnce := true)
    {
      prechargePosted := prechargePosted - 1;
      prechargeFireOnce := true;
    }

    method RunToggleCallback()
      requires runPosted > 0
      modifies this
      ensures View() == old(View()).(runPosted := old(runPosted) - 1, runFireOnce := true)
    {
      runPosted := runPosted - 1;
      runFireOnce := true;
    }
  }

  class StateController {
    const contactors: ContactorController
    var currentState: SupervisorState
    var tractivePowerEnable: bool
    var prechargeDeadline: Option<nat>
    var clock: nat
    var lockDepth: nat
    var toNotify: Option<bool>  // the CAN thread's, between its two steps
    ghost var sequenceErrors: nat

    ghost function View(): Plant
      reads this, contactors
    {
      Plant(currentState, contactors.View(), tractivePowerEnable, toNotify, prechargeDeadline,
              clock, lockDepth, sequenceErrors)
    }

    // The state without the depth of the supervisor's own lock, which every method restores.
    ghost function Core(): Plant
      reads this, contactors
    {
      View().(lock := 0)
    }

    constructor ()
      ensures View() == R.POWER_ON && fresh(contactors)
    {
      var c := new ContactorController();
      contactors := c;
      currentState := Initialising;
      tractivePowerEnable := false;
      prechargeDeadline := None;
      clock, lockDepth := 0, 0;
      toNotify := None;
      sequenceErrors := 0;
    }

    method TransitionState(s: SupervisorState, ghost depth: nat)
      requires S.TransitionState(depth, View(), s).Some?
      modifies this, contactors
      ensures S.TransitionState(depth, old(View()), s) == Some(View())
      ensures currentState == s && (s == StartedPrecharge ==> prechargeDeadline == Some(clock + 5000))
      decreases depth, 2
    {
      match s {
        case StartedPrecharge =>
          contactors.PushState(this, Precharge, depth);
          prechargeDeadline := Some(clock + PRECHARGE_MINIMUM_TIME);
        case PrechargeMinimumTimeExceeded =>
        case RaceReady =>
          contactors.PushState(this, HighCurrentRun, depth);
        case _ =>
          contactors.PushState(this, AllOpen, depth);
          prechargeDeadline := None;
      }
      currentState := s;
    }

    method NotifyEvent(ev: Event, ghost depth: nat)
      requires S.NotifyEvent(depth, View(), ev).Some?
      modifies this, contactors
      ensures S.NotifyEvent(depth, old(View()), ev) == Some(View())
      decreases depth, 3
    {
      lockDepth := lockDepth + 1;
      match ev {
        case DriverDeactivates =>
          if currentState == LatchingError || currentState.Rank() >= WaitingForInternalSafety.Rank() {
            TransitionState(WaitingForInternalSafety, depth);
          }
        case DriverEnables =>
        case _ =>
          if currentState.Rank() > WaitingForInternalSafety.Rank() {
            TransitionState(WaitingForInternalSafety, depth);
          }
      }
      lockDepth := lockDepth - 1;
    }

    // TransitionState as its callers meet it: two nested PushState calls are always enough.
    method Transit(s: SupervisorState)
      requires Transition(Core(), s).Some?
      modifies this, contactors
      ensures Transition(old(Core()), s) == Some(Core()) && lockDepth == old(lockDepth)
    {
      TransitionUnderLock(View(), s, 0);
      TransitionFinishesIff(View(), s);
      TransitionState(s, 2);
    }

    method Initialise()
      requires Transition(Core(), WaitingForInternalSafety).Some?
      modifies this, contactors
      ensures Transition(old(Core()), WaitingForInternalSafety) == Some(Core()) && lockDepth == old(lockDepth)
    {
      lockDepth := lockDepth + 1;
      Transit(WaitingForInternalSafety);
      lockDepth := lockDepth - 1;
    }

    // The RTOS calls this when the one-shot precharge timer has expired.
    method PrechargeTimerFire()
      requires R.Enabled(Core(), R.PrechargeTimerExpires)
      modifies this, contactors
      ensures R.Apply(old(Core()), R.PrechargeTimerExpires) == Some(Core()) && lockDepth == old(lockDepth)
    {
      prechargeDeadline := None;
      lockDepth := lockDepth + 1;
      if currentState == StartedPrecharge {
        Transit(PrechargeMinimumTimeExceeded);
      }
      lockDepth := lockDepth - 1;
    }

    method StoreEnable(value: bool) returns (transition: bool)
      requires toNotify.None?
      modifies this
      ensures View() == R.StoreEnable(old(View()), value)
      ensures transition == (View().toNotify == Some(value)) && transition == (value != old(tractivePowerEnable))
    {
      transition := false;
      if value != tractivePowerEnable {
        transition := true;
      }
      tractivePowerEnable := value;
      toNotify := if transition then Some(value) else None;
    }

    // NotifyEvent as its callers meet it.
    method Report(ev: Event)
      requires R.Notify(Core(), ev).Some?
      modifies this, contactors
      ensures R.Notify(old(Core()), ev) == Some(Core()) && lockDepth == old(lockDepth)
    {
      NotifyUnderLock(View(), ev, 0);
      NotifyReturns(2, View(), ev);
      NotifyEvent(ev, 2);
    }

    method DeliverEdge(value: bool)
      requires toNotify == Some(value) && R.Apply(Core(), R.DeliverEdge).Some?
      modifies this, contactors
      ensures R.Apply(old(Core()), R.DeliverEdge) == Some(Core()) && lockDepth == old(lockDepth)
    {
      toNotify := None;
      Report(R.DriverEvent(value));
    }

    method ProcessWaitingStates(pins: Pins) returns (ok: bool)
      requires R.ProcessWaitingStates(Core(), pins).Some?
      modifies this, contactors
      ensures R.ProcessWaitingStates(old(Core()), pins) == Some(R.Checked(Core(), ok)) && lockDepth == old(lockDepth)
      ensures ok <==> pins.bms && pins.imd && pins.disconnects && pins.contactorPower
      ensures currentState == if !pins.bms then WaitingForInternalSafety
                              else if !pins.imd || !pins.disconnects then WaitingForTractiveLoop
                              else if !pins.contactorPower then WaitingForShutdownCircuit
                              else old(currentState)
    {
      if pins.InternalFault() {
        Transit(WaitingForInternalSafety);
        return false;
      }
      if pins.LoopFault() {
        Transit(WaitingForTractiveLoop);
        return false;
      }
      if !pins.contactorPower {
        Transit(WaitingForShutdownCircuit);
        return false;
      }
      return true;
    }

    method ProcessActivatedStates(pins: Pins) returns (ok: bool)
      requires R.ProcessActivatedStates(Core(), pins).Some?
      modifies this, contactors
      ensures R.ProcessActivatedStates(old(Core()), pins) == Some(R.Checked(Core(), ok)) && lockDepth == old(lockDepth)
      ensures ok <==> pins.bms && pins.imd && pins.disconnects && pins.contactorPower
      ensures currentState == if ok then old(currentState) else LatchingError
    {
      if pins.InternalFault() {
        Transit(LatchingError);
        return false;
      }
      if pins.LoopFault() {
        Transit(LatchingError);
        return false;
      }
      if !pins.contactorPower {
        Transit(LatchingError);
        return false;
      }
      return true;
    }

    // The switch of the process step, under the lock.
    method ProcessLocked(pins: Pins)
      requires R.ProcessStep(Core(), pins).Some?
      modifies this, contactors
      ensures R.ProcessStep(old(Core()), pins) == Some(Core()) && lockDepth == old(lockDepth)
    {
      match currentState {
        case Initialising =>
        case NonResettableLatchingError =>
        case LatchingError =>
        case WaitingForPrechargeActivation =>
          var ok := ProcessWaitingStates(pins);
          if ok && tractivePowerEnable {
            Transit(StartedPrecharge);
          }
        case StartedPrecharge =>
          var ok := ProcessActivatedStates(pins);
        case PrechargeMinimumTimeExceeded =>
          var ok := ProcessActivatedStates(pins);
          if pins.precharge99 && pins.prechargeInRange {
            Transit(RaceReady);
          } else {
            Transit(LatchingError);
          }
        case RaceReady =>
          var ok := ProcessActivatedStates(pins);
        case _ =>
          var ok := ProcessWaitingStates(pins);
          if tractivePowerEnable {
            Transit(LatchingError);
          } else if ok {
            Transit(WaitingForPrechargeActivation);
          }
      }
    }

    method ProcessStep(pins: Pins)
      requires R.ProcessStep(Core(), pins).Some?
      modifies this, contactors
      ensures R.ProcessStep(old(Core()), pins) == Some(Core()) && lockDepth == old(lockDepth)
    {
      lockDepth := lockDepth + 1;
      ProcessLocked(pins);
      lockDepth := lockDepth - 1;
    }

    /** Any step of a run, by the agent that takes it. */
    method TakeStep(step: R.Step)
      requires R.Enabled(Core(), step) && R.Apply(Core(), step).Some?
      modifies this, contactors
      ensures R.Apply(old(Core()), step) == Some(Core()) && lockDepth == old(lockDepth)
    {
      match step {
        case BootSupervisor => Initialise();
        case BootContactors => contactors.Initialise();
        case Process(pins) => ProcessStep(pins);
        case SetEnable(value) => var transition := StoreEnable(value);
        case DeliverEdge => DeliverEdge(toNotify.value);
        case Raise(error) => Report(error);
        case PrechargeTimerExpires => PrechargeTimerFire();
        case PrechargeCoilTimerExpires => contactors.PrechargeTimerExpires();
        case PrechargeCoilCallback => contactors.PrechargeToggleCallback();
        case RunCoilTimerExpires => contactors.RunTimerExpires();
        case RunCoilCallback => contactors.RunToggleCallback();
        case Pass(millisec) => clock := clock + millisec;
      }
    }

    method TakeAll(steps: seq<R.Step>)
      requires Taken(Core(), steps).Some?
      modifies this, contactors
      ensures Taken(old(Core()), steps) == Some(Core()) && lockDepth == old(lockDepth)
    {
      var i := 0;
      while i < |steps|
        invariant 0 <= i <= |steps| && lockDepth == old(lockDepth)
        invariant Taken(Core(), steps[i..]) == Taken(old(Core()), steps)
      {
        assert steps[i..][1..] == steps[i + 1..];
        TakeStep(steps[i]);
        i := i + 1;
      }
    }

    /** The CAN command, with the steps of other agents that come between storing the bit and
        notifying. */
    method PushTractiveEnable(value: bool, between: seq<R.Step>)
      requires toNotify.None? && OfOthers(between)
      requires value != tractivePowerEnable ==> Taken(R.StoreEnable(Core(), value), between + [R.DeliverEdge]).Some?
      modifies this, contactors
      ensures value == old(tractivePowerEnable) ==> Core() == old(Core())
      ensures value != old(tractivePowerEnable) ==>
              Taken(R.StoreEnable(old(Core()), value), between + [R.DeliverEdge]) == Some(Core())
      ensures lockDepth == old(lockDepth)
    {
      var transition := StoreEnable(value);
      if transition {
        TakenThen(Core(), between, R.DeliverEdge);
        OthersKeepEdge(Core(), between);
        TakeAll(between);
        DeliverEdge(value);
      }
    }
  }

  /** What a sequence of steps leads to; None if one of them is not enabled or never returns. */
  function Taken(p: Plant, steps: seq<R.Step>): Option<Plant>
    decreases |steps|
  {
    if steps == [] then Some(p)
    else if !R.Enabled(p, steps[0]) then None
    else
      var q :- R.Apply(p, steps[0]);
      Taken(q, steps[1..])
  }

  // The CAN thread is the one that stores the bit and notifies.
  predicate OfOthers(steps: seq<R.Step>) {
    forall i :: 0 <= i < |steps| ==> !steps[i].SetEnable? && !steps[i].DeliverEdge?
  }

  lemma TransitionKeepsEdge(p: Plant, s: SupervisorState)
    ensures Transition(p, s).Some? ==> Transition(p, s).value.toNotify == p.toNotify
  {
  }

  lemma ProcessKeepsEdge(p: Plant, pins: Pins)
    ensures R.ProcessStep(p, pins).Some? ==> R.ProcessStep(p, pins).value.toNotify == p.toNotify
  {
    forall q, s ensures Transition(q, s).Some? ==> Transition(q, s).value.toNotify == q.toNotify {
      TransitionKeepsEdge(q, s);
    }
  }

  lemma OtherKeepsEdge(p: Plant, step: R.Step)
    requires R.Enabled(p, step) && !step.SetEnable? && !step.DeliverEdge?
    ensures R.Apply(p, step).Some? ==> R.Apply(p, step).value.toNotify == p.toNotify
  {
    match step
    case BootSupervisor => TransitionKeepsEdge(p, WaitingForInternalSafety);
    case Raise(_) => TransitionKeepsEdge(p, WaitingForInternalSafety);
    case Process(pins) => ProcessKeepsEdge(p, pins);
    case _ =>
  }

  lemma {:induction false} OthersKeepEdge(p: Plant, steps: seq<R.Step>)
    requires OfOthers(steps)
    ensures Taken(p, steps).Some? ==> Taken(p, steps).value.toNotify == p.toNotify
    decreases |steps|
  {
    if steps != [] && R.Enabled(p, steps[0]) && R.Apply(p, steps[0]).Some? {
      OtherKeepsEdge(p, steps[0]);
      OthersKeepEdge(R.Apply(p, steps[0]).value, steps[1..]);
    }
  }

  lemma {:induction false} TakenThen(p: Plant, steps: seq<R.Step>, step: R.Step)
    ensures Taken(p, steps + [step]).Some? ==>
            && Taken(p, steps).Some? && R.Enabled(Taken(p, steps).value, step)
            && Taken(p, steps + [step]) == R.Apply(Taken(p, steps).value, step)
    decreases |steps|
  {
    if steps != [] {
      assert (steps + [step])[1..] == steps[1..] + [step];
      if R.Enabled(p, steps[0]) && R.Apply(p, steps[0]).Some? {
        TakenThen(R.Apply(p, steps[0]).value, steps[1..], step);
      }
    }
  }

  // ---------- Lock depths do not influence what is computed ----------

  function Relock(r: Option<Plant>, depth: nat): Option<Plant> {
    if r.None? then None else Some(r.value.(lock := depth))
  }

  lemma SettledUnderLock(p: Plant, s: SupervisorState, depth: nat)
    ensures Settled(p.(lock := depth), s) == Settled(p, s).(lock := depth)
    ensures Settled(p, s).lock == p.lock && Settled(p, s).enable == p.enable
  {
  }

  lemma TransitionUnderLock(p: Plant, s: SupervisorState, depth: nat)
    ensures Transition(p.(lock := depth), s) == Relock(Transition(p, s), depth)
    ensures Transition(p, s).Some? ==> Transition(p, s).value.lock == p.lock && Transition(p, s).value.enable == p.enable
  {
    SettledUnderLock(p, s, depth);
  }

  lemma NotifyUnderLock(p: Plant, ev: Event, depth: nat)
    ensures R.Notify(p.(lock := depth), ev) == Relock(R.Notify(p, ev), depth)
  {
    if NotifyRestarts(p.state, ev) { TransitionUnderLock(p, WaitingForInternalSafety, depth); }
  }

  // The transition that a notification makes, its lock taken once more.
  lemma NestedTransition(depth: nat, p: Plant)
    requires depth >= 2
    ensures S.TransitionState(depth, p.(lock := p.lock + 1), WaitingForInternalSafety)
         == Relock(Transition(p, WaitingForInternalSafety), p.lock + 1)
    ensures Transition(p, WaitingForInternalSafety).Some? ==> Transition(p, WaitingForInternalSafety).value.lock == p.lock
  {
    TransitionUnderLock(p, WaitingForInternalSafety, p.lock + 1);
    TransitionFinishesIff(p.(lock := p.lock + 1), WaitingForInternalSafety);
  }

  /** NotifyEvent returns, with two nested PushState calls at most, what a notification step is. */
  lemma NotifyReturns(depth: nat, p: Plant, ev: Event)
    requires depth >= 2
    ensures S.NotifyEvent(depth, p, ev) == R.Notify(p, ev)
  {
    if NotifyRestarts(p.state, ev) { NestedTransition(depth, p); }
  }
}

/** What can go wrong while the contactor interlock is still initialising, and the run that ends
    in RaceReady with the contactors open. */
module BootHazard {
  import opened Wrappers
  import opened Supervisor
  import opened SupervisorRuns
  import opened SafetyGuarantees

  /** With the interlock operational every step returns. */
  lemma OperationalStepsReturn(p: Plant, step: Step)
    requires p.contactors.state.Operational() && Enabled(p, step)
    ensures Apply(p, step).Some?
  {
    match step
    case Process(pins) => OperationalProcessReturns(p, pins);
    case _ =>
  }

  lemma OperationalProcessReturns(p: Plant, pins: Pins)
    requires p.contactors.state.Operational()
    ensures ProcessStep(p, pins).Some?
  {
    forall s { SettledOperational(p, s); }
  }

  lemma SettledOperational(p: Plant, s: SupervisorState)
    requires p.contactors.state.Operational()
    ensures CanTransition(p, s) && Settled(p, s).contactors.state.Operational()
  {
    SyncTwice(p.contactors.(state := Request(s)), p.clock, AllOpen);
    SyncTwice(p.contactors.(state := AllOpen), p.clock, AllOpen);
    if s != PrechargeMinimumTimeExceeded {
      assert Pushed(p, Request(s)).contactors.state.Operational();
    }
  }

  /** The process steps that never return, among the states a run can be in: the interlock is still
      initialising and the step makes a transition from above WaitingForInternalSafety. */
  predicate ProcessHangs(p: Plant, pins: Pins) {
    && p.contactors.state == ContactorsInitialising
    && match p.state
       case WaitingForInternalSafety => p.enable && pins.bms && !Healthy(pins)
       case WaitingForTractiveLoop => true
       case WaitingForShutdownCircuit => true
       case WaitingForPrechargeActivation => p.enable || !Healthy(pins)
       case _ => false
  }

  lemma ProcessHangsIff(p: Plant, pins: Pins)
    requires Joint(p)
    ensures ProcessStep(p, pins).None? <==> ProcessHangs(p, pins)
  {
    if p.contactors.state.Operational() {
      OperationalProcessReturns(p, pins);
    }
  }

  /** The same for notifications: during boot they hang above WaitingForInternalSafety. */
  lemma NotifyHangsIff(p: Plant, ev: Event)
    requires Joint(p)
    ensures Notify(p, ev).None? <==> p.contactors.state == ContactorsInitialising
                                     && p.state.Rank() > WaitingForInternalSafety.Rank() && ev != DriverEnables
  {
  }

  const HEALTHY := Pins(true, true, true, true, true, true)

  // Two process steps before ContactorController is created, the second one with a fault: the first
  // reaches WaitingForPrechargeActivation, the second recurses without end.
  lemma BootCanHang() returns (states: seq<Plant>, steps: seq<Step>)
    ensures IsRun(states, steps) && |steps| == 2
    ensures Enabled(states[2], Process(HEALTHY.(bms := false)))
         && Apply(states[2], Process(HEALTHY.(bms := false))) == None
    ensures forall depth :: TransitionState(depth, states[2], WaitingForInternalSafety) == None
  {
    steps := [BootSupervisor, Process(HEALTHY)];
    var p0 := POWER_ON;
    var p1 := Apply(p0, steps[0]).value;
    var p2 := Apply(p1, steps[1]).value;
    states := [p0, p1, p2];
    forall depth: nat ensures TransitionState(depth, p2, WaitingForInternalSafety) == None {
      RecursionDiverges(depth, p2, WaitingForInternalSafety);
    }
  }

  // One operational process step of a run, described by the table.
  lemma TakeProcess(p: Plant, pins: Pins) returns (q: Plant)
    requires Joint(p) && p.contactors.state.Operational()
    ensures Leads(p, Process(pins), q) && ProcessEffect(p, pins, q) && Joint(q)
  {
    OperationalProcessReturns(p, pins);
    q := ProcessStep(p, pins).value;
    ProcessMeetsTable(p, pins, q);
    ProcessKeepsJoint(p, pins, q);
  }

  lemma ExtendRun(states: seq<Plant>, steps: seq<Step>, step: Step, q: Plant)
    returns (longer: seq<Plant>, path: seq<Step>)
    requires IsRun(states, steps) && Leads(states[|steps|], step, q)
    ensures IsRun(longer, path) && longer[|path|] == q && longer == states + [q] && path == steps + [step]
  {
    longer, path := states + [q], steps + [step];
    forall i | 0 <= i < |path| ensures Leads(longer[i], path[i], longer[i + 1]) {
      if i < |steps| { assert Leads(states[i], steps[i], states[i + 1]); }
    }
  }

  // A booted run waiting for the driver.
  lemma ArmedRun() returns (states: seq<Plant>, steps: seq<Step>)
    ensures IsRun(states, steps)
    ensures var last := states[|steps|];
            && Joint(last) && last.state == WaitingForPrechargeActivation && last.contactors.state == AllOpen
            && !last.enable && last.toNotify == None
  {
    var p1 := POWER_ON.(state := WaitingForInternalSafety, sequenceErrors := 1);
    var p2 := Apply(p1, BootContactors).value;
    assert Leads(POWER_ON, BootSupervisor, p1);
    var p3 := TakeProcess(p2, HEALTHY);
    states, steps := ExtendRun([POWER_ON], [], BootSupervisor, p1);
    states, steps := ExtendRun(states, steps, BootContactors, p2);
    states, steps := ExtendRun(states, steps, Process(HEALTHY), p3);
  }

  lemma ExpireAfter(p: Plant) returns (late: Plant, q: Plant)
    requires Joint(p) && p.state == StartedPrecharge
    requires p.prechargeDeadline == Some(p.clock + PRECHARGE_MINIMUM_TIME)
    ensures Leads(p, Pass(PRECHARGE_MINIMUM_TIME), late) && Leads(late, PrechargeTimerExpires, q)
    ensures Joint(q) && q.state == PrechargeMinimumTimeExceeded && q.contactors.state == Precharge
  {
    late := p.(clock := p.clock + PRECHARGE_MINIMUM_TIME);
    q := late.(state := PrechargeMinimumTimeExceeded, prechargeDeadline := None);
  }

  // A run that has just closed the precharge coil.
  lemma StartedRun() returns (states: seq<Plant>, steps: seq<Step>)
    ensures IsRun(states, steps)
    ensures var last := states[|steps|];
            && Joint(last) && last.state == StartedPrecharge && last.contactors.state == Precharge
            && last.prechargeDeadline == Some(last.clock + PRECHARGE_MINIMUM_TIME)
            && last.contactors.prechargeCoil && last.contactors.prechargeTimer == Some(last.clock + COIL_TIME)
  {
    states, steps := ArmedRun();
    var armed := StoreEnable(states[|steps|], true);
    states, steps := ExtendRun(states, steps, SetEnable(true), armed);
    var started := TakeProcess(armed, HEALTHY);
    states, steps := ExtendRun(states, steps, Process(HEALTHY), started);
  }

  // A run that has just finished the minimum precharge time.
  lemma PrechargedRun() returns (states: seq<Plant>, steps: seq<Step>)
    ensures IsRun(states, steps)
    ensures var last := states[|steps|];
            Joint(last) && last.state == PrechargeMinimumTimeExceeded && last.contactors.state == Precharge
  {
    states, steps := StartedRun();
    var late, done := ExpireAfter(states[|steps|]);
    states, steps := ExtendRun(states, steps, Pass(PRECHARGE_MINIMUM_TIME), late);
    states, steps := ExtendRun(states, steps, PrechargeTimerExpires, done);
  }

  /** The ignored result of the check in PrechargeMinimumTimeExceeded shows: a run reaches RaceReady
      with both contactors open, and only the interlock has kept the coils off. */
  lemma RaceReadyWithOpenContactors() returns (states: seq<Plant>, steps: seq<Step>)
    ensures IsRun(states, steps)
    ensures var last := states[|steps|];
            last.state == RaceReady && last.contactors.state == AllOpen && CoilsOpen(last)
  {
    states, steps := PrechargedRun();
    var q := TakeProcess(states[|steps|], HEALTHY.(imd := false));
    states, steps := ExtendRun(states, steps, Process(HEALTHY.(imd := false)), q);
  }

  /** And a healthy step from there does close the run coil. */
  lemma RunCoilCanClose() returns (states: seq<Plant>, steps: seq<Step>)
    ensures IsRun(states, steps)
    ensures var last := states[|steps|];
            && Joint(last) && last.state == RaceReady && last.contactors.state == HighCurrentRun
            && last.contactors.runCoil && last.contactors.runTimer == Some(last.clock + COIL_TIME)
  {
    states, steps := PrechargedRun();
    var q := TakeProcess(states[|steps|], HEALTHY);
    states, steps := ExtendRun(states, steps, Process(HEALTHY), q);
  }
}

/** No history of faults and commands leaves the safety controller stuck: from every state a run
    can be in after boot there is a continuation, of at most nine steps, that closes the run coil. */
module Recovery {
  import opened Wrappers
  import opened Supervisor
  import opened SupervisorRuns
  import opened SafetyGuarantees
  import opened BootHazard

  predicate Booted(p: Plant) {
    Ready(p.contactors.state) && p.state != Initialising
  }

  // A state of a run, as far as recovery is concerned.
  predicate Usable(p: Plant) {
    Joint(p) && EnableAccounted(p) && Booted(p)
  }

  // A stored edge can always be delivered, and a deactivation leads to WaitingForInternalSafety.
  lemma Deliver(p: Plant) returns (q: Plant)
    requires Usable(p) && p.toNotify.Some?
    ensures Leads(p, DeliverEdge, q) && Usable(q) && q.toNotify == None && q.enable == p.enable
    ensures !p.enable ==> q.state == WaitingForInternalSafety
    ensures p.enable ==> q == p.(toNotify := None)
  {
    OperationalStepsReturn(p, DeliverEdge);
    q := Apply(p, DeliverEdge).value;
    StepMeets(p, DeliverEdge, q);
    JointIsInductive(p, DeliverEdge, q);
    EnableAccountedStep(p, DeliverEdge, q);
  }

  // The driver's command is off and has been delivered: nothing is latched or energised.
  predicate Quiet(p: Plant) {
    Usable(p) && !p.enable && p.toNotify == None
  }

  lemma QuietMeansWaiting(p: Plant)
    requires Quiet(p)
    ensures Waiting(p.state) && p.contactors.state == AllOpen
  {
  }

  // A run, its continuation and the state that ends it.
  predicate Continues(states: seq<Plant>, steps: seq<Step>, longer: seq<Plant>, path: seq<Step>, q: Plant) {
    && IsRun(longer, path) && longer[|path|] == q
    && states <= longer && steps <= path
  }

  lemma ContinueRun(states: seq<Plant>, steps: seq<Step>, longer: seq<Plant>, path: seq<Step>, q: Plant, step: Step, r: Plant)
    returns (further: seq<Plant>, on: seq<Step>)
    requires Continues(states, steps, longer, path, q) && Leads(q, step, r)
    ensures Continues(states, steps, further, on, r) && |on| == |path| + 1
  {
    further, on := ExtendRun(longer, path, step, r);
  }

  lemma SwitchOff(states: seq<Plant>, steps: seq<Step>) returns (longer: seq<Plant>, path: seq<Step>, q: Plant)
    requires IsRun(states, steps) && Usable(states[|steps|])
    ensures Continues(states, steps, longer, path, q) && Quiet(q) && |path| <= |steps| + 3
  {
    longer, path, q := states, steps, states[|steps|];
    if q.toNotify.Some? {
      var r := Deliver(q);
      longer, path := ContinueRun(states, steps, longer, path, q, DeliverEdge, r);
      q := r;
    }
    if q.enable {
      var off := StoreEnable(q, false);
      longer, path := ContinueRun(states, steps, longer, path, q, SetEnable(false), off);
      q := Deliver(off);
      longer, path := ContinueRun(states, steps, longer, path, off, DeliverEdge, q);
    }
  }

  // Healthy inputs arm a quiet supervisor ...
  lemma Arm(p: Plant) returns (q: Plant)
    requires Quiet(p)
    ensures Leads(p, Process(HEALTHY), q) && Quiet(q) && q.state == WaitingForPrechargeActivation
  {
    QuietMeansWaiting(p);
    q := TakeProcess(p, HEALTHY);
    EnableAccountedStep(p, Process(HEALTHY), q);
  }

  // ... and the driver's command then starts the precharge.
  lemma Start(p: Plant) returns (on: Plant, q: Plant)
    requires Quiet(p) && p.state == WaitingForPrechargeActivation
    ensures Leads(p, SetEnable(true), on) && Leads(on, Process(HEALTHY), q)
    ensures Joint(q) && q.state == StartedPrecharge && q.prechargeDeadline == Some(q.clock + PRECHARGE_MINIMUM_TIME)
  {
    on := StoreEnable(p, true);
    q := TakeProcess(on, HEALTHY);
  }

  lemma Finish(p: Plant) returns (q: Plant)
    requires Joint(p) && p.state == PrechargeMinimumTimeExceeded && p.contactors.state == Precharge
    ensures Leads(p, Process(HEALTHY), q) && q.state == RaceReady && q.contactors.runCoil && q.contactors.prechargeCoil
  {
    q := TakeProcess(p, HEALTHY);
  }

  lemma Energise(states: seq<Plant>, steps: seq<Step>, start: seq<Plant>, begun: seq<Step>, p: Plant)
    returns (longer: seq<Plant>, path: seq<Step>, q: Plant)
    requires Continues(states, steps, start, begun, p) && Quiet(p)
    ensures Continues(states, steps, longer, path, q) && |path| == |begun| + 6
    ensures q.state == RaceReady && q.contactors.runCoil && q.contactors.prechargeCoil
  {
    var armed := Arm(p);
    var on, started := Start(armed);
    var late, done := ExpireAfter(started);
    q := Finish(done);
    longer, path := ContinueRun(states, steps, start, begun, p, Process(HEALTHY), armed);
    longer, path := ContinueRun(states, steps, longer, path, armed, SetEnable(true), on);
    longer, path := ContinueRun(states, steps, longer, path, on, Process(HEALTHY), started);
    longer, path := ContinueRun(states, steps, longer, path, started, Pass(PRECHARGE_MINIMUM_TIME), late);
    longer, path := ContinueRun(states, steps, longer, path, late, PrechargeTimerExpires, done);
    longer, path := ContinueRun(states, steps, longer, path, done, Process(HEALTHY), q);
  }

  /** Every run that has booted, however it went, latched or in RaceReady with open contactors, can
      be continued by at most nine steps to one that ends with the run coil closed: the driver's
      command off and on again, healthy inputs and the precharge time are enough. */
  lemma AlwaysRecoverable(states: seq<Plant>, steps: seq<Step>) returns (longer: seq<Plant>, path: seq<Step>)
    requires IsRun(states, steps) && Booted(states[|steps|])
    ensures IsRun(longer, path) && states <= longer && steps <= path && |path| <= |steps| + 9
    ensures var last := longer[|path|];
            last.state == RaceReady && last.contactors.runCoil && last.contactors.prechargeCoil
  {
    JointInvariant(states, steps);
    EnableAccountedAt(states, steps, |steps|);
    var quiet, q: Plant;
    longer, path, quiet := SwitchOff(states, steps);
    longer, path, q := Energise(states, steps, longer, path, quiet);
  }
}

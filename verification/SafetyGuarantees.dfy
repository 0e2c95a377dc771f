/** What the safety controller guarantees over every run from power-on. */
module SafetyGuarantees {
  import opened Wrappers
  import opened Supervisor
  import opened SupervisorRuns

  // ---------- The vocabulary of the guarantees, in raw inputs and states ----------

  predicate Healthy(pins: Pins) {
    pins.bms && pins.imd && pins.disconnects && pins.contactorPower
  }

  predicate BelowPrecharge(s: SupervisorState) {
    || s == LatchingError || s == Initialising || s == WaitingForInternalSafety || s == WaitingForTractiveLoop
    || s == WaitingForShutdownCircuit || s == WaitingForPrechargeActivation
  }

  predicate Energised(s: SupervisorState) {
    s == StartedPrecharge || s == PrechargeMinimumTimeExceeded || s == RaceReady
  }

  // The interlock has been initialised.
  predicate Ready(c: ContactorState) {
    c == AllOpen || c == Precharge || c == HighCurrentRun
  }

  /** The fault that state 8 ignores: it is sampled together with both precharge inputs. */
  predicate FaultTooLate(s: SupervisorState, step: Step) {
    && step.Process? && s == PrechargeMinimumTimeExceeded
    && !Healthy(step.pins) && step.pins.precharge99 && step.pins.prechargeInRange
  }

  // How the model's own predicates read in these terms.
  lemma RawReadings(s: SupervisorState, c: ContactorState, pins: Pins)
    ensures pins.Fault() <==> !Healthy(pins)
    ensures PrechargeDone(pins) <==> pins.precharge99 && pins.prechargeInRange
    ensures s.Rank() <= WaitingForPrechargeActivation.Rank() <==> BelowPrecharge(s) || s == NonResettableLatchingError
    ensures s.Rank() >= StartedPrecharge.Rank() <==> Energised(s)
    ensures c.Operational() <==> Ready(c)
    ensures LateFault(s, pins) <==> FaultTooLate(s, Process(pins))
  {
  }

  /** Spelled out: where the supervisor, the contactors, the coils and the timer can be. */
  lemma JointStates(states: seq<Plant>, steps: seq<Step>, n: nat)
    requires IsRun(states, steps) && n < |states|
    ensures var p := states[n];
            var c := p.contactors;
            && (BelowPrecharge(p.state) ==> c.state == AllOpen || c.state == ContactorsInitialising)
            && c.state != LatchingMechanicalError && p.state != NonResettableLatchingError
            && (p.state == StartedPrecharge || p.state == PrechargeMinimumTimeExceeded <==> c.state == Precharge)
            && (c.state == HighCurrentRun ==> p.state == RaceReady)
            && (p.state == RaceReady ==> c.state == HighCurrentRun || c.state == AllOpen)
            && (c.prechargeCoil <==> c.state == Precharge || c.state == HighCurrentRun)
            && (c.runCoil <==> c.state == HighCurrentRun)
            && (p.prechargeDeadline.Some? <==> p.state == StartedPrecharge)
            && p.lock == 0 && c.lock == 0
  {
    JointInvariant(states, steps);
  }

  /** The last step at which an observation changes to the value it has at j. */
  lemma {:induction false} LastChange(states: seq<Plant>, observe: Plant -> bool, i: nat, j: nat) returns (k: nat)
    requires i < j < |states| && observe(states[i]) != observe(states[j])
    ensures i <= k < j && observe(states[k]) != observe(states[j]) && observe(states[k + 1]) == observe(states[j])
    decreases j
  {
    if observe(states[j - 1]) != observe(states[j]) {
      k := j - 1;
    } else {
      k := LastChange(states, observe, i, j - 1);
    }
  }

  // ---------- Contactor history ----------

  predicate ContactorEdge(a: ContactorState, b: ContactorState) {
    || (a == ContactorsInitialising && b == AllOpen)
    || (a == AllOpen && b == Precharge)
    || (a == Precharge && (b == HighCurrentRun || b == AllOpen))
    || (a == HighCurrentRun && b == AllOpen)
  }

  lemma ProcessContactorMoves(p: Plant, pins: Pins, q: Plant)
    requires Joint(p) && ProcessEffect(p, pins, q)
    ensures p.contactors.state != q.contactors.state ==> ContactorEdge(p.contactors.state, q.contactors.state)
    ensures q.contactors.state == Precharge && p.contactors.state == AllOpen ==>
            !pins.Fault() && p.enable && p.state == WaitingForPrechargeActivation && q.state == StartedPrecharge
    ensures q.contactors.state == HighCurrentRun && p.contactors.state == Precharge ==>
            !pins.Fault() && PrechargeDone(pins) && p.state == PrechargeMinimumTimeExceeded && q.state == RaceReady
  {
    SyncTwice(p.contactors.(state := NextContactor(p.contactors.state, p.state, p.enable, pins)), p.clock, AllOpen);
  }

  lemma OtherContactorMoves(p: Plant, step: Step, q: Plant)
    requires Joint(p) && StepEffect(p, step, q) && !step.Process?
    ensures q.contactors.state != p.contactors.state ==>
            q.contactors.state == AllOpen && p.contactors.state != LatchingMechanicalError
  {
    if step.DeliverEdge? {
      NotifyContactorMoves(p.(toNotify := None), DriverEvent(p.toNotify.value), q);
    } else if step.Raise? {
      NotifyContactorMoves(p, step.error, q);
    }
  }

  lemma NotifyContactorMoves(p: Plant, ev: Event, q: Plant)
    requires Joint(p) && NotifyEffect(p, ev, q)
    ensures q.contactors.state != p.contactors.state ==> q.contactors.state == AllOpen
  {
    SyncTwice(p.contactors.(state := Forced(p.contactors.state)), p.clock, AllOpen);
  }

  lemma ContactorMoves(p: Plant, step: Step, q: Plant)
    requires Joint(p) && StepEffect(p, step, q)
    ensures p.contactors.state != q.contactors.state ==> ContactorEdge(p.contactors.state, q.contactors.state)
    ensures q.contactors.state == Precharge && p.contactors.state == AllOpen ==>
            step.Process? && !step.pins.Fault() && p.enable
            && p.state == WaitingForPrechargeActivation && q.state == StartedPrecharge
    ensures q.contactors.state == HighCurrentRun && p.contactors.state == Precharge ==>
            step.Process? && !step.pins.Fault() && PrechargeDone(step.pins)
            && p.state == PrechargeMinimumTimeExceeded && q.state == RaceReady
  {
    if step.Process? {
      ProcessContactorMoves(p, step.pins, q);
    } else {
      OtherContactorMoves(p, step, q);
    }
  }

  function ContactorStates(states: seq<Plant>): (r: seq<ContactorState>)
    ensures |r| == |states| && forall i :: 0 <= i < |r| ==> r[i] == states[i].contactors.state
  {
    seq(|states|, i requires 0 <= i < |states| => states[i].contactors.state)
  }

  /** A sequence with its repetitions removed. */
  function Distinct(cs: seq<ContactorState>): (h: seq<ContactorState>)
    ensures |cs| > 0 ==> |h| > 0 && h[0] == cs[0] && h[|h| - 1] == cs[|cs| - 1]
  {
    if |cs| <= 1 then cs
    else
      var last := cs[|cs| - 1];
      var h := Distinct(cs[..|cs| - 1]);
      if h[|h| - 1] == last then h else h + [last]
  }

  predicate FollowsEdges(h: seq<ContactorState>) {
    forall i :: 0 < i < |h| ==> ContactorEdge(h[i - 1], h[i])
  }

  lemma {:induction false} DistinctFollowsEdges(cs: seq<ContactorState>)
    requires forall i :: 0 < i < |cs| ==> cs[i - 1] == cs[i] || ContactorEdge(cs[i - 1], cs[i])
    ensures FollowsEdges(Distinct(cs))
  {
    if |cs| > 1 {
      DistinctFollowsEdges(cs[..|cs| - 1]);
    }
  }

  /** From boot on, a run's contactor history consists of AllOpen, Precharge and optionally
      HighCurrentRun, over and over; Precharge never follows HighCurrentRun. */
  lemma ContactorHistory(states: seq<Plant>, steps: seq<Step>)
    requires IsRun(states, steps)
    ensures var h := Distinct(ContactorStates(states));
            h[0] == ContactorsInitialising && FollowsEdges(h)
  {
    JointInvariant(states, steps);
    var cs := ContactorStates(states);
    forall i | 0 < i < |cs| ensures cs[i - 1] == cs[i] || ContactorEdge(cs[i - 1], cs[i]) {
      ContactorMoves(states[i - 1], steps[i - 1], states[i]);
    }
    DistinctFollowsEdges(cs);
  }

  /** Once the contactors are initialised the interlock rejects a request in one situation only:
      the check has just failed in PrechargeMinimumTimeExceeded, both precharge inputs are
      asserted, and the supervisor asks for HighCurrentRun all the same. */
  lemma RejectionIffLateFault(states: seq<Plant>, steps: seq<Step>, n: nat)
    requires IsRun(states, steps) && n < |steps| && Ready(states[n].contactors.state)
    ensures var p, q := states[n], states[n + 1];
            && p.sequenceErrors <= q.sequenceErrors <= p.sequenceErrors + 1
            && (q.sequenceErrors > p.sequenceErrors <==> FaultTooLate(p.state, steps[n]))
            && (q.sequenceErrors > p.sequenceErrors ==> q.state == RaceReady && q.contactors.state == AllOpen)
  {
    JointAt(states, steps, n);
    TabledAt(states, steps, n);
    RejectionStep(states[n], steps[n], states[n + 1]);
  }

  lemma RejectionStep(p: Plant, step: Step, q: Plant)
    requires Joint(p) && StepEffect(p, step, q) && Ready(p.contactors.state)
    ensures q.sequenceErrors == p.sequenceErrors + if FaultTooLate(p.state, step) then 1 else 0
    ensures FaultTooLate(p.state, step) ==> q.state == RaceReady && q.contactors.state == AllOpen
  {
    if step.Process? {
      RawReadings(p.state, p.contactors.state, step.pins);
      SyncTwice(p.contactors.(state := NextContactor(p.contactors.state, p.state, p.enable, step.pins)), p.clock, AllOpen);
    } else if step.DeliverEdge? {
      assert NotifyEffect(p.(toNotify := None), DriverEvent(p.toNotify.value), q);
    }
  }

  // ---------- Fault response ----------

  predicate CoilsOpen(p: Plant) {
    !p.contactors.prechargeCoil && !p.contactors.runCoil
  }

  /** From StartedPrecharge on, a process step that samples a fault latches the supervisor, unless it
      is the late fault. */
  lemma FaultLatchesUnlessLate(states: seq<Plant>, steps: seq<Step>, n: nat)
    requires IsRun(states, steps) && n < |steps| && steps[n].Process? && !Healthy(steps[n].pins)
    requires Energised(states[n].state)
    ensures states[n + 1].state == LatchingError <==> !FaultTooLate(states[n].state, steps[n])
    ensures states[n + 1].state == RaceReady <==> FaultTooLate(states[n].state, steps[n])
  {
    RawReadings(states[n].state, states[n].contactors.state, steps[n].pins);
    TabledAt(states, steps, n);
  }

  predicate ReadyButOpen(p: Plant) {
    p.state == RaceReady && CoilsOpen(p)
  }

  lemma ReadyButOpenStep(p: Plant, step: Step, q: Plant)
    requires Joint(p) && StepEffect(p, step, q) && !ReadyButOpen(p)
    ensures ReadyButOpen(q) <==> FaultTooLate(p.state, step)
  {
    if step.Process? {
      RawReadings(p.state, p.contactors.state, step.pins);
      SyncTwice(p.contactors.(state := NextContactor(p.contactors.state, p.state, p.enable, step.pins)), p.clock, AllOpen);
    }
  }

  /** And the late fault is the only way into RaceReady with open coils. */
  lemma ReadyButOpenIffLateFault(states: seq<Plant>, steps: seq<Step>, n: nat)
    requires IsRun(states, steps) && n < |steps| && !ReadyButOpen(states[n])
    ensures ReadyButOpen(states[n + 1]) <==> FaultTooLate(states[n].state, steps[n])
  {
    JointAt(states, steps, n);
    TabledAt(states, steps, n);
    ReadyButOpenStep(states[n], steps[n], states[n + 1]);
  }

  lemma FaultStepOpens(p: Plant, pins: Pins, q: Plant)
    requires Joint(p) && ProcessEffect(p, pins, q) && pins.Fault()
    ensures CoilsOpen(q)
  {
    SyncTwice(p.contactors.(state := NextContactor(p.contactors.state, p.state, p.enable, pins)), p.clock, AllOpen);
  }

  /** A process step that samples any fault ends with both coils open, whatever the state before. */
  lemma FaultOpensCoils(states: seq<Plant>, steps: seq<Step>, n: nat)
    requires IsRun(states, steps) && n < |steps| && steps[n].Process?
    requires var pins := steps[n].pins; !pins.bms || !pins.imd || !pins.disconnects || !pins.contactorPower
    ensures CoilsOpen(states[n + 1])
  {
    RawReadings(states[n].state, states[n].contactors.state, steps[n].pins);
    JointAt(states, steps, n);
    TabledAt(states, steps, n);
    FaultStepOpens(states[n], steps[n].pins, states[n + 1]);
  }

  /** LatchingError is left by the driver's deactivation and by nothing else. */
  lemma OnlyDeactivationUnlatches(states: seq<Plant>, steps: seq<Step>, n: nat)
    requires IsRun(states, steps) && n < |steps| && states[n].state == LatchingError
    ensures states[n + 1].state != LatchingError <==> steps[n] == DeliverEdge && states[n].toNotify == Some(false)
    ensures states[n + 1].state != LatchingError ==> states[n + 1].state == WaitingForInternalSafety
  {
    JointInvariant(states, steps);
    assert StepEffect(states[n], steps[n], states[n + 1]);
  }

  predicate EntersPrecharge(p: Plant, q: Plant) {
    p.state != StartedPrecharge && q.state == StartedPrecharge
  }

  lemma CoilCloses(p: Plant, step: Step, q: Plant)
    requires Joint(p) && Joint(q) && StepEffect(p, step, q) && CoilsOpen(p) && !CoilsOpen(q)
    ensures EntersPrecharge(p, q)
  {
    ContactorMoves(p, step, q);
  }

  /** From open coils, RaceReady or not, no coil is closed again before StartedPrecharge has been
      entered. */
  lemma ClosingNeedsPrecharge(states: seq<Plant>, steps: seq<Step>, i: nat, j: nat) returns (k: nat)
    requires IsRun(states, steps) && i < j < |states|
    requires CoilsOpen(states[i]) && !CoilsOpen(states[j])
    ensures i <= k < j && EntersPrecharge(states[k], states[k + 1])
  {
    JointInvariant(states, steps);
    k := LastChange(states, CoilsOpen, i, j);
    CoilCloses(states[k], steps[k], states[k + 1]);
  }

  // ---------- Disable always wins ----------

  predicate EnableAccounted(p: Plant) {
    && (p.state == LatchingError || p.state.Rank() >= StartedPrecharge.Rank() ==>
        p.enable || p.toNotify == Some(false))
    && (p.toNotify.Some? ==> p.toNotify.value == p.enable)
  }

  lemma EnableAccountedStep(p: Plant, step: Step, q: Plant)
    requires Joint(p) && EnableAccounted(p) && StepEffect(p, step, q)
    ensures EnableAccounted(q)
  {
  }

  lemma {:induction false} EnableAccountedAt(states: seq<Plant>, steps: seq<Step>, n: nat)
    requires IsTabledRun(states, steps) && n < |states|
    ensures EnableAccounted(states[n])
    decreases n
  {
    if n > 0 {
      EnableAccountedAt(states, steps, n - 1);
      EnableAccountedStep(states[n - 1], steps[n - 1], states[n]);
    }
  }

  /** Latched or energised with the enable bit clear means that the deactivation is still on its
      way to the supervisor. */
  lemma DisableIsNeverLost(states: seq<Plant>, steps: seq<Step>, n: nat)
    requires IsRun(states, steps) && n < |states|
    requires states[n].state == LatchingError || Energised(states[n].state)
    ensures states[n].enable || states[n].toNotify == Some(false)
  {
    JointInvariant(states, steps);
    EnableAccountedAt(states, steps, n);
  }

  /** Delivering it opens both coils, stops the precharge timer and clears a latched error. */
  lemma DeactivationWins(states: seq<Plant>, steps: seq<Step>, n: nat)
    requires IsRun(states, steps) && n < |steps|
    requires steps[n] == DeliverEdge && states[n].toNotify == Some(false)
    ensures CoilsOpen(states[n + 1]) && states[n + 1].prechargeDeadline == None && !states[n + 1].enable
    ensures states[n + 1].state == if states[n].state == Initialising then Initialising else WaitingForInternalSafety
  {
    JointInvariant(states, steps);
    EnableAccountedAt(states, steps, n);
    assert StepEffect(states[n], steps[n], states[n + 1]);
  }

  // ---------- Restart interlock ----------

  predicate SamplesDisabled(p: Plant, step: Step, q: Plant) {
    step.Process? && !p.enable && p.state != WaitingForPrechargeActivation && q.state == WaitingForPrechargeActivation
  }

  // How WaitingForPrechargeActivation and StartedPrecharge are entered, and how the bit changes.
  lemma Entries(p: Plant, step: Step, q: Plant)
    requires Joint(p) && StepEffect(p, step, q)
    ensures p.state != WaitingForPrechargeActivation && q.state == WaitingForPrechargeActivation ==>
            SamplesDisabled(p, step, q)
    ensures EntersPrecharge(p, q) ==>
            p.state == WaitingForPrechargeActivation && p.enable && step.Process? && !step.pins.Fault()
    ensures p.enable != q.enable ==> step == SetEnable(q.enable)
  {
  }

  // The step by which WaitingForPrechargeActivation, held at j but not at i, was last entered.
  lemma LastArming(states: seq<Plant>, steps: seq<Step>, i: nat, j: nat) returns (k: nat)
    requires IsTabledRun(states, steps) && i < j < |states|
    requires states[i].state != WaitingForPrechargeActivation && states[j].state == WaitingForPrechargeActivation
    ensures i <= k < j && SamplesDisabled(states[k], steps[k], states[k + 1]) && !states[k + 1].enable
  {
    k := LastChange(states, (p: Plant) => p.state == WaitingForPrechargeActivation, i, j);
    Entries(states[k], steps[k], states[k + 1]);
  }

  lemma LastEnabling(states: seq<Plant>, steps: seq<Step>, i: nat, j: nat) returns (m: nat)
    requires IsTabledRun(states, steps) && i < j < |states| && !states[i].enable && states[j].enable
    ensures i <= m < j && steps[m] == SetEnable(true) && !states[m].enable
  {
    m := LastChange(states, (p: Plant) => p.enable, i, j);
    Entries(states[m], steps[m], states[m + 1]);
  }

  /** Between two entries into StartedPrecharge a process step sampled the enable bit clear, at k,
      and after that, at m, the driver command set it again. */
  lemma RestartNeedsOffOnCycle(states: seq<Plant>, steps: seq<Step>, i: nat, j: nat) returns (k: nat, m: nat)
    requires IsRun(states, steps) && i < j < |steps|
    requires EntersPrecharge(states[i], states[i + 1]) && EntersPrecharge(states[j], states[j + 1])
    ensures i < k < m < j && SamplesDisabled(states[k], steps[k], states[k + 1])
    ensures !states[m].enable && steps[m] == SetEnable(true)
  {
    JointInvariant(states, steps);
    Entries(states[j], steps[j], states[j + 1]);
    k := LastArming(states, steps, i + 1, j);
    m := LastEnabling(states, steps, k + 1, j);
  }

  /** While no driver command comes, StartedPrecharge is not entered again once left: a precharge
      timer's callback that is late finds the same StartedPrecharge or has nothing to do. */
  lemma ReentryNeedsCommand(states: seq<Plant>, steps: seq<Step>, i: nat, l: nat, j: nat) returns (m: nat)
    requires IsRun(states, steps) && i < l < j < |states|
    requires states[i].state == StartedPrecharge && states[l].state != StartedPrecharge && states[j].state == StartedPrecharge
    ensures i < m < j && steps[m] == SetEnable(true)
  {
    JointInvariant(states, steps);
    var e := LastChange(states, (p: Plant) => p.state == StartedPrecharge, l, j);
    Entries(states[e], steps[e], states[e + 1]);
    var k := LastArming(states, steps, i, e);
    m := LastEnabling(states, steps, k + 1, e);
  }
}

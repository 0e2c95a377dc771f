/** Timing over runs: how long the precharge coil has been on when the run coil closes. */
module PrechargeTiming {
  import opened Wrappers
  import opened Supervisor
  import opened SupervisorRuns
  import opened SafetyGuarantees

  // ---------- Since when has the coil been as it is? ----------

  function PrechargeCoils(states: seq<Plant>): (r: seq<bool>)
    ensures |r| == |states| && forall i :: 0 <= i < |r| ==> r[i] == states[i].contactors.prechargeCoil
  {
    seq(|states|, i requires 0 <= i < |states| => states[i].contactors.prechargeCoil)
  }

  /** The first index of the stretch of equal values that ends at n. */
  function SteadySince(bits: seq<bool>, n: nat): (i: nat)
    requires n < |bits|
    ensures i <= n && forall j :: i <= j <= n ==> bits[j] == bits[n]
    ensures i > 0 ==> bits[i - 1] != bits[i]
  {
    if n == 0 || bits[n - 1] != bits[n] then n else SteadySince(bits, n - 1)
  }

  /** The clock when the precharge coil last changed, seen from state n of a run. */
  function PrechargeSince(states: seq<Plant>, n: nat): nat
    requires n < |states|
  {
    states[SteadySince(PrechargeCoils(states), n)].clock
  }

  lemma SinceMoves(states: seq<Plant>, n: nat)
    requires 0 < n < |states|
    ensures PrechargeSince(states, n) == Moved(states[n - 1].contactors.prechargeCoil, states[n].contactors.prechargeCoil,
                                               PrechargeSince(states, n - 1), states[n].clock)
  {
  }

  function Moved(before: bool, after: bool, since: nat, now: nat): nat {
    if before == after then since else now
  }

  // ---------- The timing invariant ----------

  // `since` is the clock reading at which the precharge coil last changed.
  predicate Timed(p: Plant, since: nat) {
    && since <= p.clock
    && (p.state == StartedPrecharge ==> p.prechargeDeadline == Some(since + PRECHARGE_MINIMUM_TIME))
    && (p.state == PrechargeMinimumTimeExceeded ==> since + PRECHARGE_MINIMUM_TIME <= p.clock)
  }

  // How the two precharge states are entered and kept.
  lemma PrechargeStateMoves(p: Plant, step: Step, q: Plant)
    requires Joint(p) && Joint(q) && StepEffect(p, step, q)
    ensures q.state == StartedPrecharge ==>
            if p.state == StartedPrecharge then q.prechargeDeadline == p.prechargeDeadline
            else q.prechargeDeadline == Some(q.clock + PRECHARGE_MINIMUM_TIME) && !p.contactors.prechargeCoil
    ensures q.state == PrechargeMinimumTimeExceeded ==>
            || p.state == q.state
            || (p.state == StartedPrecharge && p.prechargeDeadline.value <= q.clock)
  {
  }

  lemma ClockAdvances(p: Plant, step: Step, q: Plant)
    requires StepEffect(p, step, q)
    ensures p.clock <= q.clock
  {
  }

  lemma TimedStep(p: Plant, step: Step, q: Plant, since: nat)
    requires Joint(p) && Joint(q) && StepEffect(p, step, q) && Timed(p, since)
    ensures Timed(q, Moved(p.contactors.prechargeCoil, q.contactors.prechargeCoil, since, q.clock))
  {
    ClockAdvances(p, step, q);
    PrechargeStateMoves(p, step, q);
  }

  // The invariant travels from every state of a run to the next.
  ghost predicate TimedLinks(states: seq<Plant>) {
    forall n, since {:trigger TimedNext(states, n, since)} ::
      0 <= n < |states| - 1 && Timed(states[n], since) ==> TimedNext(states, n, since)
  }

  predicate TimedNext(states: seq<Plant>, n: nat, since: nat)
    requires n < |states| - 1
  {
    Timed(states[n + 1], Moved(states[n].contactors.prechargeCoil, states[n + 1].contactors.prechargeCoil, since, states[n + 1].clock))
  }

  lemma RunLinks(states: seq<Plant>, steps: seq<Step>)
    requires IsTabledRun(states, steps)
    ensures TimedLinks(states)
  {
    forall n: nat, since: nat | n < |states| - 1 && Timed(states[n], since) ensures TimedNext(states, n, since) {
      TimedStep(states[n], steps[n], states[n + 1], since);
    }
  }

  lemma TimedFrom(states: seq<Plant>, n: nat, since: nat)
    requires 0 < n < |states| && TimedLinks(states) && Timed(states[n - 1], since)
    ensures Timed(states[n], Moved(states[n - 1].contactors.prechargeCoil, states[n].contactors.prechargeCoil, since, states[n].clock))
  {
    assert TimedNext(states, n - 1, since);
  }

  lemma {:induction false} TimedRun(states: seq<Plant>, n: nat)
    requires n < |states| && states[0] == POWER_ON && TimedLinks(states)
    ensures Timed(states[n], PrechargeSince(states, n))
    decreases n
  {
    if n > 0 {
      TimedRun(states, n - 1);
      TimedFrom(states, n, PrechargeSince(states, n - 1));
      SinceMoves(states, n);
    }
  }

  lemma RunCoilCloses(p: Plant, step: Step, q: Plant, since: nat)
    requires Joint(p) && Joint(q) && StepEffect(p, step, q) && Timed(p, since)
    requires !p.contactors.runCoil && q.contactors.runCoil
    ensures step.Process? && !step.pins.Fault() && PrechargeDone(step.pins)
    ensures since + PRECHARGE_MINIMUM_TIME <= q.clock
    ensures p.contactors.prechargeCoil && q.contactors.prechargeCoil
  {
    ContactorMoves(p, step, q);
    ClockAdvances(p, step, q);
  }

  /** Whenever the run coil closes: it is a process step whose inputs were all healthy and whose
      two precharge inputs were asserted, and the precharge coil has been on, without a break, for at
      least 5000 ms. */
  lemma RunCoilClosesAfterPrecharge(states: seq<Plant>, steps: seq<Step>, n: nat) returns (i: nat)
    requires IsRun(states, steps) && n < |steps|
    requires !states[n].contactors.runCoil && states[n + 1].contactors.runCoil
    ensures steps[n].Process?
    ensures var pins := steps[n].pins;
            && pins.bms && pins.imd && pins.disconnects && pins.contactorPower
            && pins.precharge99 && pins.prechargeInRange
    ensures i <= n && states[i].clock + 5000 <= states[n + 1].clock
    ensures forall j :: i <= j <= n + 1 ==> states[j].contactors.prechargeCoil
  {
    JointInvariant(states, steps);
    RunLinks(states, steps);
    TimedRun(states, n);
    i := SteadySince(PrechargeCoils(states), n);
    RunCoilCloses(states[n], steps[n], states[n + 1], PrechargeSince(states, n));
    RawReadings(states[n].state, states[n].contactors.state, steps[n].pins);
  }

  /** StartedPrecharge is entered with the timer at exactly 5000 ms and keeps it at that; and it is left
      for PrechargeMinimumTimeExceeded only by that timer, when it is due. */
  lemma PrechargeLasts5000(states: seq<Plant>, steps: seq<Step>, n: nat)
    requires IsRun(states, steps) && n < |steps|
    ensures var p, q := states[n], states[n + 1];
            && (p.state != StartedPrecharge && q.state == StartedPrecharge ==>
                q.prechargeDeadline == Some(q.clock + 5000) && !p.contactors.prechargeCoil && q.contactors.prechargeCoil)
            && (p.state == StartedPrecharge && q.state == StartedPrecharge ==> q.prechargeDeadline == p.prechargeDeadline)
            && (p.state != PrechargeMinimumTimeExceeded && q.state == PrechargeMinimumTimeExceeded ==>
                p.state == StartedPrecharge && steps[n] == PrechargeTimerExpires && p.prechargeDeadline.value <= p.clock)
  {
    JointAt(states, steps, n);
    JointAt(states, steps, n + 1);
    TabledAt(states, steps, n);
    PrechargeStateMoves(states[n], steps[n], states[n + 1]);
  }
}

/** The fire-once flags: what a set flag says about its coil. It is meant to say that the coil has
    not moved for the pull-in time. A callback that was posted before the coil moved sets it too
    early; whether that can happen is decided at the moment the coil moves. */
module CoilCallbacks {
  import opened Wrappers
  import opened Supervisor
  import opened SupervisorRuns
  import opened SafetyGuarantees
  import opened BootHazard

  datatype Which = PrechargeCoil | RunCoil

  // One coil with its flag, its timer and the callbacks posted for it.
  datatype Coil = Coil(on: bool, fireOnce: bool, timer: Option<nat>, posted: nat)

  function CoilOf(p: Plant, which: Which): Coil {
    var c := p.contactors;
    match which
    case PrechargeCoil => Coil(c.prechargeCoil, c.prechargeFireOnce, c.prechargeTimer, c.prechargePosted)
    case RunCoil => Coil(c.runCoil, c.runFireOnce, c.runTimer, c.runPosted)
  }

  function Expiry(which: Which): Step {
    if which == PrechargeCoil then PrechargeCoilTimerExpires else RunCoilTimerExpires
  }

  function Callback(which: Which): Step {
    if which == PrechargeCoil then PrechargeCoilCallback else RunCoilCallback
  }

  // ---------- What a step does to one coil ----------

  /** A coil is moved, which clears the flag and restarts the timer but leaves posted callbacks
      alone; or its timer expires; or a callback runs; or the flag is cleared at boot; or nothing. */
  predicate CoilEffect(a: Coil, b: Coil, now: nat) {
    || b == Coil(!a.on, false, Some(now + 300), a.posted)
    || (a.timer.Some? && a.timer.value <= now && b == a.(timer := None, posted := a.posted + 1))
    || (a.posted > 0 && b == a.(fireOnce := true, posted := a.posted - 1))
    || b == a.(fireOnce := false)
    || b == a
  }

  lemma SyncedCoil(p: Plant, s: ContactorState, q: Plant, which: Which)
    requires q.contactors == SyncCoils(p.contactors.(state := s), p.clock) && q.clock == p.clock
    ensures CoilEffect(CoilOf(p, which), CoilOf(q, which), q.clock)
  {
  }

  lemma NotifiedCoil(p: Plant, ev: Event, q: Plant, which: Which)
    requires NotifyEffect(p, ev, q)
    ensures CoilEffect(CoilOf(p, which), CoilOf(q, which), q.clock) && q.clock == p.clock
  {
    if NotifyRestarts(p.state, ev) { SyncedCoil(p, Forced(p.contactors.state), q, which); }
  }

  lemma StepOnCoil(p: Plant, step: Step, q: Plant, which: Which)
    requires StepEffect(p, step, q)
    ensures p.clock <= q.clock && CoilEffect(CoilOf(p, which), CoilOf(q, which), q.clock)
  {
    match step
    case Process(pins) => SyncedCoil(p, NextContactor(p.contactors.state, p.state, p.enable, pins), q, which);
    case DeliverEdge => NotifiedCoil(p.(toNotify := None), DriverEvent(p.toNotify.value), q, which);
    case Raise(error) => NotifiedCoil(p, error, q, which);
    case _ =>
  }

  // ---------- A coil at rest ----------

  /** `since` is when the coil was last moved, with no callback posted then. */
  predicate Timed(c: Coil, since: nat, now: nat) {
    && since <= now
    && (c.timer.Some? ==> c.timer.value == since + 300 && !c.fireOnce && c.posted == 0)
    && (c.posted > 0 || c.fireOnce ==> since + 300 <= now)
  }

  lemma EffectKeepsTimed(a: Coil, b: Coil, since: nat, was: nat, now: nat)
    requires Timed(a, since, was) && was <= now && CoilEffect(a, b, now) && a.on == b.on
    ensures Timed(b, since, now)
  {
  }

  // From a to b of a run, the coil stays as it is.
  predicate AtRest(states: seq<Plant>, which: Which, a: nat, b: nat)
    requires a <= b < |states|
  {
    forall j :: a <= j <= b ==> CoilOf(states[j], which).on == CoilOf(states[a], which).on
  }

  // What happens to the coil from one state of a run to the next.
  predicate CoilNext(states: seq<Plant>, which: Which, n: nat)
    requires n < |states| - 1
  {
    && states[n].clock <= states[n + 1].clock
    && CoilEffect(CoilOf(states[n], which), CoilOf(states[n + 1], which), states[n + 1].clock)
  }

  predicate CoilRun(states: seq<Plant>, which: Which) {
    forall n {:trigger CoilNext(states, which, n)} :: 0 <= n < |states| - 1 ==> CoilNext(states, which, n)
  }

  lemma RunIsCoilRun(states: seq<Plant>, steps: seq<Step>, which: Which)
    requires IsRun(states, steps)
    ensures CoilRun(states, which) && states[0] == POWER_ON
  {
    forall n | 0 <= n < |states| - 1 ensures CoilNext(states, which, n) {
      TabledAt(states, steps, n);
      StepOnCoil(states[n], steps[n], states[n + 1], which);
    }
  }

  lemma TimedAfter(states: seq<Plant>, which: Which, n: nat, since: nat)
    requires CoilRun(states, which) && n < |states| - 1 && CoilOf(states[n], which).on == CoilOf(states[n + 1], which).on
    requires Timed(CoilOf(states[n], which), since, states[n].clock)
    ensures Timed(CoilOf(states[n + 1], which), since, states[n + 1].clock)
  {
    assert CoilNext(states, which, n);
    EffectKeepsTimed(CoilOf(states[n], which), CoilOf(states[n + 1], which), since, states[n].clock, states[n + 1].clock);
  }

  lemma {:induction false} RestKeepsTimed(states: seq<Plant>, which: Which, a: nat, b: nat)
    requires CoilRun(states, which) && a <= b < |states| && AtRest(states, which, a, b)
    requires Timed(CoilOf(states[a], which), states[a].clock, states[a].clock)
    ensures Timed(CoilOf(states[b], which), states[a].clock, states[b].clock)
    decreases b
  {
    if a < b {
      RestKeepsTimed(states, which, a, b - 1);
      TimedAfter(states, which, b - 1, states[a].clock);
    }
  }

  /** Step a - 1 of a run moves the coil. */
  predicate Moves(states: seq<Plant>, which: Which, a: nat)
    requires a < |states|
  {
    a > 0 && CoilOf(states[a - 1], which).on != CoilOf(states[a], which).on
  }

  lemma MovedCoil(states: seq<Plant>, which: Which, a: nat)
    requires CoilRun(states, which) && a < |states| && Moves(states, which, a)
    ensures var c := CoilOf(states[a], which);
            !c.fireOnce && c.timer == Some(states[a].clock + 300) && c.posted == CoilOf(states[a - 1], which).posted
  {
    assert CoilNext(states, which, a - 1);
  }

  /** If no callback is posted when a coil moves, a flag set while it stays there says that it has
      been there for the pull-in time. */
  lemma FlagMeansSettled(states: seq<Plant>, steps: seq<Step>, which: Which, a: nat, b: nat)
    requires IsRun(states, steps) && a <= b < |states| && Moves(states, which, a) && AtRest(states, which, a, b)
    requires CoilOf(states[a], which).posted == 0 && CoilOf(states[b], which).fireOnce
    ensures states[a].clock + 300 <= states[b].clock
  {
    RunIsCoilRun(states, steps, which);
    MovedCoil(states, which, a);
    RestKeepsTimed(states, which, a, b);
  }

  /** The flag of a coil that has never moved is not set. */
  lemma {:induction false} UnmovedHasNoFlag(states: seq<Plant>, which: Which, n: nat)
    requires CoilRun(states, which) && |states| > 0 && states[0] == POWER_ON && n < |states| && AtRest(states, which, 0, n)
    ensures CoilOf(states[n], which) == Coil(false, false, None, 0)
    decreases n
  {
    if n > 0 {
      UnmovedHasNoFlag(states, which, n - 1);
      assert CoilNext(states, which, n - 1);
    }
  }

  lemma {:induction false} LastMove(states: seq<Plant>, which: Which, n: nat) returns (a: nat)
    requires n < |states|
    ensures a <= n && AtRest(states, which, a, n) && (a == 0 || Moves(states, which, a))
    decreases n
  {
    if n == 0 || Moves(states, which, n) {
      a := n;
    } else {
      a := LastMove(states, which, n - 1);
    }
  }

  /** So in every run a set flag has a move behind it, and is premature only if a callback was posted
      when that move was made. */
  lemma PrematureNeedsPosted(states: seq<Plant>, steps: seq<Step>, which: Which, n: nat) returns (a: nat)
    requires IsRun(states, steps) && n < |states| && CoilOf(states[n], which).fireOnce
    ensures a <= n && Moves(states, which, a) && AtRest(states, which, a, n)
    ensures states[n].clock < states[a].clock + 300 ==> CoilOf(states[a], which).posted > 0
  {
    RunIsCoilRun(states, steps, which);
    a := LastMove(states, which, n);
    if a == 0 { UnmovedHasNoFlag(states, which, n); }
    if CoilOf(states[a], which).posted == 0 { FlagMeansSettled(states, steps, which, a, n); }
  }

  /** The same, field by field: the flag of the precharge coil ... */
  lemma PrechargeFlag(states: seq<Plant>, steps: seq<Step>, n: nat) returns (a: nat)
    requires IsRun(states, steps) && n < |states| && states[n].contactors.prechargeFireOnce
    ensures 0 < a <= n && states[a - 1].contactors.prechargeCoil != states[a].contactors.prechargeCoil
    ensures forall j :: a <= j <= n ==> states[j].contactors.prechargeCoil == states[n].contactors.prechargeCoil
    ensures states[a].contactors.prechargePosted == 0 ==> states[a].clock + 300 <= states[n].clock
  {
    a := PrematureNeedsPosted(states, steps, PrechargeCoil, n);
    forall j | a <= j <= n ensures states[j].contactors.prechargeCoil == states[n].contactors.prechargeCoil {
      assert CoilOf(states[j], PrechargeCoil).on == CoilOf(states[n], PrechargeCoil).on;
    }
  }

  /** ... and the flag of the run coil. */
  lemma RunFlag(states: seq<Plant>, steps: seq<Step>, n: nat) returns (a: nat)
    requires IsRun(states, steps) && n < |states| && states[n].contactors.runFireOnce
    ensures 0 < a <= n && states[a - 1].contactors.runCoil != states[a].contactors.runCoil
    ensures forall j :: a <= j <= n ==> states[j].contactors.runCoil == states[n].contactors.runCoil
    ensures states[a].contactors.runPosted == 0 ==> states[a].clock + 300 <= states[n].clock
  {
    a := PrematureNeedsPosted(states, steps, RunCoil, n);
    forall j | a <= j <= n ensures states[j].contactors.runCoil == states[n].contactors.runCoil {
      assert CoilOf(states[j], RunCoil).on == CoilOf(states[n], RunCoil).on;
    }
  }

  /** A coil that moves starts its timer at exactly 300 ms and loses its flag; one that does not move
      never has its timer started. */
  lemma MovesStartTimers(states: seq<Plant>, steps: seq<Step>, n: nat)
    requires IsRun(states, steps) && n < |steps|
    ensures var p, q := states[n].contactors, states[n + 1].contactors;
            var now := states[n + 1].clock;
            && (p.prechargeCoil != q.prechargeCoil ==> q.prechargeTimer == Some(now + 300) && !q.prechargeFireOnce)
            && (p.runCoil != q.runCoil ==> q.runTimer == Some(now + 300) && !q.runFireOnce)
            && (p.prechargeCoil == q.prechargeCoil ==> q.prechargeTimer == p.prechargeTimer || q.prechargeTimer == None)
            && (p.runCoil == q.runCoil ==> q.runTimer == p.runTimer || q.runTimer == None)
  {
    TabledAt(states, steps, n);
    StepOnCoil(states[n], steps[n], states[n + 1], PrechargeCoil);
    StepOnCoil(states[n], steps[n], states[n + 1], RunCoil);
  }

  // ---------- When a flag can be trusted ----------

  /** However the run goes on, as long as the coil stays where it is now, a set flag will say that it
      has been there for the pull-in time. */
  ghost predicate Trustworthy(states: seq<Plant>, steps: seq<Step>, which: Which)
    requires |states| == |steps| + 1
  {
    forall longer: seq<Plant>, path: seq<Step> ::
      Extends(states, steps, longer, path) && AtRest(longer, which, |steps|, |path|) && CoilOf(longer[|path|], which).fireOnce
      ==> states[|steps|].clock + 300 <= longer[|path|].clock
  }

  predicate Extends(states: seq<Plant>, steps: seq<Step>, longer: seq<Plant>, path: seq<Step>) {
    IsRun(longer, path) && states <= longer && steps <= path && |states| == |steps| + 1
  }

  /** With a callback posted, the very next step can set the flag. */
  lemma PostedCallbackFires(states: seq<Plant>, steps: seq<Step>, which: Which)
    returns (longer: seq<Plant>, path: seq<Step>)
    requires IsRun(states, steps) && CoilOf(states[|steps|], which).posted > 0
    ensures Extends(states, steps, longer, path) && path == steps + [Callback(which)]
    ensures CoilOf(longer[|path|], which).fireOnce && CoilOf(longer[|path|], which).on == CoilOf(states[|steps|], which).on
    ensures longer[|path|].clock == states[|steps|].clock
  {
    var q := Fires(states[|steps|], which);
    longer, path := ExtendRun(states, steps, Callback(which), q);
  }

  /** At the moment a coil moves, its flag can be trusted until the next move if and only if none of
      its callbacks is posted. */
  lemma TrustworthyIff(states: seq<Plant>, steps: seq<Step>, which: Which)
    requires IsRun(states, steps) && Moves(states, which, |steps|)
    ensures Trustworthy(states, steps, which) <==> CoilOf(states[|steps|], which).posted == 0
  {
    if CoilOf(states[|steps|], which).posted == 0 {
      forall longer: seq<Plant>, path: seq<Step> | Extends(states, steps, longer, path) && AtRest(longer, which, |steps|, |path|) &&
                            CoilOf(longer[|path|], which).fireOnce
        ensures states[|steps|].clock + 300 <= longer[|path|].clock
      {
        FlagMeansSettled(longer, path, which, |steps|, |path|);
      }
    } else {
      var longer, path := PostedCallbackFires(states, steps, which);
      assert AtRest(longer, which, |steps|, |path|);
      assert states[|steps|].clock + 300 > longer[|path|].clock;
    }
  }

  // ---------- The failing runs ----------

  // A closed coil whose timer has just been started.
  predicate JustClosed(p: Plant, which: Which) {
    && Joint(p) && p.contactors.state.Operational() && p.state.Rank() >= StartedPrecharge.Rank()
    && CoilOf(p, which).on && CoilOf(p, which).timer == Some(p.clock + 300)
  }

  const FAULTY := HEALTHY.(bms := false)

  lemma FaultOpens(p: Plant, which: Which) returns (q: Plant)
    requires Joint(p) && p.contactors.state.Operational() && CoilOf(p, which).on && CoilOf(p, which).posted > 0
    ensures Leads(p, Process(FAULTY), q) && q.clock == p.clock
    ensures !CoilOf(q, which).on && CoilOf(q, which).posted > 0
  {
    q := TakeProcess(p, FAULTY);
    FaultStepOpens(p, FAULTY, q);
    SyncedCoil(p, NextContactor(p.contactors.state, p.state, p.enable, FAULTY), q, which);
  }

  lemma Expires(p: Plant, which: Which) returns (late: Plant, q: Plant)
    requires JustClosed(p, which)
    ensures Leads(p, Pass(300), late) && Leads(late, Expiry(which), q)
    ensures Joint(q) && q.contactors.state.Operational() && CoilOf(q, which).on && CoilOf(q, which).posted > 0
  {
    late := p.(clock := p.clock + 300);
    q := Apply(late, Expiry(which)).value;
  }

  lemma Fires(p: Plant, which: Which) returns (q: Plant)
    requires CoilOf(p, which).posted > 0
    ensures Leads(p, Callback(which), q) && q.clock == p.clock
    ensures CoilOf(q, which).fireOnce && CoilOf(q, which).on == CoilOf(p, which).on
  {
    q := Apply(p, Callback(which)).value;
  }

  // On one and the same tick a coil's timer expires, a process step with a fault opens the coil, and
  // the callback posted before says that it has settled.
  lemma ExpireAndFault(states: seq<Plant>, steps: seq<Step>, which: Which)
    returns (longer: seq<Plant>, path: seq<Step>)
    requires IsRun(states, steps) && JustClosed(states[|steps|], which)
    ensures IsRun(longer, path) && |path| == |steps| + 4
    ensures Moves(longer, which, |path| - 1)
    ensures CoilOf(longer[|path|], which).fireOnce && !CoilOf(longer[|path|], which).on
    ensures longer[|path|].clock == longer[|path| - 1].clock
  {
    var late, expired := Expires(states[|steps|], which);
    var faulted := FaultOpens(expired, which);
    var flagged := Fires(faulted, which);
    longer, path := ExtendRun(states, steps, Pass(300), late);
    longer, path := ExtendRun(longer, path, Expiry(which), expired);
    longer, path := ExtendRun(longer, path, Process(FAULTY), faulted);
    longer, path := ExtendRun(longer, path, Callback(which), flagged);
  }

  /** Either flag can be wrong: a run at whose end it is set at the instant its coil has moved. */
  lemma FlagCanBePremature(which: Which) returns (states: seq<Plant>, steps: seq<Step>)
    ensures IsRun(states, steps) && |steps| > 0 && Moves(states, which, |steps| - 1)
    ensures CoilOf(states[|steps|], which).fireOnce && !CoilOf(states[|steps|], which).on
    ensures states[|steps|].clock == states[|steps| - 1].clock
  {
    if which == PrechargeCoil {
      states, steps := StartedRun();
    } else {
      states, steps := RunCoilCanClose();
    }
    states, steps := ExpireAndFault(states, steps, which);
  }
}

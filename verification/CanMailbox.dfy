/** The CAN receive path: the interrupt drains the controller's FIFO into a pool of 32 slots, the
    thread takes slots from the mail queue, dispatches them and gives them back. */
module CanMailbox {
  import opened Wrappers

  const SLOTS: nat := 32

  datatype Frame = Frame(id: nat, data: seq<nat>)

  /** `free` is the pool's free list, `queue` the mail queue, both of slot numbers; `next` is
      next_message; `held` is the slot the thread is working on, `dispatched` whether it has
      already been dispatched. `memory` holds the slots' contents. History: `read` is every frame
      taken from the FIFO, `kept` the positions in `read` of those that were not dropped, and
      `delivered` the frames dispatched. */
  datatype Mailbox = Mailbox(
    fifo: seq<Frame>, inInterrupt: bool,
    free: seq<nat>, queue: seq<nat>, next: Option<nat>, held: Option<nat>, dispatched: bool,
    memory: map<nat, Frame>,
    read: seq<Frame>, kept: seq<nat>, delivered: seq<Frame>)

  // What the pool is cleared to when it is created.
  const NO_FRAME := Frame(0, [])

  function Load(memory: map<nat, Frame>, slot: nat): Frame {
    if slot in memory then memory[slot] else NO_FRAME
  }

  function Slots(o: Option<nat>): seq<nat> {
    if o.Some? then [o.value] else []
  }

  // ---------- Where the slots are ----------

  function Places(m: Mailbox): multiset<nat> {
    multiset(m.free) + multiset(m.queue) + multiset(Slots(m.next)) + multiset(Slots(m.held))
  }

  // All slots, each of them once.
  predicate IsPool(slots: multiset<nat>) {
    |slots| == SLOTS && forall s :: s in slots ==> s < SLOTS && slots[s] == 1
  }

  /** Every slot is in exactly one place. */
  predicate Partition(m: Mailbox) {
    IsPool(Places(m))
  }

  // A slot anywhere is a valid index, and is not in two places.
  lemma Located(m: Mailbox, s: nat)
    requires Partition(m) && s in Places(m)
    ensures s < SLOTS && Places(m)[s] == 1
  {
  }

  lemma Unshift(s: seq<nat>)
    requires |s| > 0
    ensures multiset(s) == multiset([s[0]]) + multiset(s[1..])
  {
    assert s == [s[0]] + s[1..];
  }

  // ---------- One pass of the interrupt's do-while loop ----------

  function Allocate(m: Mailbox): Mailbox {
    if m.next.None? && |m.free| > 0
    then m.(next := Some(m.free[0]), free := m.free[1..])
    else m
  }

  /** Read into next_message and post it, or into the trash can when there is no slot. The loop
      goes on exactly when a frame was read. */
  function ReadOne(m: Mailbox): Mailbox {
    if |m.fifo| == 0 then m
    else
      var frame := m.fifo[0];
      var rest := m.(fifo := m.fifo[1..], read := m.read + [frame]);
      if m.next.Some?
      then rest.(memory := m.memory[m.next.value := frame], queue := m.queue + [m.next.value], next := None,
                 kept := m.kept + [|m.read|])
      else rest
  }

  function Iterate(m: Mailbox): Mailbox {
    ReadOne(Allocate(m))
  }

  // What arrives just before the next pass, and before those after it.
  function Now(arriving: seq<seq<Frame>>): seq<Frame> {
    if arriving == [] then [] else arriving[0]
  }

  function Later(arriving: seq<seq<Frame>>): seq<seq<Frame>> {
    if arriving == [] then [] else arriving[1..]
  }

  function Receive(m: Mailbox, frames: seq<Frame>): Mailbox {
    m.(fifo := m.fifo + frames)
  }

  /** The whole interrupt, with more frames arriving before each of its passes. */
  function Drain(m: Mailbox, arriving: seq<seq<Frame>>): Mailbox
    decreases |arriving|, |m.fifo|
  {
    var ready := Receive(m, Now(arriving));
    if |ready.fifo| == 0 then Iterate(ready) else Drain(Iterate(ready), Later(arriving))
  }

  /** The frames that arrive before it ends. */
  function Landed(m: Mailbox, arriving: seq<seq<Frame>>): seq<Frame>
    decreases |arriving|, |m.fifo|
  {
    var ready := Receive(m, Now(arriving));
    Now(arriving) + if |ready.fifo| == 0 then [] else Landed(Iterate(ready), Later(arriving))
  }

  // ---------- Steps ----------

  datatype Step =
    | Arrive(frame: Frame)
    | InterruptEntry
    | InterruptPass
    | Get
    | Dispatch
    | Free

  // The thread cannot run while the interrupt does.
  predicate Enabled(m: Mailbox, step: Step) {
    match step
    case Arrive(_) => true
    case InterruptEntry => !m.inInterrupt
    case InterruptPass => m.inInterrupt
    case Get => !m.inInterrupt && m.held.None? && |m.queue| > 0
    case Dispatch => !m.inInterrupt && m.held.Some? && !m.dispatched
    case Free => !m.inInterrupt && m.held.Some? && m.dispatched
  }

  function Apply(m: Mailbox, step: Step): Mailbox
    requires Enabled(m, step)
  {
    match step
    case Arrive(frame) => m.(fifo := m.fifo + [frame])
    case InterruptEntry => m.(inInterrupt := true)
    case InterruptPass => Iterate(m).(inInterrupt := |m.fifo| > 0)
    case Get => m.(held := Some(m.queue[0]), queue := m.queue[1..], dispatched := false)
    case Dispatch => m.(delivered := m.delivered + [Load(m.memory, m.held.value)], dispatched := true)
    case Free => m.(free := [m.held.value] + m.free, held := None)
  }

  // ---------- The invariant ----------

  // Frames the thread has taken but not dispatched yet, and frames still queued.
  function InHand(m: Mailbox): (r: seq<nat>) {
    if m.held.Some? && !m.dispatched then [m.held.value] else []
  }

  predicate Increasing(s: seq<nat>) {
    forall i, j :: 0 <= i < j < |s| ==> s[i] < s[j]
  }

  /** `kept` points, in order of arrival, at the delivered frames and then at the waiting ones,
      which their slots still hold. */
  predicate InOrder(waiting: seq<nat>, memory: map<nat, Frame>, read: seq<Frame>, kept: seq<nat>, delivered: seq<Frame>) {
    && Increasing(kept) && (forall i :: 0 <= i < |kept| ==> kept[i] < |read|)
    && |kept| == |delivered| + |waiting|
    && (forall i :: 0 <= i < |delivered| ==> delivered[i] == read[kept[i]])
    && (forall i :: 0 <= i < |waiting| ==> Waits(waiting[i], memory, read, kept, |delivered| + i))
  }

  predicate Waits(slot: nat, memory: map<nat, Frame>, read: seq<Frame>, kept: seq<nat>, i: nat) {
    i < |kept| && kept[i] < |read| && Load(memory, slot) == read[kept[i]]
  }

  // The frame in hand comes before the queued ones.
  function Waiting(m: Mailbox): (r: seq<nat>) {
    InHand(m) + m.queue
  }

  predicate Sound(m: Mailbox) {
    Partition(m) && InOrder(Waiting(m), m.memory, m.read, m.kept, m.delivered)
  }

  lemma FrameKept(waiting: seq<nat>, memory: map<nat, Frame>, read: seq<Frame>, kept: seq<nat>, delivered: seq<Frame>,
                  slot: nat, frame: Frame)
    requires InOrder(waiting, memory, read, kept, delivered) && slot !in waiting
    ensures InOrder(waiting + [slot], memory[slot := frame], read + [frame], kept + [|read|], delivered)
  {
    var w, mem, rd, kp := waiting + [slot], memory[slot := frame], read + [frame], kept + [|read|];
    forall i | 0 <= i < |w| ensures Waits(w[i], mem, rd, kp, |delivered| + i) {
      if i < |waiting| { assert Waits(waiting[i], memory, read, kept, |delivered| + i); }
    }
  }

  lemma FrameDropped(waiting: seq<nat>, memory: map<nat, Frame>, read: seq<Frame>, kept: seq<nat>, delivered: seq<Frame>,
                     frame: Frame)
    requires InOrder(waiting, memory, read, kept, delivered)
    ensures InOrder(waiting, memory, read + [frame], kept, delivered)
  {
    forall i | 0 <= i < |waiting| ensures Waits(waiting[i], memory, read + [frame], kept, |delivered| + i) {
      assert Waits(waiting[i], memory, read, kept, |delivered| + i);
    }
  }

  lemma FrameDelivered(slot: nat, rest: seq<nat>, memory: map<nat, Frame>, read: seq<Frame>, kept: seq<nat>, delivered: seq<Frame>)
    requires InOrder([slot] + rest, memory, read, kept, delivered)
    ensures InOrder(rest, memory, read, kept, delivered + [Load(memory, slot)])
  {
    assert Waits(([slot] + rest)[0], memory, read, kept, |delivered|);
    forall i | 0 <= i < |rest| ensures Waits(rest[i], memory, read, kept, |delivered| + 1 + i) {
      assert Waits(([slot] + rest)[i + 1], memory, read, kept, |delivered| + (i + 1));
    }
  }

  // A slot that is both in next_message and waiting is in two places.
  lemma TwicePlaced(m: Mailbox)
    requires m.next.Some? && m.next.value in Waiting(m)
    ensures Places(m)[m.next.value] >= 2
  {
    var s := m.next.value;
    assert s in multiset(m.queue) || s in multiset(Slots(m.held));
  }

  lemma NextIsNotWaiting(m: Mailbox)
    requires Partition(m) && m.next.Some?
    ensures m.next.value < SLOTS && m.next.value !in Waiting(m)
  {
    if m.next.value in Waiting(m) { TwicePlaced(m); }
    Located(m, m.next.value);
  }

  lemma ReadKeepsPartition(m: Mailbox)
    requires Partition(m)
    ensures Partition(ReadOne(m))
  {
    assert Places(ReadOne(m)) == Places(m);
  }

  lemma ReadKeepsOrder(m: Mailbox)
    requires InOrder(Waiting(m), m.memory, m.read, m.kept, m.delivered)
    requires m.next.Some? ==> m.next.value !in Waiting(m)
    ensures var r := ReadOne(m);
            InOrder(Waiting(r), r.memory, r.read, r.kept, r.delivered)
  {
    var r := ReadOne(m);
    if |m.fifo| > 0 {
      if m.next.Some? {
        assert Waiting(r) == Waiting(m) + [m.next.value];
        FrameKept(Waiting(m), m.memory, m.read, m.kept, m.delivered, m.next.value, m.fifo[0]);
      } else {
        FrameDropped(Waiting(m), m.memory, m.read, m.kept, m.delivered, m.fifo[0]);
      }
    }
  }

  lemma IterateKeepsSound(m: Mailbox)
    requires Sound(m)
    ensures Sound(Iterate(m))
  {
    PassKeepsPartition(m);
    assert Waiting(Allocate(m)) == Waiting(m);
    if Allocate(m).next.Some? { NextIsNotWaiting(Allocate(m)); }
    ReadKeepsOrder(Allocate(m));
  }

  lemma GetKeepsSound(m: Mailbox)
    requires Sound(m) && Enabled(m, Get)
    ensures Sound(Apply(m, Get))
  {
    Unshift(m.queue);
    assert Places(Apply(m, Get)) == Places(m);
    assert Waiting(Apply(m, Get)) == Waiting(m);
  }

  lemma DispatchKeepsSound(m: Mailbox)
    requires Sound(m) && Enabled(m, Dispatch)
    ensures Sound(Apply(m, Dispatch))
  {
    var r := Apply(m, Dispatch);
    assert Waiting(m) == [m.held.value] + Waiting(r);
    FrameDelivered(m.held.value, Waiting(r), m.memory, m.read, m.kept, m.delivered);
    assert Places(r) == Places(m);
  }

  lemma FreeKeepsSound(m: Mailbox)
    requires Sound(m) && Enabled(m, Free)
    ensures Sound(Apply(m, Free))
  {
    var r := Apply(m, Free);
    Unshift(r.free);
    assert Places(r) == Places(m);
    assert Waiting(r) == Waiting(m);
  }

  lemma StepKeepsSound(m: Mailbox, step: Step)
    requires Sound(m) && Enabled(m, step)
    ensures Sound(Apply(m, step))
  {
    match step
    case Arrive(_) => assert Waiting(Apply(m, step)) == Waiting(m);
    case InterruptEntry => assert Waiting(Apply(m, step)) == Waiting(m);
    case InterruptPass =>
      IterateKeepsSound(m);
      assert Waiting(Apply(m, step)) == Waiting(Iterate(m));
    case Get => GetKeepsSound(m);
    case Dispatch => DispatchKeepsSound(m);
    case Free => FreeKeepsSound(m);
  }

  // ---------- Runs ----------

  predicate IsStart(m: Mailbox) {
    && m.fifo == [] && !m.inInterrupt && IsPool(multiset(m.free)) && m.queue == []
    && m.next.None? && m.held.None?
    && m.read == [] && m.kept == [] && m.delivered == []
  }

  predicate IsRun(states: seq<Mailbox>, steps: seq<Step>) {
    && |states| == |steps| + 1
    && IsStart(states[0])
    && forall i :: 0 <= i < |steps| ==> Leads(states[i], steps[i], states[i + 1])
  }

  predicate Leads(m: Mailbox, step: Step, r: Mailbox) {
    Enabled(m, step) && r == Apply(m, step)
  }

  function Arrivals(steps: seq<Step>): (r: seq<Frame>) {
    if |steps| == 0 then []
    else
      var last := steps[|steps| - 1];
      Arrivals(steps[..|steps| - 1]) + if last.Arrive? then [last.frame] else []
  }

  lemma StartIsSound(m: Mailbox)
    requires IsStart(m)
    ensures Sound(m)
  {
    assert Places(m) == multiset(m.free);
  }

  lemma LeadsKeepsSound(m: Mailbox, step: Step, r: Mailbox)
    requires Sound(m) && Leads(m, step, r)
    ensures Sound(r)
  {
    StepKeepsSound(m, step);
  }

  // A stretch of a run.
  predicate Chain(states: seq<Mailbox>, steps: seq<Step>) {
    && |states| == |steps| + 1
    && forall i :: 0 <= i < |steps| ==> Leads(states[i], steps[i], states[i + 1])
  }

  function SoundFlags(states: seq<Mailbox>): (r: seq<bool>)
    ensures |r| == |states| && forall i {:trigger r[i]} :: 0 <= i < |r| ==> r[i] == Sound(states[i])
  {
    seq(|states|, i requires 0 <= i < |states| => Sound(states[i]))
  }

  lemma {:induction false} AllFollow(flags: seq<bool>, n: nat)
    requires n < |flags| && flags[0] && forall i :: 0 < i < |flags| && flags[i - 1] ==> flags[i]
    ensures flags[n]
  {
    if n > 0 { AllFollow(flags, n - 1); }
  }

  lemma ChainKeepsSound(states: seq<Mailbox>, steps: seq<Step>, n: nat)
    requires Chain(states, steps) && Sound(states[0]) && n < |states|
    ensures Sound(states[n])
  {
    var flags := SoundFlags(states);
    forall i | 0 < i < |flags| && flags[i - 1] ensures flags[i] {
      LeadsKeepsSound(states[i - 1], steps[i - 1], states[i]);
    }
    AllFollow(flags, n);
  }

  lemma SoundAt(states: seq<Mailbox>, steps: seq<Step>, n: nat)
    requires IsRun(states, steps) && n < |states|
    ensures Sound(states[n])
  {
    StartIsSound(states[0]);
    ChainKeepsSound(states, steps, n);
  }

  lemma {:induction false} ArrivalsAt(states: seq<Mailbox>, steps: seq<Step>, n: nat)
    requires IsRun(states, steps) && n < |states|
    ensures Arrivals(steps[..n]) == states[n].read + states[n].fifo
    decreases n
  {
    if n > 0 {
      ArrivalsAt(states, steps, n - 1);
      assert Leads(states[n - 1], steps[n - 1], states[n]);
      assert steps[..n][..n - 1] == steps[..n - 1];
      ReadFollowsFifo(states[n - 1], steps[n - 1]);
    }
  }

  /** The invariant holds throughout, and what has arrived is what was read plus what is still in
      the FIFO. */
  lemma MailboxInvariant(states: seq<Mailbox>, steps: seq<Step>, n: nat)
    requires IsRun(states, steps) && n < |states|
    ensures Sound(states[n]) && Arrivals(steps[..n]) == states[n].read + states[n].fifo
  {
    SoundAt(states, steps, n);
    ArrivalsAt(states, steps, n);
  }

  lemma ReadFollowsFifo(m: Mailbox, step: Step)
    requires Enabled(m, step)
    ensures var r := Apply(m, step);
            r.read + r.fifo == m.read + m.fifo + if step.Arrive? then [step.frame] else []
  {
    var r := Apply(m, step);
    if step.InterruptPass? && |m.fifo| > 0 {
      assert r.read == m.read + [m.fifo[0]] && r.fifo == m.fifo[1..];
    } else if step.Arrive? {
      assert r.fifo == m.fifo + [step.frame];
    } else {
      assert r.read == m.read && r.fifo == m.fifo;
    }
  }

  /** Delivered frames are a duplicate-free subsequence of the arrivals, in order: position i of
      what was delivered is position kept[i] of what arrived. */
  lemma DeliveredInOrder(states: seq<Mailbox>, steps: seq<Step>, n: nat) returns (kept: seq<nat>)
    requires IsRun(states, steps) && n < |states|
    ensures Increasing(kept) && |kept| == |states[n].delivered|
    ensures forall i :: 0 <= i < |kept| ==>
            kept[i] < |Arrivals(steps[..n])| && states[n].delivered[i] == Arrivals(steps[..n])[kept[i]]
  {
    MailboxInvariant(states, steps, n);
    kept := states[n].kept[..|states[n].delivered|];
  }

  lemma SlotsConserved(states: seq<Mailbox>, steps: seq<Step>, n: nat)
    requires IsRun(states, steps) && n < |states|
    ensures var m := states[n];
            |m.free| + |m.queue| + (if m.next.Some? then 1 else 0) + (if m.held.Some? then 1 else 0) == 32
  {
    MailboxInvariant(states, steps, n);
    assert |Places(states[n])| == SLOTS;
  }

  predicate Drops(m: Mailbox, r: Mailbox) {
    |r.read| > |m.read| && r.kept == m.kept
  }

  /** A frame is dropped exactly when the interrupt reads one while it has no slot and the pool is
      empty, which means that all 32 slots are queued or in the thread's hands. */
  lemma DropIffPoolExhausted(states: seq<Mailbox>, steps: seq<Step>, n: nat)
    requires IsRun(states, steps) && n < |steps|
    ensures var m := states[n];
            && (Drops(m, states[n + 1])
                <==> steps[n].InterruptPass? && |m.fifo| > 0 && m.next.None? && |m.free| == 0)
            && (Drops(m, states[n + 1]) ==> |m.queue| + (if m.held.Some? then 1 else 0) == 32)
  {
    assert Leads(states[n], steps[n], states[n + 1]);
    SlotsConserved(states, steps, n);
  }

  /** The interrupt returns only when the hardware FIFO is empty. */
  lemma InterruptEndsDrained(states: seq<Mailbox>, steps: seq<Step>, n: nat)
    requires IsRun(states, steps) && n < |steps| && states[n].inInterrupt && !states[n + 1].inInterrupt
    ensures steps[n].InterruptPass? && states[n + 1].fifo == []
  {
    assert Leads(states[n], steps[n], states[n + 1]);
  }

  // ---------- The whole interrupt ----------

  function Min(a: nat, b: nat): nat {
    if a < b then a else b
  }

  function Room(m: Mailbox): nat {
    |m.free| + |Slots(m.next)|
  }

  // start, start + 1, ..., n of them
  function Range(start: nat, n: nat): (r: seq<nat>)
    ensures |r| == n
    decreases n
  {
    if n == 0 then [] else [start] + Range(start + 1, n - 1)
  }

  lemma PassEffect(m: Mailbox)
    requires |m.fifo| > 0
    ensures var r := Iterate(m);
            && r.fifo == m.fifo[1..] && r.read == m.read + [m.fifo[0]]
            && r.delivered == m.delivered && r.held == m.held
            && (Room(m) == 0 ==> Room(r) == 0 && r.kept == m.kept && |r.queue| == |m.queue|)
            && (Room(m) > 0 ==> Room(r) == Room(m) - 1 && r.kept == m.kept + [|m.read|] && |r.queue| == |m.queue| + 1)
  {
  }

  lemma Reassociate<T>(a: seq<T>, b: seq<T>, c: seq<T>)
    ensures a + (b + c) == a + b + c
  {
  }

  lemma Unqueue<T>(read: seq<T>, queue: seq<T>)
    requires queue != []
    ensures read + [queue[0]] + queue[1..] == read + queue
  {
    assert [queue[0]] + queue[1..] == queue;
    Reassociate(read, [queue[0]], queue[1..]);
  }

  // One pass with frames to read, and the rest of the interrupt.
  lemma DrainNext(m: Mailbox, arriving: seq<seq<Frame>>) returns (r: Mailbox, rest: seq<Frame>)
    requires |m.fifo| + |Now(arriving)| > 0
    ensures r == Iterate(Receive(m, Now(arriving))) && rest == Landed(r, Later(arriving))
    ensures Drain(m, arriving) == Drain(r, Later(arriving)) && Landed(m, arriving) == Now(arriving) + rest
    ensures r.delivered == m.delivered && r.held == m.held && |r.read| == |m.read| + 1 && |r.fifo| == |m.fifo| + |Now(arriving)| - 1
    ensures r.read + r.fifo == m.read + (m.fifo + Now(arriving))
    ensures Room(m) == 0 ==> Room(r) == 0 && r.kept == m.kept && |r.queue| == |m.queue|
    ensures Room(m) > 0 ==> Room(r) == Room(m) - 1 && r.kept == m.kept + [|m.read|] && |r.queue| == |m.queue| + 1
  {
    var ready := Receive(m, Now(arriving));
    PassEffect(ready);
    r, rest := Iterate(ready), Landed(Iterate(ready), Later(arriving));
    Unqueue(m.read, ready.fifo);
  }

  // The pass that finds the FIFO empty.
  lemma DrainLast(m: Mailbox, arriving: seq<seq<Frame>>)
    requires |m.fifo| + |Now(arriving)| == 0
    ensures var r := Drain(m, arriving);
            && r.fifo == [] && r.read == m.read && r.delivered == m.delivered && r.held == m.held
            && r.kept == m.kept && r.queue == m.queue && Landed(m, arriving) == []
  {
    assert Receive(m, Now(arriving)) == m;
  }

  lemma DrainUnfolds(m: Mailbox, arriving: seq<seq<Frame>>)
    ensures var ready := Receive(m, Now(arriving));
            Drain(m, arriving) == if |ready.fifo| == 0 then Iterate(ready) else Drain(Iterate(ready), Later(arriving))
  {
  }

  lemma {:induction false} DrainReadsAll(m: Mailbox, arriving: seq<seq<Frame>>)
    ensures var r := Drain(m, arriving);
            && r.fifo == [] && r.read == m.read + (m.fifo + Landed(m, arriving))
            && r.delivered == m.delivered && r.held == m.held
    decreases |arriving|, |m.fifo|
  {
    if |m.fifo| + |Now(arriving)| > 0 {
      var r, rest := DrainNext(m, arriving);
      DrainReadsAll(r, Later(arriving));
      Reassociate(r.read, r.fifo, rest);
      Reassociate(m.read, m.fifo + Now(arriving), rest);
      Reassociate(m.fifo, Now(arriving), rest);
    } else {
      DrainLast(m, arriving);
    }
  }

  lemma RangeCons(before: seq<nat>, start: nat, n: nat)
    requires n > 0
    ensures before + [start] + Range(start + 1, n - 1) == before + Range(start, n)
  {
    Reassociate(before, [start], Range(start + 1, n - 1));
  }

  // With room for k frames, one of them taken by the next frame if there is any.
  lemma {:induction false} DrainKeeps(m: Mailbox, arriving: seq<seq<Frame>>, k: nat)
    requires k == Min(|m.fifo| + |Landed(m, arriving)|, Room(m))
    ensures Drain(m, arriving).kept == m.kept + Range(|m.read|, k)
    decreases |arriving|, |m.fifo|
  {
    if |m.fifo| + |Now(arriving)| > 0 {
      var r, rest := DrainNext(m, arriving);
      DrainKeeps(r, Later(arriving), if k == 0 then 0 else k - 1);
      if k > 0 { RangeCons(m.kept, |m.read|, k); }
    } else {
      DrainLast(m, arriving);
    }
  }

  lemma {:induction false} DrainQueues(m: Mailbox, arriving: seq<seq<Frame>>, k: nat)
    requires k == Min(|m.fifo| + |Landed(m, arriving)|, Room(m))
    ensures |Drain(m, arriving).queue| == |m.queue| + k
    decreases |arriving|, |m.fifo|
  {
    if |m.fifo| + |Now(arriving)| > 0 {
      var r, rest := DrainNext(m, arriving);
      DrainQueues(r, Later(arriving), if k == 0 then 0 else k - 1);
    } else {
      DrainLast(m, arriving);
    }
  }

  /** Whatever arrives meanwhile, the interrupt empties the FIFO, keeps the earliest frames, as many
      as there are slots for, and drops the rest. */
  lemma DrainKeepsEarliest(m: Mailbox, arriving: seq<seq<Frame>>)
    ensures var r := Drain(m, arriving);
            var kept := Min(|m.fifo| + |Landed(m, arriving)|, Room(m));
            && r.fifo == [] && r.read == m.read + (m.fifo + Landed(m, arriving))
            && r.kept == m.kept + Range(|m.read|, kept) && |r.queue| == |m.queue| + kept
  {
    var kept := Min(|m.fifo| + |Landed(m, arriving)|, Room(m));
    DrainReadsAll(m, arriving);
    DrainKeeps(m, arriving, kept);
    DrainQueues(m, arriving, kept);
  }

  lemma ChainThen(m: Mailbox, step: Step, states: seq<Mailbox>, steps: seq<Step>)
    requires Chain(states, steps) && Leads(m, step, states[0])
    ensures Chain([m] + states, [step] + steps)
  {
    var ss, ts := [m] + states, [step] + steps;
    forall i | 0 <= i < |ts| ensures Leads(ss[i], ts[i], ss[i + 1]) {
      if i > 0 { assert Leads(states[i - 1], steps[i - 1], states[i]); }
    }
  }

  lemma {:induction false} ArrivalsThen(m: Mailbox, frames: seq<Frame>, states: seq<Mailbox>, steps: seq<Step>)
    returns (longer: seq<Mailbox>, path: seq<Step>)
    requires Chain(states, steps) && states[0] == Receive(m, frames)
    requires forall i :: 0 <= i < |steps| ==> steps[i].Arrive? || steps[i].InterruptPass?
    ensures Chain(longer, path) && longer[0] == m && longer[|path|] == states[|steps|]
    ensures forall i :: 0 <= i < |path| ==> path[i].Arrive? || path[i].InterruptPass?
    decreases |frames|
  {
    if frames == [] {
      assert Receive(m, frames) == m;
      longer, path := states, steps;
    } else {
      var next := Receive(m, [frames[0]]);
      assert m.fifo + frames == m.fifo + [frames[0]] + frames[1..];
      longer, path := ArrivalsThen(next, frames[1..], states, steps);
      ChainThen(m, Arrive(frames[0]), longer, path);
      longer, path := [m] + longer, [Arrive(frames[0])] + path;
    }
  }

  /** Drain is the loop: a stretch of a run that consists of passes and arrivals only and ends with
      the interrupt. */
  lemma {:induction false} DrainIsSteps(m: Mailbox, arriving: seq<seq<Frame>>) returns (states: seq<Mailbox>, steps: seq<Step>)
    requires m.inInterrupt
    ensures Chain(states, steps) && states[0] == m
    ensures forall i :: 0 <= i < |steps| ==> steps[i].Arrive? || steps[i].InterruptPass?
    ensures states[|steps|] == Drain(m, arriving).(inInterrupt := false)
    decreases |arriving|, |m.fifo|
  {
    var ready := Receive(m, Now(arriving));
    var r := Apply(ready, InterruptPass);
    if |ready.fifo| == 0 {
      states, steps := [r], [];
    } else {
      assert r == Iterate(ready);
      states, steps := DrainIsSteps(r, Later(arriving));
    }
    ChainThen(ready, InterruptPass, states, steps);
    states, steps := ArrivalsThen(m, Now(arriving), [ready] + states, [InterruptPass] + steps);
  }

  // An interrupt is entered, drains the FIFO and ends.
  function Interrupt(m: Mailbox, arriving: seq<seq<Frame>>): Mailbox {
    Drain(m.(inInterrupt := true), arriving).(inInterrupt := false)
  }

  lemma InterruptKeepsEarliest(m: Mailbox, arriving: seq<seq<Frame>>)
    ensures var r := Interrupt(m, arriving);
            var landed := Landed(m.(inInterrupt := true), arriving);
            && r.fifo == [] && r.read == m.read + (m.fifo + landed)
            && r.kept == m.kept + Range(|m.read|, Min(|m.fifo| + |landed|, Room(m)))
  {
    DrainKeepsEarliest(m.(inInterrupt := true), arriving);
  }

  /** The whole interrupt is a stretch of a run: its entry, then passes and arrivals only. */
  lemma InterruptIsSteps(m: Mailbox, arriving: seq<seq<Frame>>) returns (states: seq<Mailbox>, steps: seq<Step>)
    requires !m.inInterrupt
    ensures Chain(states, steps) && states[0] == m && states[|steps|] == Interrupt(m, arriving)
    ensures |steps| > 0 && steps[0] == InterruptEntry
    ensures forall i :: 1 <= i < |steps| ==> steps[i].Arrive? || steps[i].InterruptPass?
  {
    states, steps := DrainIsSteps(m.(inInterrupt := true), arriving);
    ChainThen(m, InterruptEntry, states, steps);
    states, steps := [m] + states, [InterruptEntry] + steps;
  }

  lemma InterruptKeepsSound(m: Mailbox, arriving: seq<seq<Frame>>)
    requires Sound(m) && !m.inInterrupt
    ensures Sound(Interrupt(m, arriving))
  {
    var states, steps := InterruptIsSteps(m, arriving);
    ChainKeepsSound(states, steps, |steps|);
  }

  lemma {:induction false} RangeAt(start: nat, n: nat, i: nat)
    requires i < n
    ensures Range(start, n)[i] == start + i
    decreases n
  {
    if i > 0 { RangeAt(start + 1, n - 1, i - 1); }
  }

  // With nothing delivered yet, the queue holds the frames that were kept.
  lemma QueuedContents(queue: seq<nat>, memory: map<nat, Frame>, read: seq<Frame>, kept: seq<nat>, k: nat)
    requires InOrder(queue, memory, read, kept, []) && kept == Range(0, k)
    ensures |queue| == k <= |read|
    ensures forall i :: 0 <= i < k ==> Load(memory, queue[i]) == read[i]
  {
    forall i | 0 <= i < k ensures i < |read| && Load(memory, queue[i]) == read[i] {
      assert Waits(queue[i], memory, read, kept, i);
      RangeAt(0, k, i);
    }
    if k > 0 { RangeAt(0, k, k - 1); }
  }

  lemma FreshRoom(m: Mailbox)
    requires IsStart(m)
    ensures Room(m) == 32
  {
    assert |m.free| == |multiset(m.free)|;
  }

  /** The first interrupt of a fresh receiver queues every frame that arrives while it runs if there
      are at most 32, and the first 32 otherwise, contents included and in order. */
  lemma FreshInterrupt(m: Mailbox, arriving: seq<seq<Frame>>)
    requires IsStart(m)
    ensures var r := Interrupt(m, arriving);
            var landed := Landed(m.(inInterrupt := true), arriving);
            && |r.queue| == (if |landed| <= 32 then |landed| else 32)
            && (forall i :: 0 <= i < |r.queue| ==> Load(r.memory, r.queue[i]) == landed[i])
  {
    var r, landed := Interrupt(m, arriving), Landed(m.(inInterrupt := true), arriving);
    var k := Min(|landed|, 32);
    assert r.read == landed && r.kept == Range(0, k) && r.delivered == [] && r.held == None by {
      FreshRoom(m);
      DrainKeepsEarliest(m.(inInterrupt := true), arriving);
      DrainReadsAll(m.(inInterrupt := true), arriving);
    }
    assert Sound(r) by {
      StartIsSound(m);
      InterruptKeepsSound(m, arriving);
    }
    assert Waiting(r) == r.queue;
    QueuedContents(r.queue, r.memory, r.read, r.kept, k);
  }

  // ---------- Who may act ----------

  predicate MayAct(m: Mailbox, step: Step) {
    match step
    case Arrive(_) => true
    case InterruptEntry => !m.inInterrupt
    case InterruptPass => m.inInterrupt
    case Get => !m.inInterrupt && m.held == None && m.queue != []
    case Dispatch => !m.inInterrupt && m.held != None && !m.dispatched
    case Free => !m.inInterrupt && m.held != None && m.dispatched
  }

  /** Frames may arrive and the interrupt may be entered at any time; the thread takes, dispatches and
      frees one slot after the other whenever the interrupt is not running, and nothing else happens. */
  lemma AnyoneMayAct(states: seq<Mailbox>, steps: seq<Step>, step: Step)
    requires IsRun(states, steps)
    ensures MayAct(states[|steps|], step) <==> exists r :: IsRun(states + [r], steps + [step])
  {
    var m := states[|steps|];
    if MayAct(m, step) {
      var r := Apply(m, step);
      var ss, ts := states + [r], steps + [step];
      forall i | 0 <= i < |ts| ensures Leads(ss[i], ts[i], ss[i + 1]) {
        if i < |steps| { assert Leads(states[i], steps[i], states[i + 1]); }
      }
      assert IsRun(ss, ts);
    }
    forall r | IsRun(states + [r], steps + [step]) ensures MayAct(m, step) {
      assert Leads((states + [r])[|steps|], (steps + [step])[|steps|], (states + [r])[|steps| + 1]);
    }
  }

  // ---------- The receiver as it is: slots in memory, the interrupt's loop, the thread ----------

  ghost function Memory(slots: array<Frame>): map<nat, Frame>
    reads slots
  {
    map s: nat | s < slots.Length :: slots[s]
  }

  // Slot numbers are indices of the pool.
  predicate InRange(slots: seq<nat>) {
    forall i :: 0 <= i < |slots| ==> slots[i] < SLOTS
  }

  class CanReceiver {
    const slots: array<Frame>
    var fifo: seq<Frame>
    var free: seq<nat>
    var messageBox: seq<nat>
    var nextMessage: Option<nat>
    var held: Option<nat>
    var dispatched: bool
    ghost var inInterrupt: bool
    ghost var read: seq<Frame>
    ghost var kept: seq<nat>
    var delivered: seq<Frame>

    ghost function View(): Mailbox
      reads this, slots
    {
      Mailbox(fifo, inInterrupt, free, messageBox, nextMessage, held, dispatched, Memory(slots), read, kept, delivered)
    }

    ghost predicate Valid()
      reads this
    {
      slots.Length == SLOTS && InRange(free) && InRange(messageBox) && InRange(Slots(nextMessage)) && InRange(Slots(held))
    }

    constructor ()
      ensures Valid() && fresh(slots) && IsStart(View())
    {
      slots := new Frame[SLOTS](_ => NO_FRAME);
      free := seq(SLOTS, i => i);
      fifo, messageBox, delivered := [], [], [];
      nextMessage, held, dispatched := None, None, false;
      inInterrupt, read, kept := false, [], [];
      new;
      AllOnce(SLOTS);
      assert Places(View()) == multiset(free);
    }

    method AllocateNext()
      requires Valid()
      modifies this`free, this`nextMessage
      ensures Valid() && View() == Allocate(old(View()))
    {
      if nextMessage.None? && |free| > 0 {
        nextMessage := Some(free[0]);
        free := free[1..];
      }
    }

    // Read into next_message, and put it.
    method ReadNext(frame: Frame)
      requires Valid() && nextMessage.Some?
      modifies this`messageBox, this`nextMessage, this`kept, slots
      ensures Valid()
      ensures View() == old(View()).(memory := old(View()).memory[old(nextMessage.value) := frame],
                                     queue := old(messageBox) + [old(nextMessage.value)], next := None,
                                     kept := old(kept) + [|read|])
    {
      ghost var before := Memory(slots);
      assert Slots(nextMessage)[0] == nextMessage.value;
      slots[nextMessage.value] := frame;
      assert Memory(slots) == before[nextMessage.value := frame];
      messageBox := messageBox + [nextMessage.value];
      nextMessage := None;
      kept := kept + [|read|];
    }

    // One pass of the loop in rx_interrupt; the driver's read takes the oldest frame, if any.
    method RxPass() returns (messagesRemaining: bool)
      requires Valid()
      modifies this`fifo, this`free, this`messageBox, this`nextMessage, this`read, this`kept, slots
      ensures Valid() && View() == Iterate(old(View()))
      ensures messagesRemaining == (|old(fifo)| > 0)
    {
      AllocateNext();
      messagesRemaining := |fifo| > 0;
      if messagesRemaining {
        var frame := fifo[0];
        fifo := fifo[1..];
        if nextMessage.Some? {
          ReadNext(frame);
        }
        read := read + [frame];
      }
    }

    // The hardware appends to its FIFO at any time.
    method HardwareReceives(frames: seq<Frame>)
      requires Valid()
      modifies this`fifo
      ensures Valid() && View() == Receive(old(View()), frames)
    {
      fifo := fifo + frames;
    }

    // Frames that come in, and the next pass of the interrupt.
    method RxPassAfter(frames: seq<Frame>) returns (messagesRemaining: bool)
      requires Valid()
      modifies this`fifo, this`free, this`messageBox, this`nextMessage, this`read, this`kept, slots
      ensures Valid() && View() == Iterate(Receive(old(View()), frames))
      ensures messagesRemaining == (|Receive(old(View()), frames).fifo| > 0)
    {
      HardwareReceives(frames);
      messagesRemaining := RxPass();
    }

    // The do-while loop, with `arriving[k]` coming in just before its pass k.
    method DrainFifo(arriving: seq<seq<Frame>>)
      requires Valid()
      modifies this`fifo, this`free, this`messageBox, this`nextMessage, this`read, this`kept, slots
      ensures Valid() && View() == Drain(old(View()), arriving)
    {
      ghost var drained := Drain(View(), arriving);
      var coming := arriving;
      var messagesRemaining := true;
      while messagesRemaining
        invariant Valid()
        invariant drained == if messagesRemaining then Drain(View(), coming) else View()
        decreases messagesRemaining, |coming|, |fifo|
      {
        DrainUnfolds(View(), coming);
        messagesRemaining := RxPassAfter(Now(coming));
        coming := Later(coming);
      }
    }

    /** The interrupt handler: drains the FIFO, keeping the earliest frames there is room for. */
    method RxInterrupt(arriving: seq<seq<Frame>>)
      requires Valid() && !inInterrupt
      modifies this`fifo, this`free, this`messageBox, this`nextMessage, this`inInterrupt, this`read, this`kept, slots
      ensures Valid() && View() == Interrupt(old(View()), arriving)
      ensures var landed := Landed(old(View()).(inInterrupt := true), arriving);
              && fifo == [] && read == old(read) + (old(fifo) + landed)
              && kept == old(kept) + Range(|old(read)|, Min(|old(fifo)| + |landed|, Room(old(View()))))
    {
      InterruptKeepsEarliest(View(), arriving);
      inInterrupt := true;
      DrainFifo(arriving);
      inInterrupt := false;
    }

    // The thread: take a mail, dispatch it, give the slot back.
    method Get()
      requires Valid() && Enabled(View(), Step.Get)
      modifies this`held, this`messageBox, this`dispatched
      ensures Valid() && View() == Apply(old(View()), Step.Get)
    {
      held := Some(messageBox[0]);
      messageBox := messageBox[1..];
      dispatched := false;
    }

    method Dispatch()
      requires Valid() && Enabled(View(), Step.Dispatch)
      modifies this`delivered, this`dispatched
      ensures Valid() && View() == Apply(old(View()), Step.Dispatch)
    {
      assert Slots(held)[0] == held.value;
      delivered := delivered + [slots[held.value]];
      dispatched := true;
    }

    method Free()
      requires Valid() && Enabled(View(), Step.Free)
      modifies this`free, this`held
      ensures Valid() && View() == Apply(old(View()), Step.Free)
    {
      free := [held.value] + free;
      held := None;
    }
  }

  lemma PassKeepsPartition(m: Mailbox)
    requires Partition(m)
    ensures Partition(Allocate(m)) && Partition(Iterate(m))
  {
    var a := Allocate(m);
    if m.next.None? && |m.free| > 0 {
      Unshift(m.free);
    }
    assert Places(a) == Places(m);
    ReadKeepsPartition(a);
  }

  lemma {:induction false} AllOnce(n: nat)
    ensures var all := multiset(seq(n, i => i));
            |all| == n && forall s :: s in all ==> s < n && all[s] == 1
  {
    if n > 0 {
      AllOnce(n - 1);
      assert seq(n, i => i) == seq(n - 1, i => i) + [n - 1];
    }
  }
}

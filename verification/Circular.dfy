/** The circular-buffer copies of arm_math.h. Pointers are positions in an array; a position moves
    by a fixed increment and is wrapped by one comparison and subtraction. */
module Circular {
  import opened Words
  import opened Sequences

  // ---------- Scattering and gathering ----------

  predicate InBounds(ps: seq<int>, size: nat) {
    forall k :: 0 <= k < |ps| ==> 0 <= ps[k] < size
  }

  /** buf after storing xs[0] at ps[0], then xs[1] at ps[1], and so on. */
  function Scatter(buf: seq<int>, ps: seq<int>, xs: seq<int>): (r: seq<int>)
    requires |ps| == |xs| && InBounds(ps, |buf|)
    ensures |r| == |buf|
    decreases |ps|
  {
    if ps == [] then buf else Scatter(buf, Front(ps), Front(xs))[ps[|ps| - 1] := xs[|xs| - 1]]
  }

  function Gather(buf: seq<int>, ps: seq<int>): (xs: seq<int>)
    requires InBounds(ps, |buf|)
    ensures |xs| == |ps|
  {
    seq(|ps|, k requires 0 <= k < |ps| => buf[ps[k]])
  }

  predicate Distinct(ps: seq<int>) {
    forall i, j :: 0 <= i < j < |ps| ==> ps[i] != ps[j]
  }

  /** A cell holds the last sample stored in it ... */
  lemma {:induction false} ScatterStored(buf: seq<int>, ps: seq<int>, xs: seq<int>, k: nat)
    requires |ps| == |xs| && InBounds(ps, |buf|) && k < |ps|
    requires forall m :: k < m < |ps| ==> ps[m] != ps[k]
    ensures Scatter(buf, ps, xs)[ps[k]] == xs[k]
    decreases |ps|
  {
    if k < |ps| - 1 { ScatterStored(buf, Front(ps), Front(xs), k); }
  }

  /** ... or its old content if none was. */
  lemma {:induction false} ScatterUntouched(buf: seq<int>, ps: seq<int>, xs: seq<int>, j: nat)
    requires |ps| == |xs| && InBounds(ps, |buf|) && j < |buf|
    requires forall m :: 0 <= m < |ps| ==> ps[m] != j
    ensures Scatter(buf, ps, xs)[j] == buf[j]
    decreases |ps|
  {
    if ps != [] { ScatterUntouched(buf, Front(ps), Front(xs), j); }
  }

  lemma GatherScatter(buf: seq<int>, ps: seq<int>, xs: seq<int>)
    requires |ps| == |xs| && InBounds(ps, |buf|) && Distinct(ps)
    ensures Gather(Scatter(buf, ps, xs), ps) == xs
  {
    forall k | 0 <= k < |ps| ensures Scatter(buf, ps, xs)[ps[k]] == xs[k] {
      ScatterStored(buf, ps, xs, k);
    }
  }

  lemma GatheredAt(buf: seq<int>, ps: seq<int>, i: nat, j: nat)
    requires InBounds(ps, |buf|) && i < |ps| && j < |ps| && ps[i] == ps[j]
    ensures Gather(buf, ps)[i] == Gather(buf, ps)[j]
  {
  }

  ghost predicate ReadsBack(buf: seq<int>, ps: seq<int>)
    requires InBounds(ps, |buf|)
  {
    forall xs: seq<int> :: |xs| == |ps| ==> Gather(Scatter(buf, ps, xs), ps) == xs
  }

  /** Whatever is stored can be read back exactly when no position is used twice. */
  lemma ReadBackIff(buf: seq<int>, ps: seq<int>)
    requires InBounds(ps, |buf|)
    ensures ReadsBack(buf, ps) <==> Distinct(ps)
  {
    if Distinct(ps) {
      forall xs: seq<int> | |xs| == |ps| ensures Gather(Scatter(buf, ps, xs), ps) == xs {
        GatherScatter(buf, ps, xs);
      }
    }
    if ReadsBack(buf, ps) {
      var xs: seq<int> := seq(|ps|, k => k);
      forall i, j | 0 <= i < j < |ps| ensures ps[i] != ps[j] {
        if ps[i] == ps[j] { GatheredAt(Scatter(buf, ps, xs), ps, i, j); }
      }
    }
  }

  lemma {:induction false} ScatterTwice(buf: seq<int>, ps: seq<int>, xs: seq<int>, qs: seq<int>, ys: seq<int>)
    requires |ps| == |xs| && |qs| == |ys| && InBounds(ps, |buf|) && InBounds(qs, |buf|)
    ensures InBounds(ps + qs, |buf|)
    ensures Scatter(Scatter(buf, ps, xs), qs, ys) == Scatter(buf, ps + qs, xs + ys)
    decreases |qs|
  {
    if qs == [] {
      assert ps + qs == ps && xs + ys == xs;
    } else {
      ScatterTwice(buf, ps, xs, Front(qs), Front(ys));
      assert Front(ps + qs) == ps + Front(qs) && Front(xs + ys) == xs + Front(ys);
    }
  }

  // ---------- Walking round the buffer ----------

  predicate IsWalk(len: int, offset: int, inc: int) {
    0 <= offset < len && 0 <= inc <= len
  }

  // One step: a comparison instead of a division.
  function Next(len: int, offset: int, inc: int): int {
    if offset + inc >= len then offset + inc - len else offset + inc
  }

  function At(len: int, offset: int, inc: int, k: nat): (p: int)
    requires IsWalk(len, offset, inc)
    ensures 0 <= p < len
  {
    (offset + k * inc) % len
  }

  function Walk(len: int, offset: int, inc: int, n: nat): (ps: seq<int>)
    requires IsWalk(len, offset, inc)
    ensures |ps| == n && InBounds(ps, len)
  {
    seq(n, k requires 0 <= k < n => At(len, offset, inc, k))
  }

  /** Repeated steps are multiplication modulo the length. */
  lemma NextIsAt(len: int, offset: int, inc: int, k: nat)
    requires IsWalk(len, offset, inc)
    ensures At(len, offset, inc, 0) == offset
    ensures Next(len, At(len, offset, inc, k), inc) == At(len, offset, inc, k + 1)
  {
    SmallMod(offset, len);
    var p, q := At(len, offset, inc, k), (offset + k * inc) / len;
    assert offset + (k + 1) * inc == offset + k * inc + inc;
    if p + inc >= len {
      DivModUnique(offset + (k + 1) * inc, len, q + 1, p + inc - len);
    } else {
      DivModUnique(offset + (k + 1) * inc, len, q, p + inc);
    }
  }

  // The offset after k steps of the code, whatever the increment.
  function Position(len: int, offset: int, inc: int, k: nat): int {
    if k == 0 then offset else Next(len, Position(len, offset, inc, k - 1), inc)
  }

  function Positions(len: int, offset: int, inc: int, n: nat): (ps: seq<int>)
    ensures |ps| == n
  {
    seq(n, k requires 0 <= k < n => Position(len, offset, inc, k))
  }

  lemma {:induction false} PositionIsAt(len: int, offset: int, inc: int, k: nat)
    requires IsWalk(len, offset, inc)
    ensures Position(len, offset, inc, k) == At(len, offset, inc, k)
  {
    NextIsAt(len, offset, inc, 0);
    if k > 0 {
      PositionIsAt(len, offset, inc, k - 1);
      NextIsAt(len, offset, inc, k - 1);
    }
  }

  /** For increments from 0 to the length the code walks round the buffer. */
  lemma PositionsAreWalk(len: int, offset: int, inc: int, n: nat)
    requires IsWalk(len, offset, inc)
    ensures Positions(len, offset, inc, n) == Walk(len, offset, inc, n)
    ensures Position(len, offset, inc, n) == (offset + n * inc) % len
  {
    forall k | 0 <= k <= n ensures Position(len, offset, inc, k) == At(len, offset, inc, k) {
      PositionIsAt(len, offset, inc, k);
    }
  }

  // A negative increment is never wrapped back into the buffer ...
  lemma {:induction false} Descending(len: int, offset: int, inc: int, k: nat)
    requires offset < len && inc < 0
    ensures Position(len, offset, inc, k) == offset + k * inc <= offset
  {
    if k > 0 { Descending(len, offset, inc, k - 1); }
  }

  // ... and one beyond the length is not wrapped far enough.
  lemma {:induction false} Climbing(len: int, offset: int, inc: int, k: nat)
    requires 0 <= offset && inc > len
    ensures Position(len, offset, inc, k) == offset + k * (inc - len) >= offset
  {
    if k > 0 { Climbing(len, offset, inc, k - 1); }
  }

  /** When n steps stay in the buffer: always for increments from 0 to the length, otherwise only
      until the drift leaves it. */
  lemma PositionsInBoundsIff(len: int, offset: int, inc: int, n: nat)
    requires 0 <= offset < len
    ensures InBounds(Positions(len, offset, inc, n), len) <==>
            || n == 0 || 0 <= inc <= len
            || (inc < 0 && offset + (n - 1) * inc >= 0)
            || (inc > len && offset + (n - 1) * (inc - len) < len)
  {
    var ps := Positions(len, offset, inc, n);
    if 0 <= inc <= len {
      PositionsAreWalk(len, offset, inc, n);
    } else if n > 0 {
      var drift := if inc < 0 then inc else inc - len;
      forall k | 0 <= k < n ensures ps[k] == offset + k * drift {
        if inc < 0 { Descending(len, offset, inc, k); } else { Climbing(len, offset, inc, k); }
      }
      Drifts(offset, drift, n);
      assert ps[n - 1] == offset + (n - 1) * drift;
    }
  }

  // The last of n equal moves goes furthest.
  lemma Drifts(offset: int, drift: int, n: nat)
    ensures drift <= 0 ==> forall k :: 0 <= k < n ==> offset + (n - 1) * drift <= offset + k * drift <= offset
    ensures drift >= 0 ==> forall k :: 0 <= k < n ==> offset <= offset + k * drift <= offset + (n - 1) * drift
  {
    forall k | 0 <= k < n
      ensures drift <= 0 ==> (n - 1) * drift <= k * drift <= 0
      ensures drift >= 0 ==> 0 <= k * drift <= (n - 1) * drift
    {
      if drift >= 0 {
        ProductMonotone(0, k, drift);
        ProductMonotone(k, n - 1, drift);
      } else {
        ProductMonotone(0, k, -drift);
        ProductMonotone(k, n - 1, -drift);
      }
    }
  }

  lemma MultipleOf(x: int, y: int, len: int)
    requires len > 0 && x % len == 0
    ensures (x + y) % len == y % len
  {
    DivModUnique(x + y, len, x / len + y / len, y % len);
  }

  // Two steps meet exactly when their distance is a multiple of the length.
  lemma StepsMeet(len: int, offset: int, inc: int, i: nat, j: nat)
    requires IsWalk(len, offset, inc) && i <= j
    ensures At(len, offset, inc, i) == At(len, offset, inc, j) <==> (j - i) * inc % len == 0
  {
    var x, y, d := offset + i * inc, offset + j * inc, (j - i) * inc;
    assert y == x + d;
    if d % len == 0 { MultipleOf(d, x, len); }
    if x % len == y % len {
      assert d == (y / len - x / len) * len;
      DivModUnique(d, len, y / len - x / len, 0);
    }
  }

  // How far d steps lead, round the buffer.
  function Turn(len: int, inc: int, d: nat): int
    requires len > 0
  {
    d * inc % len
  }

  /** A walk of n steps returns to an earlier position exactly when a shorter distance is a
      multiple of the length. */
  lemma WalkDistinctIff(len: int, offset: int, inc: int, n: nat)
    requires IsWalk(len, offset, inc)
    ensures Distinct(Walk(len, offset, inc, n)) <==> forall d :: 0 < d < n ==> Turn(len, inc, d) != 0
  {
    var ps := Walk(len, offset, inc, n);
    if Distinct(ps) {
      forall d | 0 < d < n ensures Turn(len, inc, d) != 0 {
        assert ps[0] != ps[d];
        StepsMeet(len, offset, inc, 0, d);
      }
    }
    if forall d :: 0 < d < n ==> Turn(len, inc, d) != 0 {
      forall i, j | 0 <= i < j < n ensures ps[i] != ps[j] {
        assert Turn(len, inc, j - i) != 0;
        StepsMeet(len, offset, inc, i, j);
      }
    }
  }

  lemma UnitTurn(len: int, d: nat)
    requires 0 < d <= len
    ensures Turn(len, 1, d) == if d == len then 0 else d
  {
    DivModUnique(d * 1, len, if d == len then 1 else 0, if d == len then 0 else d);
  }

  /** With unit increments a block can be read back exactly when it is no longer than the buffer. */
  lemma UnitWalkDistinctIff(len: int, offset: int, n: nat)
    requires IsWalk(len, offset, 1)
    ensures Distinct(Walk(len, offset, 1, n)) <==> n <= len
  {
    WalkDistinctIff(len, offset, 1, n);
    if n > len {
      UnitTurn(len, len);
    } else {
      forall d | 0 < d < n ensures Turn(len, 1, d) != 0 {
        UnitTurn(len, d);
      }
    }
  }

  lemma {:induction false} PositionAdds(len: int, offset: int, inc: int, n: nat, k: nat)
    ensures Position(len, Position(len, offset, inc, n), inc, k) == Position(len, offset, inc, n + k)
    decreases k
  {
    if k > 0 { PositionAdds(len, offset, inc, n, k - 1); }
  }

  lemma PositionsAppend(len: int, offset: int, inc: int, n: nat, k: nat)
    ensures Positions(len, offset, inc, n) + Positions(len, Position(len, offset, inc, n), inc, k) == Positions(len, offset, inc, n + k)
  {
    forall j | 0 <= j < k ensures Position(len, Position(len, offset, inc, n), inc, j) == Position(len, offset, inc, n + j) {
      PositionAdds(len, offset, inc, n, j);
    }
  }

  /** Storing a block and then another from where the first ended is storing both at once. */
  lemma BlocksCompose(buf: seq<int>, len: int, offset: int, inc: int, xs: seq<int>, ys: seq<int>)
    requires InBounds(Positions(len, offset, inc, |xs + ys|), |buf|)
    ensures var ps, qs := Positions(len, offset, inc, |xs|), Positions(len, Position(len, offset, inc, |xs|), inc, |ys|);
            && InBounds(ps, |buf|) && InBounds(qs, |buf|)
            && Scatter(Scatter(buf, ps, xs), qs, ys) == Scatter(buf, Positions(len, offset, inc, |xs + ys|), xs + ys)
  {
    var ps, qs := Positions(len, offset, inc, |xs|), Positions(len, Position(len, offset, inc, |xs|), inc, |ys|);
    PositionsAppend(len, offset, inc, |xs|, |ys|);
    var all := Positions(len, offset, inc, |xs + ys|);
    assert all == ps + qs;
    forall k | 0 <= k < |qs| ensures 0 <= qs[k] < |buf| { assert qs[k] == all[|ps| + k]; }
    forall k | 0 <= k < |ps| ensures 0 <= ps[k] < |buf| { assert ps[k] == all[k]; }
    ScatterTwice(buf, ps, xs, qs, ys);
  }

  // ---------- Walking along the linear side ----------

  function Line(start: int, inc: int, n: nat): (ps: seq<int>)
    ensures |ps| == n
  {
    seq(n, k => start + k * inc)
  }

  // The destination pointer goes back to its base only when it meets the end exactly.
  function Target(base: int, len: int, start: int, inc: int, k: nat): int {
    if k == 0 then start
    else
      var p := Target(base, len, start, inc, k - 1) + inc;
      if p == base + len then base else p
  }

  function Targets(base: int, len: int, start: int, inc: int, n: nat): (ps: seq<int>)
    ensures |ps| == n
  {
    seq(n, k requires 0 <= k < n => Target(base, len, start, inc, k))
  }

  predicate Within(ps: seq<int>, low: int, high: int) {
    forall k :: 0 <= k < |ps| ==> low <= ps[k] < high
  }

  // The least number of moves by d that covers x.
  lemma Moves(x: int, d: int) returns (k: nat)
    requires x > 0 && d > 0
    ensures k > 0 && (k - 1) * d < x <= k * d
    ensures k * d == x <==> x % d == 0
  {
    k := (x + d - 1) / d;
    var r := (x + d - 1) % d;
    assert x == k * d - (d - 1 - r);
    assert (k - 1) * d == k * d - d;
    if r == d - 1 {
      DivModUnique(x, d, k, 0);
    } else {
      DivModUnique(x, d, k - 1, r + 1);
    }
  }

  // Until the end is met or passed the target moves by its increment.
  lemma {:induction false} FirstLap(base: int, len: int, start: int, inc: int, k: nat)
    requires inc > 0 && base <= start < base + len
    requires k > 0 ==> start + (k - 1) * inc < base + len
    ensures Target(base, len, start, inc, k) == if start + k * inc == base + len then base else start + k * inc
  {
    if k > 0 {
      assert start + (k - 1) * inc == start + k * inc - inc;
      if k > 1 { assert start + (k - 2) * inc == start + (k - 1) * inc - inc; }
      FirstLap(base, len, start, inc, k - 1);
    }
  }

  // Back at the base the target starts anew.
  lemma {:induction false} NextLap(base: int, len: int, start: int, inc: int, k: nat, j: nat)
    requires Target(base, len, start, inc, k) == base
    ensures Target(base, len, start, inc, k + j) == Target(base, len, base, inc, j)
    decreases j
  {
    if j > 0 { NextLap(base, len, start, inc, k, j - 1); }
  }

  // One lap: all n positions are inside if the last is, and if the end is missed, only then.
  lemma LapWithin(base: int, len: int, start: int, inc: int, n: nat)
    requires inc > 0 && base <= start < base + len && n > 0
    ensures start + (n - 1) * inc < base + len ==> Within(Targets(base, len, start, inc, n), base, base + len)
    ensures start + (n - 1) * inc >= base + len && (base + len - start) % inc != 0 ==>
            !Within(Targets(base, len, start, inc, n), base, base + len)
  {
    var ts := Targets(base, len, start, inc, n);
    if start + (n - 1) * inc < base + len {
      Drifts(start, inc, n);
      forall k | 0 <= k < n ensures base <= ts[k] < base + len {
        if k > 0 { assert start + (k - 1) * inc <= start + (n - 1) * inc; }
        FirstLap(base, len, start, inc, k);
      }
    } else if (base + len - start) % inc != 0 {
      var k := Moves(base + len - start, inc);
      FirstLap(base, len, start, inc, k);
      MovesAtMost(k, n - 1, inc, base + len - start);
      assert ts[k] > base + len;
    }
  }

  lemma MovesAtMost(k: nat, n: nat, d: int, x: int)
    requires d > 0 && k > 0 && (k - 1) * d < x <= n * d
    ensures k <= n
  {
    if k > n { ProductMonotone(n, k - 1, d); }
  }

  // Taking d off a positive multiple of d.
  lemma MultipleLess(x: int, d: int)
    requires d > 0 && x > 0 && x % d == 0
    ensures x >= d && (x - d) % d == 0
  {
    AtLeastOnce(x / d, d);
    DivModUnique(x - d, d, x / d - 1, 0);
  }

  // An increment that divides the length and the way to the end always meets it.
  lemma {:induction false} DividingTarget(base: int, len: int, start: int, inc: int, k: nat)
    requires inc > 0 && base <= start < base + len && (base + len - start) % inc == 0 && len % inc == 0
    ensures var p := Target(base, len, start, inc, k);
            base <= p < base + len && (base + len - p) % inc == 0
  {
    if k > 0 {
      DividingTarget(base, len, start, inc, k - 1);
      MultipleLess(base + len - Target(base, len, start, inc, k - 1), inc);
    }
  }

  /** The destination too is a walk round its buffer if the increment divides the length and the way
      from the start to the end. */
  lemma {:induction false} TargetIsWalk(base: int, len: int, start: int, inc: int, k: nat)
    requires inc > 0 && base <= start < base + len && (base + len - start) % inc == 0 && len % inc == 0
    ensures Target(base, len, start, inc, k) == base + (start - base + k * inc) % len
  {
    MultipleLess(len, inc);
    NextIsAt(len, start - base, inc, 0);
    if k > 0 {
      TargetIsWalk(base, len, start, inc, k - 1);
      NextIsAt(len, start - base, inc, k - 1);
      DividingTarget(base, len, start, inc, k - 1);
      MultipleLess(base + len - Target(base, len, start, inc, k - 1), inc);
    }
  }

  // s is the distance of the start from the base.
  predicate TargetsFit(len: int, s: int, inc: int, n: nat) {
    || n == 0 || inc == 0
    || (inc < 0 && s + (n - 1) * inc >= 0)
    || (inc > 0 && s + (n - 1) * inc < len)
    || (inc > 0 && (len - s) % inc == 0 && (len % inc == 0 || s + (n - 1) * inc < 2 * len))
  }

  lemma {:induction false} BackwardTarget(base: int, len: int, start: int, inc: int, k: nat)
    requires inc <= 0 && start < base + len
    ensures Target(base, len, start, inc, k) == start + k * inc <= start
  {
    if k > 0 { BackwardTarget(base, len, start, inc, k - 1); }
  }

  // The second lap starts after k moves.
  lemma SecondLap(base: int, len: int, start: int, inc: int, n: nat, k: nat)
    requires inc > 0 && base <= start < base + len && 0 < k < n && start + k * inc == base + len
    ensures Within(Targets(base, len, start, inc, n), base, base + len)
       <==> Within(Targets(base, len, base, inc, n - k), base, base + len)
  {
    var ts, us := Targets(base, len, start, inc, n), Targets(base, len, base, inc, n - k);
    assert start + (k - 1) * inc == start + k * inc - inc;
    LapWithin(base, len, start, inc, k);
    FirstLap(base, len, start, inc, k);
    forall i | 0 <= i < k ensures base <= ts[i] < base + len {
      assert ts[i] == Targets(base, len, start, inc, k)[i];
    }
    forall j | 0 <= j < n - k ensures ts[k + j] == us[j] {
      NextLap(base, len, start, inc, k, j);
    }
    if Within(us, base, base + len) {
      forall i | k <= i < n ensures base <= ts[i] < base + len {
        assert ts[k + (i - k)] == us[i - k];
      }
    }
  }

  /** When the destination pointer stays in its buffer, for all starts, increments and counts:
      backwards and on the first lap until it leaves; beyond that only if it meets the end exactly,
      once for a second lap and every time if the increment divides the length. */
  lemma TargetsWithinIff(base: int, len: int, start: int, inc: int, n: nat)
    requires base <= start < base + len
    ensures Within(Targets(base, len, start, inc, n), base, base + len) <==> TargetsFit(len, start - base, inc, n)
  {
    var ts := Targets(base, len, start, inc, n);
    if n == 0 {
    } else if inc <= 0 {
      forall k | 0 <= k < n ensures ts[k] == start + k * inc {
        BackwardTarget(base, len, start, inc, k);
      }
      Drifts(start, inc, n);
      assert ts[n - 1] == start + (n - 1) * inc;
    } else if start + (n - 1) * inc < base + len || (base + len - start) % inc != 0 {
      LapWithin(base, len, start, inc, n);
    } else if len % inc == 0 {
      forall k | 0 <= k < n ensures base <= ts[k] < base + len {
        DividingTarget(base, len, start, inc, k);
      }
    } else {
      var k := Moves(base + len - start, inc);
      MovesAtMost(k, n - 1, inc, base + len - start);
      SecondLap(base, len, start, inc, n, k);
      LapWithin(base, len, base, inc, n - k);
      assert (n - 1) * inc == k * inc + (n - k - 1) * inc;
    }
  }

  // ---------- The copies ----------

  lemma ScatterNext(buf: seq<int>, ps: seq<int>, xs: seq<int>, p: int, x: int)
    requires |ps| == |xs| && InBounds(ps, |buf|) && 0 <= p < |buf|
    ensures InBounds(ps + [p], |buf|)
    ensures Scatter(buf, ps + [p], xs + [x]) == Scatter(buf, ps, xs)[p := x]
  {
    assert Front(ps + [p]) == ps && Front(xs + [x]) == xs;
  }

  /** A buffer after copying n samples into it: from[qs[0]] to ps[0], from[qs[1]] to ps[1], ... */
  function Copied(buf: seq<int>, ps: seq<int>, from: seq<int>, qs: seq<int>): (r: seq<int>)
    requires |ps| == |qs| && InBounds(ps, |buf|) && InBounds(qs, |from|)
    ensures |r| == |buf|
  {
    Scatter(buf, ps, Gather(from, qs))
  }

  lemma CopiedNext(buf: seq<int>, ps: seq<int>, from: seq<int>, qs: seq<int>, k: nat)
    requires |ps| == |qs| && InBounds(ps, |buf|) && InBounds(qs, |from|) && k < |ps|
    ensures Copied(buf, ps[..k + 1], from, qs[..k + 1]) == Copied(buf, ps[..k], from, qs[..k])[ps[k] := from[qs[k]]]
  {
    assert ps[..k + 1] == ps[..k] + [ps[k]];
    assert Gather(from, qs[..k + 1]) == Gather(from, qs[..k]) + [from[qs[k]]];
    ScatterNext(buf, ps[..k], Gather(from, qs[..k]), ps[k], from[qs[k]]);
  }

  lemma LineNext(start: int, inc: int, k: nat, n: nat)
    requires k < n
    ensures Line(start, inc, n)[k] == start + k * inc && start + k * inc + inc == start + (k + 1) * inc
  {
  }

  // The arithmetic on the offset stays within 32 bits.
  predicate NoOverflow(len: int, offset: int, inc: int, n: nat) {
    && 0 < len < TWO_31 && IsInt32(offset) && IsInt32(inc)
    && forall k :: 0 <= k < n ==> IsInt32(Position(len, offset, inc, k) + inc)
  }

  /** A walk round the buffer needs no more than room for one increment beyond the length. */
  lemma WalkDoesNotOverflow(len: int, offset: int, inc: int, n: nat)
    requires IsWalk(len, offset, inc) && len < TWO_31 && len + inc <= TWO_31
    ensures NoOverflow(len, offset, inc, n) && InBounds(Positions(len, offset, inc, n), len)
  {
    PositionsAreWalk(len, offset, inc, n);
    forall k | 0 <= k < n ensures IsInt32(Position(len, offset, inc, k) + inc) {
      assert Positions(len, offset, inc, n)[k] < len;
    }
  }

  /** arm_circularWrite_q15. The final offset goes through a 16-bit variable. */
  method Write(circ: array<int>, len: int, writeOffset: int, inc: int, src: array<int>, start: int, srcInc: int, blockSize: nat)
    returns (offset: int)
    requires 0 <= writeOffset < 0x1_0000 && NoOverflow(len, writeOffset, inc, blockSize) && circ != src
    requires InBounds(Positions(len, writeOffset, inc, blockSize), circ.Length)
    requires InBounds(Line(start, srcInc, blockSize), src.Length)
    modifies circ
    ensures circ[..] == Copied(old(circ[..]), Positions(len, writeOffset, inc, blockSize), src[..], Line(start, srcInc, blockSize))
    ensures offset == Position(len, writeOffset, inc, blockSize) % 0x1_0000
  {
    ghost var was, ps, qs := circ[..], Positions(len, writeOffset, inc, blockSize), Line(start, srcInc, blockSize);
    var wOffset, p := writeOffset, start;
    var i := blockSize;
    while i > 0
      invariant 0 <= i <= blockSize
      invariant wOffset == Position(len, writeOffset, inc, blockSize - i)
      invariant p == start + (blockSize - i) * srcInc
      invariant circ[..] == Copied(was, ps[..blockSize - i], src[..], qs[..blockSize - i])
    {
      ghost var k := blockSize - i;
      LineNext(start, srcInc, k, blockSize);
      assert ps[k] == wOffset;
      CopiedNext(was, ps, src[..], qs, k);
      circ[wOffset] := src[p];
      p := p + srcInc;
      wOffset := wOffset + inc;
      if wOffset >= len { wOffset := wOffset - len; }
      i := i - 1;
    }
    assert ps[..blockSize] == ps && qs[..blockSize] == qs;
    offset := wOffset % 0x1_0000;
  }

  /** arm_circularRead_q15. */
  method Read(circ: array<int>, len: int, readOffset: int, inc: int, dst: array<int>, start: int, base: int, dstLength: int, dstInc: int, blockSize: nat)
    returns (offset: int)
    requires NoOverflow(len, readOffset, inc, blockSize) && circ != dst
    requires InBounds(Positions(len, readOffset, inc, blockSize), circ.Length)
    requires InBounds(Targets(base, dstLength, start, dstInc, blockSize), dst.Length)
    modifies dst
    ensures dst[..] == Copied(old(dst[..]), Targets(base, dstLength, start, dstInc, blockSize), circ[..], Positions(len, readOffset, inc, blockSize))
    ensures offset == Position(len, readOffset, inc, blockSize)
  {
    ghost var was, ps, qs := dst[..], Targets(base, dstLength, start, dstInc, blockSize), Positions(len, readOffset, inc, blockSize);
    var rOffset, p := readOffset, start;
    var dstEnd := base + dstLength;
    var i := blockSize;
    while i > 0
      invariant 0 <= i <= blockSize
      invariant rOffset == Position(len, readOffset, inc, blockSize - i)
      invariant p == Target(base, dstLength, start, dstInc, blockSize - i)
      invariant dst[..] == Copied(was, ps[..blockSize - i], circ[..], qs[..blockSize - i])
    {
      ghost var k := blockSize - i;
      assert ps[k] == p && qs[k] == rOffset;
      CopiedNext(was, ps, circ[..], qs, k);
      dst[p] := circ[rOffset];
      p := p + dstInc;
      if p == dstEnd { p := base; }
      rOffset := rOffset + inc;
      if rOffset >= len { rOffset := rOffset - len; }
      i := i - 1;
    }
    assert ps[..blockSize] == ps && qs[..blockSize] == qs;
    offset := rOffset;
  }

  // ---------- Writing and reading back ----------

  /** Reading the block just written delivers it, in order, wherever the destination's positions
      are distinct too; no other cell of either buffer changes. */
  lemma BlockRoundTrip(circ: seq<int>, dst: seq<int>, ps: seq<int>, ts: seq<int>, xs: seq<int>)
    requires |ps| == |ts| == |xs| && InBounds(ps, |circ|) && InBounds(ts, |dst|) && Distinct(ps) && Distinct(ts)
    ensures var written := Scatter(circ, ps, xs);
            var read := Copied(dst, ts, written, ps);
            && Gather(read, ts) == xs
            && (forall j :: 0 <= j < |circ| && j !in ps ==> written[j] == circ[j])
            && (forall j :: 0 <= j < |dst| && j !in ts ==> read[j] == dst[j])
  {
    GatherScatter(circ, ps, xs);
    GatherScatter(dst, ts, xs);
    forall j | 0 <= j < |circ| && j !in ps ensures Scatter(circ, ps, xs)[j] == circ[j] {
      ScatterUntouched(circ, ps, xs, j);
    }
    forall j | 0 <= j < |dst| && j !in ts ensures Scatter(dst, ts, xs)[j] == dst[j] {
      ScatterUntouched(dst, ts, xs, j);
    }
  }

  lemma {:induction false} UnitTarget(base: int, len: int, k: nat)
    requires k < len
    ensures Target(base, len, base, 1, k) == base + k
  {
    if k > 0 { UnitTarget(base, len, k - 1); }
  }

  lemma {:induction false} ScatterRun(dst: seq<int>, ts: seq<int>, xs: seq<int>, base: nat)
    requires |ts| == |xs| && base + |xs| <= |dst|
    requires forall k :: 0 <= k < |ts| ==> ts[k] == base + k
    ensures Scatter(dst, ts, xs) == dst[..base] + xs + dst[base + |xs|..]
    decreases |xs|
  {
    if xs != [] { ScatterRun(dst, Front(ts), Front(xs), base); }
  }

  /** Unit increments on both sides: n samples written and read back from the same offset appear at
      the start of the destination, and nothing else of the destination changes. */
  lemma UnitRoundTrip(circ: seq<int>, dst: seq<int>, len: int, offset: int, base: nat, dstLength: int, xs: seq<int>)
    requires IsWalk(len, offset, 1) && len <= |circ| && |xs| <= len
    requires |xs| <= dstLength && base + |xs| <= |dst|
    ensures var ps, ts := Walk(len, offset, 1, |xs|), Targets(base, dstLength, base, 1, |xs|);
            InBounds(ts, |dst|) &&
            Copied(dst, ts, Scatter(circ, ps, xs), ps) == dst[..base] + xs + dst[base + |xs|..]
  {
    var ps, ts := Walk(len, offset, 1, |xs|), Targets(base, dstLength, base, 1, |xs|);
    forall k | 0 <= k < |xs| ensures ts[k] == base + k {
      UnitTarget(base, dstLength, k);
    }
    UnitWalkDistinctIff(len, offset, |xs|);
    GatherScatter(circ, ps, xs);
    ScatterRun(dst, ts, xs, base);
  }

  /** A write of xs and then one of ys from the 16-bit offset that the first left is a write of
      both at once, if that stays in the buffer. */
  predicate Joins(buf: seq<int>, len: int, offset: int, inc: int, xs: seq<int>, ys: seq<int>)
    requires InBounds(Positions(len, offset, inc, |xs|), |buf|)
  {
    var first := Scatter(buf, Positions(len, offset, inc, |xs|), xs);
    var next := Positions(len, Position(len, offset, inc, |xs|) % 0x1_0000, inc, |ys|);
    InBounds(Positions(len, offset, inc, |xs + ys|), |buf|) ==>
      InBounds(next, |buf|) && Scatter(first, next, ys) == Scatter(buf, Positions(len, offset, inc, |xs + ys|), xs + ys)
  }

  // The next write would start inside the buffer, and the offset for it does not fit 16 bits.
  predicate LosesOffset(buf: seq<int>, len: int, offset: int, inc: int, n: nat) {
    0x1_0000 <= Position(len, offset, inc, n) < |buf|
  }

  lemma JoinsIfKept(buf: seq<int>, len: int, offset: int, inc: int, xs: seq<int>, ys: seq<int>)
    requires InBounds(Positions(len, offset, inc, |xs|), |buf|) && !LosesOffset(buf, len, offset, inc, |xs|)
    ensures Joins(buf, len, offset, inc, xs, ys)
  {
    var all := Positions(len, offset, inc, |xs + ys|);
    if InBounds(all, |buf|) {
      if ys == [] {
        assert xs + ys == xs;
      } else {
        assert all[|xs|] == Position(len, offset, inc, |xs|);
        BlocksCompose(buf, len, offset, inc, xs, ys);
      }
    }
  }

  lemma OneMore(buf: seq<int>, len: int, offset: int, inc: int, n: nat)
    requires InBounds(Positions(len, offset, inc, n), |buf|) && 0 <= Position(len, offset, inc, n) < |buf|
    ensures InBounds(Positions(len, offset, inc, n + 1), |buf|)
  {
    var all := Positions(len, offset, inc, n + 1);
    forall k | 0 <= k < n ensures 0 <= all[k] < |buf| { assert all[k] == Positions(len, offset, inc, n)[k]; }
  }

  /** If the offset does not fit 16 bits, the next write goes wrong with its first sample. */
  lemma FailingBlock(buf: seq<int>, len: int, offset: int, inc: int, xs: seq<int>) returns (ys: seq<int>)
    requires InBounds(Positions(len, offset, inc, |xs|), |buf|) && LosesOffset(buf, len, offset, inc, |xs|)
    ensures (ys == [0] || ys == [1]) && !Joins(buf, len, offset, inc, xs, ys)
  {
    var end := Position(len, offset, inc, |xs|);
    var cut := end % 0x1_0000;
    var first := Scatter(buf, Positions(len, offset, inc, |xs|), xs);
    ys := [if first[end] == 0 then 1 else 0];
    OneMore(buf, len, offset, inc, |xs|);
    BlocksCompose(buf, len, offset, inc, xs, ys);
    ScatterStored(first, Positions(len, end, inc, 1), ys, 0);
    ScatterUntouched(first, Positions(len, cut, inc, 1), ys, end);
  }

  /** For every increment: whatever is written next continues the first write if and only if the
      offset fits 16 bits, or the buffer has been left anyway. */
  lemma WritesContinueIff(buf: seq<int>, len: int, offset: int, inc: int, xs: seq<int>)
    requires InBounds(Positions(len, offset, inc, |xs|), |buf|)
    ensures (forall ys :: Joins(buf, len, offset, inc, xs, ys)) <==> !LosesOffset(buf, len, offset, inc, |xs|)
  {
    if LosesOffset(buf, len, offset, inc, |xs|) {
      var ys := FailingBlock(buf, len, offset, inc, xs);
    } else {
      forall ys ensures Joins(buf, len, offset, inc, xs, ys) {
        JoinsIfKept(buf, len, offset, inc, xs, ys);
      }
    }
  }

  /** In any larger buffer there is such a block: 65536 samples from the start. */
  lemma LargeBufferLosesOffset(buf: seq<int>, len: int, xs: seq<int>) returns (ys: seq<int>)
    requires 0x1_0000 < len <= |buf| && |xs| == 0x1_0000
    ensures InBounds(Positions(len, 0, 1, |xs|), |buf|) && !Joins(buf, len, 0, 1, xs, ys)
  {
    PositionsAreWalk(len, 0, 1, |xs|);
    SmallMod(0x1_0000, len);
    ys := FailingBlock(buf, len, 0, 1, xs);
  }

  /** A walk backwards leaves the buffer at its start, and one by more than the length at its end. */
  lemma BackwardLeaves(len: int, offset: nat)
    requires offset < len
    ensures !InBounds(Positions(len, offset, -1, offset + 2), len)
    ensures !InBounds(Positions(len, offset, len + 1, len - offset + 1), len)
  {
    PositionsInBoundsIff(len, offset, -1, offset + 2);
    PositionsInBoundsIff(len, offset, len + 1, len - offset + 1);
  }
}

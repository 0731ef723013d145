/**
 The arithmetic behind counted repetition.
 */
module PatternWalks {
  // A step relation over input positions that only moves forward or stays put is iterated from
  // a set of positions; the iterates need not grow or shrink monotonically, yet they are constant
  // from the number of positions onwards.

  // f(p) is the set of positions one step from p leads to.
  type Step = nat -> set<nat>

  // Every step from p ends at or after p, and inside the input.
  ghost predicate Forward(f: Step, last: nat) {
    forall p: nat, e: nat :: e in f(p) ==> p <= e <= last
  }

  ghost predicate Within(positions: set<nat>, low: nat, last: nat) {
    forall p: nat :: p in positions ==> low <= p <= last
  }

  ghost function Image(f: Step, positions: set<nat>): set<nat> {
    set p, e | p in positions && e in f(p) :: e
  }

  // The positions exactly k steps away.
  ghost function Walk(f: Step, positions: set<nat>, k: nat): set<nat> {
    if k == 0 then positions else Image(f, Walk(f, positions, k - 1))
  }

  // Some number of steps in [min, max], max being ignored when unlimited.
  ghost predicate Counted(f: Step, start: nat, min: nat, max: nat, unlimited: bool, e: nat) {
    exists k: nat :: InBounds(k, min, max, unlimited) && e in Walk(f, {start}, k)
  }

  predicate InBounds(k: nat, min: nat, max: nat, unlimited: bool) {
    min <= k && (unlimited || k <= max)
  }

  lemma {:induction false} WalkWithin(f: Step, last: nat, positions: set<nat>, low: nat, k: nat)
    requires Forward(f, last) && Within(positions, low, last)
    ensures Within(Walk(f, positions, k), low, last)
  {
    if k > 0 {
      WalkWithin(f, last, positions, low, k - 1);
    }
  }

  // A walk longer than the distance it covers stood still somewhere, so it can
  // be made one step longer and one step shorter.
  lemma {:induction false} Pump(f: Step, last: nat, positions: set<nat>, low: nat, k: nat, e: nat)
    requires Forward(f, last) && Within(positions, low, last)
    requires e in Walk(f, positions, k) && low <= e && k > e - low
    ensures e in Walk(f, positions, k - 1) && e in Walk(f, positions, k + 1)
    decreases k
  {
    var q :| q in Walk(f, positions, k - 1) && e in f(q);
    WalkWithin(f, last, positions, low, k - 1);
    if q < e {
      Pump(f, last, positions, low, k - 1, q);
    }
  }

  /** Iterating a forward-or-stay step from positions in [low, last] is constant
      after last - low + 1 steps, which is the number of those positions. */
  lemma {:induction false} Stabilises(f: Step, last: nat, positions: set<nat>, low: nat, k: nat)
    requires Forward(f, last) && Within(positions, low, last) && low <= last
    requires k >= last - low + 1
    ensures Walk(f, positions, k) == Walk(f, positions, last - low + 1)
    decreases k
  {
    var bound := last - low + 1;
    if k > bound {
      Stabilises(f, last, positions, low, k - 1);
      WalkWithin(f, last, positions, low, k - 1);
      WalkWithin(f, last, positions, low, k);
      forall e ensures e in Walk(f, positions, k) <==> e in Walk(f, positions, k - 1) {
        if e in Walk(f, positions, k) {
          Pump(f, last, positions, low, k, e);
        } else if e in Walk(f, positions, k - 1) {
          Pump(f, last, positions, low, k - 1, e);
        }
      }
    }
  }

  /** The unchanged-set exit is exact: one repeated iterate repeats for good. */
  lemma {:induction false} UnchangedForGood(f: Step, positions: set<nat>, k: nat, j: nat)
    requires Walk(f, positions, k + 1) == Walk(f, positions, k) && k <= j
    ensures Walk(f, positions, j) == Walk(f, positions, k)
    decreases j
  {
    if j > k {
      UnchangedForGood(f, positions, k, j - 1);
    }
  }

  // Before the iterates have stabilised, the count is bounded by the input.
  lemma ChangedIsEarly(f: Step, last: nat, positions: set<nat>, low: nat, k: nat)
    requires Forward(f, last) && Within(positions, low, last) && low <= last
    requires Walk(f, positions, k + 1) != Walk(f, positions, k)
    ensures k <= last - low
  {
    if k >= last - low + 1 {
      Stabilises(f, last, positions, low, k);
      Stabilises(f, last, positions, low, k + 1);
    }
  }

  // A walk of k + 1 steps from x is one step to some y and k steps from there.
  lemma {:induction false} FirstStep(f: Step, x: nat, k: nat, e: nat)
    ensures e in Walk(f, {x}, k + 1) <==> exists y :: y in f(x) && e in Walk(f, {y}, k)
  {
    if k == 0 {
      assert Walk(f, {x}, 0) == {x};
      if e in Walk(f, {x}, 1) {
        assert e in f(x) && e in Walk(f, {e}, 0);
      }
      if y :| y in f(x) && e in Walk(f, {y}, 0) {
        assert y == e && x in Walk(f, {x}, 0);
      }
    } else {
      if e in Walk(f, {x}, k + 1) {
        var q :| q in Walk(f, {x}, k) && e in f(q);
        FirstStep(f, x, k - 1, q);
        var y :| y in f(x) && q in Walk(f, {y}, k - 1);
        assert e in Walk(f, {y}, k);
      }
      if y :| y in f(x) && e in Walk(f, {y}, k) {
        var q :| q in Walk(f, {y}, k - 1) && e in f(q);
        FirstStep(f, x, k - 1, q);
        assert q in Walk(f, {x}, k);
      }
    }
  }

  // ------------------------------------------------------------------------
  // RepeatMatcher of section 22.2.2.3.1 of ECMA-262, as the set of end indexes
  // its continuations can be called with. An iteration past the minimum that
  // consumes nothing is rejected.

  ghost function RepeatMatcher(f: Step, last: nat, min: nat, max: nat, unlimited: bool, x: nat): set<nat>
    requires Forward(f, last)
    decreases min, if x <= last then last - x else 0
  {
    if !unlimited && max == 0 then {x}
    else
      var min', max' := if min == 0 then 0 else min - 1, if max == 0 then 0 else max - 1;
      var again := set y, e |
        y in f(x) && (min > 0 || y != x) && e in RepeatMatcher(f, last, min', max', unlimited, y) :: e;
      if min > 0 then again else again + {x}
  }

  lemma {:induction false} RepeatIsCounted(f: Step, last: nat, min: nat, max: nat, unlimited: bool, x: nat, e: nat)
    requires Forward(f, last) && (unlimited || min <= max)
    requires e in RepeatMatcher(f, last, min, max, unlimited, x)
    ensures Counted(f, x, min, max, unlimited, e)
    decreases min, if x <= last then last - x else 0
  {
    if e == x && min == 0 {
      assert InBounds(0, min, max, unlimited) && e in Walk(f, {x}, 0);
    } else {
      var min', max' := if min == 0 then 0 else min - 1, if max == 0 then 0 else max - 1;
      var y :| y in f(x) && (min > 0 || y != x) && e in RepeatMatcher(f, last, min', max', unlimited, y);
      RepeatIsCounted(f, last, min', max', unlimited, y, e);
      var k: nat :| InBounds(k, min', max', unlimited) && e in Walk(f, {y}, k);
      FirstStep(f, x, k, e);
      assert InBounds(k + 1, min, max, unlimited) && e in Walk(f, {x}, k + 1);
    }
  }

  lemma {:induction false} CountedIsRepeat(f: Step, last: nat, min: nat, max: nat, unlimited: bool, x: nat, k: nat,
                                           e: nat)
    requires Forward(f, last)
    requires InBounds(k, min, max, unlimited) && e in Walk(f, {x}, k)
    ensures e in RepeatMatcher(f, last, min, max, unlimited, x)
    decreases min, k
  {
    if k > 0 {
      FirstStep(f, x, k - 1, e);
      var y :| y in f(x) && e in Walk(f, {y}, k - 1);
      if min == 0 && y == x {
        CountedIsRepeat(f, last, 0, max, unlimited, x, k - 1, e);
      } else {
        CountedIsRepeat(f, last, if min == 0 then 0 else min - 1, if max == 0 then 0
          else max - 1, unlimited, y, k - 1, e);
      }
    }
  }

  /** Rejecting empty iterations costs no end index: RepeatMatcher reaches exactly
      the positions some admissible number of plain iterations reaches. */
  lemma RepeatMatcherIsCounted(f: Step, last: nat, min: nat, max: nat, unlimited: bool, x: nat, e: nat)
    requires Forward(f, last) && (unlimited || min <= max)
    ensures e in RepeatMatcher(f, last, min, max, unlimited, x) <==> Counted(f, x, min, max, unlimited, e)
  {
    if e in RepeatMatcher(f, last, min, max, unlimited, x) {
      RepeatIsCounted(f, last, min, max, unlimited, x, e);
    }
    if Counted(f, x, min, max, unlimited, e) {
      var k: nat :| InBounds(k, min, max, unlimited) && e in Walk(f, {x}, k);
      CountedIsRepeat(f, last, min, max, unlimited, x, k, e);
    }
  }

  // Bounds are only told apart below the number of positions.
  function Saturated(count: nat, ceiling: nat): nat {
    if count < ceiling then count else ceiling
  }

  /** Clamping both bounds to any ceiling past the input length keeps every answer. */
  lemma SaturationIsExact(f: Step, last: nat, min: nat, max: nat, unlimited: bool, x: nat, ceiling: nat, e: nat)
    requires Forward(f, last) && x <= last && ceiling >= last + 1 && (unlimited || min <= max)
    ensures Counted(f, x, min, max, unlimited, e) <==>
            Counted(f, x, Saturated(min, ceiling), Saturated(max, ceiling), unlimited, e)
  {
    var min', max' := Saturated(min, ceiling), Saturated(max, ceiling);
    if Counted(f, x, min, max, unlimited, e) {
      var k: nat :| InBounds(k, min, max, unlimited) && e in Walk(f, {x}, k);
      if k > ceiling {
        Stabilises(f, last, {x}, x, k);
        Stabilises(f, last, {x}, x, ceiling);
        assert InBounds(ceiling, min', max', unlimited) && e in Walk(f, {x}, ceiling);
      } else {
        assert InBounds(k, min', max', unlimited);
      }
    }
    if Counted(f, x, min', max', unlimited, e) {
      var k: nat :| InBounds(k, min', max', unlimited) && e in Walk(f, {x}, k);
      if k < min {
        Stabilises(f, last, {x}, x, k);
        Stabilises(f, last, {x}, x, min);
        assert InBounds(min, min, max, unlimited) && e in Walk(f, {x}, min);
      } else {
        assert InBounds(k, min, max, unlimited);
      }
    }
  }
}

/**
 The direct matcher: sets of end positions, a memo table, and repetition loops that
 stop as soon as the position set is unchanged.
 */
module PatternMatch {
  import opened PatternWalks
  import opened PatternTree
  import opened Wrappers

  predicate Ascending(positions: seq<nat>) {
    forall i, j :: 0 <= i < j < |positions| ==> positions[i] < positions[j]
  }

  // The strictly ascending list of a set's members.
  ghost predicate Lists(positions: seq<nat>, of: set<nat>) {
    Ascending(positions) && forall p: nat :: p in positions <==> p in of
  }

  lemma {:induction false} ListsAgree(a: seq<nat>, b: seq<nat>, of: set<nat>)
    requires Lists(a, of) && Lists(b, of)
    ensures a == b
  {
    assert |a| > 0 ==> a[0] in a;
    assert |b| > 0 ==> b[0] in b;
    if a == [] {
    } else {
      assert a[0] in a && a[0] in b;
      assert b[0] in b && b[0] in a;
      assert a[0] == b[0];
      var rest := of - {a[0]};
      forall p: nat ensures p in a[1..] <==> p in rest {
        if p in rest { var i :| 0 <= i < |a| && a[i] == p; assert a[1..][i - 1] == p; }
      }
      forall p: nat ensures p in b[1..] <==> p in rest {
        if p in rest { var i :| 0 <= i < |b| && b[i] == p; assert b[1..][i - 1] == p; }
      }
      ListsAgree(a[1..], b[1..], rest);
      assert a == [a[0]] + a[1..] && b == [b[0]] + b[1..];
    }
  }

  predicate Sorted(positions: seq<nat>) {
    forall i, j :: 0 <= i < j < |positions| ==> positions[i] <= positions[j]
  }

  method Insert(sorted: seq<nat>, p: nat) returns (r: seq<nat>)
    requires Sorted(sorted)
    ensures Sorted(r) && forall q: nat :: q in r <==> q == p || q in sorted
  {
    var at := |sorted|;
    while at > 0 && sorted[at - 1] > p
      invariant 0 <= at <= |sorted|
      invariant forall j :: at <= j < |sorted| ==> sorted[j] > p
    {
      at := at - 1;
    }
    r := sorted[..at] + [p] + sorted[at..];
    assert forall q: nat :: q in sorted <==> q in sorted[..at] || q in sorted[at..] by {
      assert sorted == sorted[..at] + sorted[at..];
    }
  }

  method Sort(positions: seq<nat>) returns (r: seq<nat>)
    ensures Sorted(r) && forall p: nat :: p in r <==> p in positions
  {
    r := [];
    for i := 0 to |positions|
      invariant Sorted(r) && forall p: nat :: p in r <==> p in positions[..i]
    {
      assert positions[..i + 1] == positions[..i] + [positions[i]];
      r := Insert(r, positions[i]);
    }
    assert positions[..|positions|] == positions;
  }

  // Sort, then drop every element equal to its predecessor.
  method UniquePositions(positions: seq<nat>) returns (r: seq<nat>)
    ensures Ascending(r) && forall p: nat :: p in r <==> p in positions
  {
    var sorted := Sort(positions);
    r := [];
    for i := 0 to |sorted|
      invariant Ascending(r) && (i > 0 ==> r != [] && r[|r| - 1] == sorted[i - 1])
      invariant i == 0 ==> r == []
      invariant forall p: nat :: p in r <==> p in sorted[..i]
    {
      assert sorted[..i + 1] == sorted[..i] + [sorted[i]];
      if r == [] || r[|r| - 1] != sorted[i] {
        r := r + [sorted[i]];
      }
    }
    assert sorted[..|sorted|] == sorted;
  }

  ghost function StepsFrom(f: Step, positions: seq<nat>): set<nat> {
    set p, e | p in positions && e in f(p) :: e
  }

  lemma StepsFromOneMore(f: Step, positions: seq<nat>, i: nat)
    requires i < |positions|
    ensures StepsFrom(f, positions[..i + 1]) == StepsFrom(f, positions[..i]) + f(positions[i])
  {
    assert positions[..i + 1] == positions[..i] + [positions[i]];
    forall e: nat | e in f(positions[i]) ensures e in StepsFrom(f, positions[..i + 1]) {
      assert positions[i] in positions[..i + 1];
    }
  }

  class MatchState {
    const input: seq<int>
    var memo: map<(Node, nat), seq<nat>>

    /** Every memo entry equals the unmemoised answer. */
    ghost predicate Valid()
      reads this
    {
      && |input| <= MAX_INT
      && forall key :: key in memo ==> key.1 <= |input| && Lists(memo[key], PatternTree.Ends(key.0, input, key.1))
    }

    constructor (value: seq<int>)
      requires |value| <= MAX_INT
      ensures Valid() && input == value && memo == map[]
    {
      input := value;
      memo := map[];
    }

    ghost predicate Kept(before: map<(Node, nat), seq<nat>>)
      reads this
    {
      forall key :: key in before ==> key in memo && memo[key] == before[key]
    }

    /** The memoised, pruned search returns, strictly ascending, exactly the end
        indexes the pattern's meaning allows. */
    method Ends(n: Node, start: nat) returns (result: seq<nat>)
      requires Valid() && Built(n) && start <= |input|
      modifies this`memo
      ensures Valid() && Kept(old(memo))
      ensures Lists(result, PatternTree.Ends(n, input, start))
      decreases n, 0
    {
      if n.width > |input| - start {
        forall e: nat ensures e !in PatternTree.Ends(n, input, start) {
          if e in PatternTree.Ends(n, input, start) { WidthIsLowerBound(n, input, start, e); }
        }
        return [];
      }
      if (n, start) in memo {
        return memo[(n, start)];
      }
      result := [];
      match n {
        case CharSet(chars, _) =>
          if start < |input| {
            var i := 0;
            while i < |chars|
              invariant 0 <= i <= |chars| && result == []
              invariant forall j :: 0 <= j < i ==> !(chars[j].lo <= input[start] <= chars[j].hi)
            {
              if input[start] >= chars[i].lo && input[start] <= chars[i].hi {
                result := [start + 1];
                break;
              }
              i := i + 1;
            }
          }
        case Start(_) => if start == 0 { result := [start]; }
        case End(_) => if start == |input| { result := [start]; }
        case Boundary(negated, _) =>
          if (WordAt(input, start - 1) == WordAt(input, start)) == negated { result := [start]; }
        case Sequence(children, _) => result := SequenceEnds(children, start);
        case Choice(children, _) => result := ChoiceEnds(children, start);
        case Repeat(child, min, max, unlimited, _) =>
          ghost var rounds;
          result, rounds := RepeatEnds(child, min, max, unlimited, start);
      }
      assert Lists(result, PatternTree.Ends(n, input, start));
      memo := memo[(n, start) := result];
    }

    // Every end of one step from any of the positions.
    method Advance(child: Node, positions: seq<nat>) returns (r: seq<nat>)
      requires Valid() && Built(child) && forall p :: p in positions ==> p <= |input|
      modifies this`memo
      ensures Valid() && Kept(old(memo))
      ensures Ascending(r)
      ensures forall e: nat :: e in r <==> e in StepsFrom(StepOf(child, input), positions)
      decreases child, 1
    {
      r := [];
      for i := 0 to |positions|
        invariant Valid() && Kept(old(memo))
        invariant forall e: nat :: e in r <==> e in StepsFrom(StepOf(child, input), positions[..i])
      {
        assert positions[i] in positions;
        var ends := Ends(child, positions[i]);
        StepsFromOneMore(StepOf(child, input), positions, i);
        r := r + ends;
      }
      assert positions[..|positions|] == positions;
      r := UniquePositions(r);
    }

    method AdvanceSet(child: Node, positions: seq<nat>, ghost of: set<nat>) returns (r: seq<nat>)
      requires Valid() && Built(child) && Lists(positions, of) && Within(of, 0, |input|)
      modifies this`memo
      ensures Valid() && Kept(old(memo))
      ensures Lists(r, Image(StepOf(child, input), of)) && Within(Image(StepOf(child, input), of), 0, |input|)
      decreases child, 2
    {
      r := Advance(child, positions);
    }

    method SequenceEnds(children: seq<Node>, start: nat) returns (result: seq<nat>)
      requires Valid() && AllBuilt(children) && start <= |input|
      modifies this`memo
      ensures Valid() && Kept(old(memo))
      ensures Lists(result, PatternTree.SequenceEnds(children, input, {start}))
      decreases children, 0
    {
      result := [start];
      assert children[..0] == [] && Within({start}, 0, |input|);
      var i := 0;
      while i < |children|
        invariant 0 <= i <= |children| && Valid() && Kept(old(memo))
        invariant Lists(result, PatternTree.SequenceEnds(children[..i], input, {start}))
      {
        assert children[..i + 1][..i] == children[..i];
        result := AdvanceSet(children[i], result, PatternTree.SequenceEnds(children[..i], input, {start}));
        i := i + 1;
        if |result| == 0 {
          NothingFollows(children, i, start);
          break;
        }
      }
      assert children[..|children|] == children;
    }

    lemma {:induction false} NothingFollows(children: seq<Node>, i: nat, start: nat)
      requires i <= |children| && PatternTree.SequenceEnds(children[..i], input, {start}) == {}
      ensures PatternTree.SequenceEnds(children, input, {start}) == {}
      decreases |children| - i
    {
      if i == |children| {
        assert children[..i] == children;
      } else {
        assert children[..i + 1][..i] == children[..i];
        NothingFollows(children, i + 1, start);
      }
    }

    method ChoiceEnds(children: seq<Node>, start: nat) returns (result: seq<nat>)
      requires Valid() && AllBuilt(children) && start <= |input|
      modifies this`memo
      ensures Valid() && Kept(old(memo))
      ensures Lists(result, PatternTree.ChoiceEnds(children, input, start))
      decreases children, 0
    {
      result := [];
      for i := 0 to |children|
        invariant Valid() && Kept(old(memo))
        invariant forall e: nat :: e in result <==>
                  exists j :: 0 <= j < i && e in PatternTree.Ends(children[j], input, start)
      {
        var ends := Ends(children[i], start);
        result := result + ends;
      }
      result := UniquePositions(result);
    }

    // One more iteration. Past the number of
    // positions the set no longer changes.
    method Iterate(child: Node, current: seq<nat>, start: nat, count: nat) returns (next: seq<nat>)
      requires Valid() && Built(child) && start <= |input|
      requires Lists(current, Walk(StepOf(child, input), {start}, count))
      modifies this`memo
      ensures Valid() && Kept(old(memo))
      ensures Lists(next, Walk(StepOf(child, input), {start}, count + 1))
      ensures next == current ==>
              Walk(StepOf(child, input), {start}, count + 1) == Walk(StepOf(child, input), {start}, count)
      ensures next != current ==> count <= |input| - start
      decreases child, 3
    {
      ghost var f := StepOf(child, input);
      WalkWithin(f, |input|, {start}, start, count);
      next := AdvanceSet(child, current, Walk(f, {start}, count));
      if Walk(f, {start}, count + 1) == Walk(f, {start}, count) {
        ListsAgree(next, current, Walk(f, {start}, count));
      } else {
        ChangedIsEarly(f, |input|, {start}, start, count);
      }
      assert next == current ==> forall e: nat ::
        e in Walk(f, {start}, count + 1) <==> e in Walk(f, {start}, count);
    }

    /** The required iterations. The number of rounds is bounded by the input, whatever
        the declared minimum. */
    method Required(child: Node, min: uint64, start: nat)
      returns (current: seq<nat>, count: uint64, ghost rounds: nat)
      requires Valid() && Built(child) && start <= |input|
      modifies this`memo
      ensures Valid() && Kept(old(memo))
      ensures rounds <= |input| - start + 2
      ensures Lists(current, Walk(StepOf(child, input), {start}, min))
      ensures current != [] ==> count == min
      decreases child, 4
    {
      ghost var f := StepOf(child, input);
      current, count, rounds := [start], 0, 0;
      while count < min && |current| > 0
        invariant Valid() && Kept(old(memo))
        invariant rounds == count <= min && count <= |input| - start + 1
        invariant Lists(current, Walk(f, {start}, count))
        decreases |input| - start + 1 - count
      {
        rounds := rounds + 1;
        var next := Iterate(child, current, start, count);
        if next == current {
          UnchangedForGood(f, {start}, count, min);
          count := min;
          current := next;
          return;
        }
        count := count + 1;
        current := next;
      }
      if |current| == 0 {
        EmptyForGood(f, start, count, min);
      }
    }

    /** All iterations between the bounds; the rounds are again bounded by the input. */
    method RepeatEnds(child: Node, min: uint64, max: uint64, unlimited: bool, start: nat)
      returns (result: seq<nat>, ghost rounds: nat)
      requires Valid() && Built(child) && start <= |input| && (unlimited || min <= max)
      modifies this`memo
      ensures Valid() && Kept(old(memo))
      ensures rounds <= 2 * (|input| - start + 2)
      ensures Lists(result, RepeatMatcher(StepOf(child, input), |input|, min, max, unlimited, start))
      decreases child, 5
    {
      ghost var f := StepOf(child, input);
      var current, count, required := Required(child, min, start);
      ghost var optional := 0;
      result := [];
      if |current| == 0 {
        EmptyForGood(f, start, min, min);
        NoneCounted(f, start, min, max, unlimited);
      } else {
        result := current;
        OnlyMinimum(f, start, min);
        while unlimited || count < max
          invariant Valid() && Kept(old(memo))
          invariant min <= count && (unlimited || count <= max)
          invariant optional == count - min && (count <= min || count <= |input| - start + 1)
          invariant Lists(current, Walk(f, {start}, count))
          invariant forall e: nat :: e in result <==> Counted(f, start, min, count, false, e)
          decreases |input| - start + 1 - count
        {
          optional := optional + 1;
          var next := Iterate(child, current, start, count);
          if |next| == 0 || next == current {
            BoundsAreReached(f, start, min, max, unlimited, count);
            break;
          }
          OneMore(f, start, min, count);
          result := result + next;
          current := next;
          count := count + 1;
        }
        result := UniquePositions(result);
      }
      rounds := required + optional;
      forall e
        ensures e in RepeatMatcher(f, |input|, min, max, unlimited, start) <==>
                Counted(f, start, min, max, unlimited, e)
      {
        RepeatMatcherIsCounted(f, |input|, min, max, unlimited, start, e);
      }
    }
  }

  lemma {:induction false} EmptyForGood(f: Step, start: nat, k: nat, j: nat)
    requires Walk(f, {start}, k) == {} && k <= j
    ensures Walk(f, {start}, j) == {}
    decreases j
  {
    if j > k {
      EmptyForGood(f, start, k, j - 1);
    }
  }

  lemma OnlyMinimum(f: Step, start: nat, min: nat)
    ensures forall e: nat :: Counted(f, start, min, min, false, e) <==> e in Walk(f, {start}, min)
  {
    forall e: nat | e in Walk(f, {start}, min) ensures Counted(f, start, min, min, false, e) {
      assert InBounds(min, min, min, false);
    }
  }

  lemma OneMore(f: Step, start: nat, min: nat, count: nat)
    requires min <= count
    ensures forall e: nat :: Counted(f, start, min, count + 1, false, e) <==>
                             Counted(f, start, min, count, false, e) || e in Walk(f, {start}, count + 1)
  {
    forall e: nat ensures Counted(f, start, min, count + 1, false, e) <==>
                          Counted(f, start, min, count, false, e) || e in Walk(f, {start}, count + 1)
    {
      if Counted(f, start, min, count + 1, false, e) {
        var k: nat :| InBounds(k, min, count + 1, false) && e in Walk(f, {start}, k);
        assert k <= count ==> InBounds(k, min, count, false);
      }
      if Counted(f, start, min, count, false, e) {
        var k: nat :| InBounds(k, min, count, false) && e in Walk(f, {start}, k);
        assert InBounds(k, min, count + 1, false);
      }
      assert InBounds(count + 1, min, count + 1, false);
    }
  }

  lemma NoneCounted(f: Step, start: nat, min: nat, max: nat, unlimited: bool)
    requires Walk(f, {start}, min) == {}
    ensures forall e: nat :: !Counted(f, start, min, max, unlimited, e)
  {
    forall e: nat | Counted(f, start, min, max, unlimited, e) ensures false {
      var j: nat :| InBounds(j, min, max, unlimited) && e in Walk(f, {start}, j);
      EmptyForGood(f, start, min, j);
    }
  }

  // Stopping at an empty or unchanged set loses no end index.
  lemma BoundsAreReached(f: Step, start: nat, min: nat, max: nat, unlimited: bool, count: nat)
    requires min <= count && (unlimited || count <= max)
    requires Walk(f, {start}, count + 1) == {} || Walk(f, {start}, count + 1) == Walk(f, {start}, count)
    ensures forall e: nat :: Counted(f, start, min, max, unlimited, e) <==> Counted(f, start, min, count, false, e)
  {
    forall e: nat ensures Counted(f, start, min, max, unlimited, e) <==> Counted(f, start, min, count, false, e) {
      if Counted(f, start, min, max, unlimited, e) {
        var j: nat :| InBounds(j, min, max, unlimited) && e in Walk(f, {start}, j);
        if j > count {
          if Walk(f, {start}, count + 1) == {} {
            EmptyForGood(f, start, count + 1, j);
          } else {
            UnchangedForGood(f, {start}, count, j);
          }
          assert InBounds(count, min, count, false);
        } else {
          assert InBounds(j, min, count, false);
        }
      }
      if Counted(f, start, min, count, false, e) {
        var k: nat :| InBounds(k, min, count, false) && e in Walk(f, {start}, k);
        assert InBounds(k, min, max, unlimited);
      }
    }
  }

  /** MatchString: some match starts somewhere. */
  method MatchString(n: Node, value: seq<int>) returns (matched: bool)
    requires Built(n) && |value| <= MAX_INT
    ensures matched <==> exists s: nat, e: nat :: e in PatternTree.Ends(n, value, s)
  {
    var state := new MatchState(value);
    var start := 0;
    while start <= |value|
      invariant 0 <= start <= |value| + 1 && state.Valid() && state.input == value
      invariant forall s: nat, e: nat :: s < start ==> e !in PatternTree.Ends(n, value, s)
    {
      var ends := state.Ends(n, start);
      if |ends| > 0 {
        assert ends[0] in PatternTree.Ends(n, value, start);
        return true;
      }
      start := start + 1;
    }
    return false;
  }
}

/**
 The parsed form of a pattern, the widths its constructors compute, and its
 meaning: for a start position, the end indexes the matcher of section 22.2.2 of
 ECMA-262 reaches, restricted to the subset without captures and look-around.
 */
module PatternTree {
  import opened PatternWalks
  import opened Wrappers

  type uint64 = x: nat | x <= MAX_UINT64

  // An inclusive span of code points.
  datatype Interval = Interval(lo: int, hi: int)

  datatype Node =
    | CharSet(chars: seq<Interval>, width: uint64)
    | Start(width: uint64)
    | End(width: uint64)
    | Boundary(negated: bool, width: uint64)
    | Sequence(children: seq<Node>, width: uint64)
    | Choice(children: seq<Node>, width: uint64)
    | Repeat(child: Node, min: uint64, max: uint64, unlimited: bool, width: uint64)

  // ---- Widths: the least number of code points a match consumes, saturating.

  function AddWidth(a: uint64, b: uint64): (r: uint64)
    ensures r == Saturated(a + b, MAX_UINT64)
  {
    if a > MAX_UINT64 - b then MAX_UINT64 else a + b
  }

  // The product wraps; the division test detects that it did.
  function RepeatWidth(child: uint64, min: uint64): (r: uint64)
    ensures r == Saturated(child * min, MAX_UINT64)
  {
    var width := (child * min) % (MAX_UINT64 + 1);
    if min != 0 && child > MAX_UINT64 / min then
      DivisionDetectsOverflow(child, min);
      MAX_UINT64
    else
      if min != 0 then DivisionDetectsOverflow(child, min); width else width
  }

  lemma DivisionDetectsOverflow(child: uint64, min: uint64)
    requires min != 0
    ensures child > MAX_UINT64 / min <==> child * min > MAX_UINT64
  {
    var q := MAX_UINT64 / min;
    if child > q {
      assert child * min >= (q + 1) * min;
    } else {
      assert child * min <= q * min;
    }
  }

  // The width a sequence accumulates child by child.
  function SumWidth(children: seq<Node>): uint64 {
    if children == [] then 0
    else AddWidth(SumWidth(children[..|children| - 1]), children[|children| - 1].width)
  }

  function LeastWidth(children: seq<Node>): uint64 {
    if children == [] then MAX_UINT64
    else
      var rest, last := LeastWidth(children[..|children| - 1]), children[|children| - 1].width;
      if rest <= last then rest else last
  }

  /** The trees the constructors build: every width is the computed one, a group of one
      is that one, and no repetition has reversed bounds. */
  predicate Built(n: Node) {
    match n
    case CharSet(_, width) => width == 1
    case Start(width) => width == 0
    case End(width) => width == 0
    case Boundary(_, width) => width == 0
    case Sequence(children, width) =>
      |children| != 1 && width == SumWidth(children) && forall i :: 0 <= i < |children| ==> Built(children[i])
    case Choice(children, width) =>
      |children| > 1 && width == LeastWidth(children) && forall i :: 0 <= i < |children| ==> Built(children[i])
    case Repeat(child, min, max, unlimited, width) =>
      Built(child) && (unlimited || min <= max) && width == RepeatWidth(child.width, min)
  }

  predicate AllBuilt(children: seq<Node>) {
    forall i :: 0 <= i < |children| ==> Built(children[i])
  }

  method JoinNode(choice: bool, children: seq<Node>) returns (n: Node)
    requires AllBuilt(children) && (choice ==> children != [])
    ensures Built(n)
    ensures forall input: seq<int>, s: nat, e: nat ::
              e in Ends(n, input, s) <==>
              s <= |input| && e in if choice then ChoiceEnds(children, input, s) else SequenceEnds(children, input, {s})
  {
    if |children| == 1 {
      n := children[0];
      JoinOneIsThatOne(n);
      assert children == [n];
      return;
    }
    var width := if choice then MAX_UINT64 else 0;
    for i := 0 to |children|
      invariant width == if choice then LeastWidth(children[..i]) else SumWidth(children[..i])
    {
      assert children[..i + 1][..i] == children[..i];
      if choice {
        width := if width <= children[i].width then width else children[i].width;
      } else {
        width := AddWidth(width, children[i].width);
      }
    }
    assert children[..|children|] == children;
    n := if choice then Choice(children, width) else Sequence(children, width);
  }

  lemma JoinOneIsThatOne(n: Node)
    ensures forall input: seq<int>, s: nat, e: nat | s <= |input| ::
              (e in Ends(n, input, s) <==> e in ChoiceEnds([n], input, s)) &&
              (e in Ends(n, input, s) <==> e in SequenceEnds([n], input, {s}))
  {
    forall input: seq<int>, s: nat, e: nat | s <= |input|
      ensures e in Ends(n, input, s) <==> e in ChoiceEnds([n], input, s)
      ensures e in Ends(n, input, s) <==> e in SequenceEnds([n], input, {s})
    {
      assert [n][..0] == [];
      assert SequenceEnds([], input, {s}) == {s};
      assert SequenceEnds([n], input, {s}) == Image(StepOf(n, input), {s});
      assert s in {s} && StepOf(n, input)(s) == Ends(n, input, s);
      assert [n][0] == n;
    }
  }

  // ---- Meaning.

  predicate InSet(chars: seq<Interval>, c: int) {
    exists i :: 0 <= i < |chars| && chars[i].lo <= c <= chars[i].hi
  }

  predicate IsWordChar(c: int) {
    '0' as int <= c <= '9' as int || 'A' as int <= c <= 'Z' as int || c == '_' as int || 'a' as int <= c <= 'z' as int
  }

  predicate WordAt(input: seq<int>, at: int) {
    0 <= at < |input| && IsWordChar(input[at])
  }

  /** The end indexes of a match of n that starts at s. */
  ghost function Ends(n: Node, input: seq<int>, s: nat): (r: set<nat>)
    ensures forall e: nat :: e in r ==> s <= e <= |input|
    decreases n, 0
  {
    if s > |input| then {}
    else match n
      case CharSet(chars, _) => if s < |input| && InSet(chars, input[s]) then {s + 1} else {}
      case Start(_) => if s == 0 then {s} else {}
      case End(_) => if s == |input| then {s} else {}
      case Boundary(negated, _) => if (WordAt(input, s - 1) != WordAt(input, s)) == !negated then {s} else {}
      case Sequence(children, _) =>
        assert Within({s}, s, |input|);
        SequenceEnds(children, input, {s})
      case Choice(children, _) => ChoiceEnds(children, input, s)
      case Repeat(child, min, max, unlimited, _) =>
        var r := RepeatMatcher(StepOf(child, input), |input|, min, max, unlimited, s);
        RepeatMatcherWithin(StepOf(child, input), |input|, min, max, unlimited, s);
        r
  }

  ghost function StepOf(n: Node, input: seq<int>): (f: Step)
    ensures Forward(f, |input|)
    decreases n, 1
  {
    (p: nat) => Ends(n, input, p)
  }

  ghost function SequenceEnds(children: seq<Node>, input: seq<int>, positions: set<nat>): (r: set<nat>)
    ensures forall low: nat :: Within(positions, low, |input|) ==> Within(r, low, |input|)
    decreases children, 1
  {
    if children == [] then positions
    else
      var before := SequenceEnds(children[..|children| - 1], input, positions);
      Image(StepOf(children[|children| - 1], input), before)
  }

  ghost function ChoiceEnds(children: seq<Node>, input: seq<int>, s: nat): (r: set<nat>)
    ensures forall e: nat :: e in r ==> s <= e <= |input|
    decreases children, 1
  {
    set i, e | 0 <= i < |children| && e in Ends(children[i], input, s) :: e
  }

  lemma {:induction false} RepeatMatcherWithin(f: Step, last: nat, min: nat, max: nat, unlimited: bool, x: nat)
    requires Forward(f, last) && x <= last
    ensures Within(RepeatMatcher(f, last, min, max, unlimited, x), x, last)
    decreases min, last - x
  {
    if unlimited || max != 0 {
      var min', max' := if min == 0 then 0 else min - 1, if max == 0 then 0 else max - 1;
      forall e: nat | e in RepeatMatcher(f, last, min, max, unlimited, x) ensures x <= e <= last {
        if e != x {
          var y :| y in f(x) && (min > 0 || y != x) && e in RepeatMatcher(f, last, min', max', unlimited, y);
          RepeatMatcherWithin(f, last, min', max', unlimited, y);
        }
      }
    }
  }

  // ---- The width prune.

  lemma {:induction false} WalkFar(f: Step, start: nat, width: nat, k: nat, e: nat)
    requires forall p: nat, q: nat :: q in f(p) ==> q - p >= width
    requires e in Walk(f, {start}, k)
    ensures e - start >= k * width
  {
    if k > 0 {
      var q :| q in Walk(f, {start}, k - 1) && e in f(q);
      WalkFar(f, start, width, k - 1, q);
      assert k * width == (k - 1) * width + width;
    }
  }

  lemma {:induction false} LeastIsLeast(children: seq<Node>, i: nat)
    requires i < |children|
    ensures LeastWidth(children) <= children[i].width
  {
    if i < |children| - 1 {
      LeastIsLeast(children[..|children| - 1], i);
    }
  }

  lemma {:induction false} SequenceWidth(children: seq<Node>, input: seq<int>, s: nat, e: nat)
    requires AllBuilt(children) && e in SequenceEnds(children, input, {s}) && s <= |input|
    ensures e - s >= SumWidth(children)
    decreases children, 1
  {
    if children != [] {
      var last := |children| - 1;
      var q :| q in SequenceEnds(children[..last], input, {s}) && e in StepOf(children[last], input)(q);
      assert Within({s}, s, |input|);
      SequenceWidth(children[..last], input, s, q);
      WidthIsLowerBound(children[last], input, q, e);
    }
  }

  /** No match is shorter than the width, saturated or not: the prune drops nothing. */
  lemma {:induction false} WidthIsLowerBound(n: Node, input: seq<int>, s: nat, e: nat)
    requires Built(n) && e in Ends(n, input, s)
    ensures e - s >= n.width
    decreases n, 0
  {
    match n {
      case CharSet(_, _) =>
      case Start(_) =>
      case End(_) =>
      case Boundary(_, _) =>
      case Sequence(children, _) =>
        SequenceWidth(children, input, s, e);
      case Choice(children, _) =>
        var i :| 0 <= i < |children| && e in Ends(children[i], input, s);
        LeastIsLeast(children, i);
        WidthIsLowerBound(children[i], input, s, e);
      case Repeat(child, min, max, unlimited, _) =>
        var f := StepOf(child, input);
        forall p: nat, q: nat | q in f(p) ensures q - p >= child.width {
          WidthIsLowerBound(child, input, p, q);
        }
        RepeatFar(f, |input|, min, max, unlimited, s, child.width, e);
    }
  }

  lemma RepeatFar(f: Step, last: nat, min: nat, max: nat, unlimited: bool, s: nat, width: nat, e: nat)
    requires Forward(f, last) && (unlimited || min <= max)
    requires forall p: nat, q: nat :: q in f(p) ==> q - p >= width
    requires e in RepeatMatcher(f, last, min, max, unlimited, s)
    ensures e - s >= width * min
  {
    RepeatMatcherIsCounted(f, last, min, max, unlimited, s, e);
    var k: nat :| InBounds(k, min, max, unlimited) && e in Walk(f, {s}, k);
    WalkFar(f, s, width, k, e);
    MoreIterationsAreLonger(k, min, width);
  }

  lemma MoreIterationsAreLonger(k: nat, min: nat, width: nat)
    requires k >= min
    ensures k * width >= width * min
  {
    assert (k - min) * width >= 0;
  }
}

/**
 Character classes as lists of inclusive spans: merging a list into separated spans
 keeps its members, and complementing it yields exactly the other code points.
 */
module PatternClasses {
  import opened PatternTree

  const MAX_RUNE: int := 0x10FFFF

  // Spans as every class atom, range and constant table spells them.
  predicate Proper(spans: seq<Interval>) {
    forall i :: 0 <= i < |spans| ==> 0 <= spans[i].lo <= spans[i].hi <= MAX_RUNE
  }

  // Ascending, with at least one code point missing between neighbours.
  predicate Separated(spans: seq<Interval>) {
    forall i, j :: 0 <= i < j < |spans| ==> spans[i].hi + 1 < spans[j].lo
  }

  predicate SortedByLow(spans: seq<Interval>) {
    forall i, j :: 0 <= i < j < |spans| ==> spans[i].lo <= spans[j].lo
  }

  ghost predicate SameMembers(a: seq<Interval>, b: seq<Interval>) {
    forall c: int :: InSet(a, c) <==> InSet(b, c)
  }

  lemma InSetSplits(a: seq<Interval>, b: seq<Interval>, c: int)
    ensures InSet(a + b, c) <==> InSet(a, c) || InSet(b, c)
  {
    if InSet(a, c) {
      var i :| 0 <= i < |a| && a[i].lo <= c <= a[i].hi;
      assert (a + b)[i] == a[i];
    }
    if InSet(b, c) {
      var i :| 0 <= i < |b| && b[i].lo <= c <= b[i].hi;
      assert (a + b)[|a| + i] == b[i];
    }
  }

  lemma InSetAppend(spans: seq<Interval>, span: Interval)
    ensures forall c: int :: InSet(spans + [span], c) <==> InSet(spans, c) || span.lo <= c <= span.hi
  {
    forall c: int ensures InSet(spans + [span], c) <==> InSet(spans, c) || span.lo <= c <= span.hi {
      InSetSplits(spans, [span], c);
      assert InSet([span], c) <==> [span][0].lo <= c <= [span][0].hi;
    }
  }

  method InsertByLow(spans: seq<Interval>, span: Interval) returns (r: seq<Interval>)
    requires SortedByLow(spans) && Proper(spans) && Proper([span])
    ensures SortedByLow(r) && Proper(r) && SameMembers(r, spans + [span])
  {
    assert [span][0] == span;
    var at := |spans|;
    while at > 0 && spans[at - 1].lo > span.lo
      invariant 0 <= at <= |spans|
      invariant forall j :: at <= j < |spans| ==> spans[j].lo > span.lo
    {
      at := at - 1;
    }
    var a, b := spans[..at], spans[at..];
    r := a + [span] + b;
    assert a + b == spans;
    InsertKeepsOrder(a, span, b);
    InsertMembers(a, span, b);
  }

  lemma InsertKeepsOrder(a: seq<Interval>, span: Interval, b: seq<Interval>)
    requires SortedByLow(a + b) && Proper(a + b) && Proper([span])
    requires a != [] ==> a[|a| - 1].lo <= span.lo
    requires b != [] ==> span.lo <= b[0].lo
    ensures SortedByLow(a + [span] + b) && Proper(a + [span] + b)
  {
    var whole, r := a + b, a + [span] + b;
    assert [span][0] == span;
    assert forall i :: 0 <= i < |a| ==> r[i] == whole[i];
    assert forall i :: |a| < i < |r| ==> r[i] == whole[i - 1];
    assert r[|a|] == span;
    assert a != [] ==> whole[|a| - 1] == a[|a| - 1];
    assert b != [] ==> whole[|a|] == b[0];
  }

  lemma InsertMembers(a: seq<Interval>, span: Interval, b: seq<Interval>)
    ensures SameMembers(a + [span] + b, a + b + [span])
  {
    forall c: int ensures InSet(a + [span] + b, c) <==> InSet(a + b + [span], c) {
      InSetSplits(a + [span], b, c);
      InSetSplits(a, [span], c);
      InSetSplits(a + b, [span], c);
      InSetSplits(a, b, c);
    }
  }

  method SortByLow(spans: seq<Interval>) returns (r: seq<Interval>)
    requires Proper(spans)
    ensures SortedByLow(r) && Proper(r) && SameMembers(r, spans)
  {
    r := [];
    for i := 0 to |spans|
      invariant SortedByLow(r) && Proper(r) && SameMembers(r, spans[..i])
    {
      ghost var before := r;
      r := InsertByLow(r, spans[i]);
      InSetAppend(before, spans[i]);
      InSetAppend(spans[..i], spans[i]);
      assert spans[..i + 1] == spans[..i] + [spans[i]];
    }
    assert spans[..|spans|] == spans;
  }

  /** Normalising keeps the members and leaves separated ascending spans. */
  method Normalized(spans: seq<Interval>) returns (result: seq<Interval>)
    requires Proper(spans)
    ensures Proper(result) && Separated(result) && SameMembers(result, spans)
  {
    var sorted := SortByLow(spans);
    result := [];
    for i := 0 to |sorted|
      invariant Proper(result) && Separated(result) && SameMembers(result, sorted[..i])
      invariant i > 0 ==> result != []
      invariant result != [] && i < |sorted| ==> result[|result| - 1].lo <= sorted[i].lo
    {
      var span := sorted[i];
      assert sorted[..i + 1] == sorted[..i] + [span];
      InSetAppend(sorted[..i], span);
      if |result| > 0 && span.lo <= result[|result| - 1].hi + 1 {
        var last := result[|result| - 1];
        var rest := result[..|result| - 1];
        assert result == rest + [last];
        InSetAppend(rest, last);
        if span.hi > last.hi {
          InSetAppend(rest, Interval(last.lo, span.hi));
          result := rest + [Interval(last.lo, span.hi)];
        }
      } else {
        InSetAppend(result, span);
        result := result + [span];
      }
    }
    assert sorted[..|sorted|] == sorted;
  }

  // Everything below next has been decided.
  ghost predicate Decided(result: seq<Interval>, done: seq<Interval>, next: int) {
    && Proper(result) && Separated(result) && 0 <= next <= MAX_RUNE + 1
    && (forall j :: 0 <= j < |result| ==> result[j].hi < next)
    && (result != [] ==> done != [] && result[|result| - 1].hi + 1 < next)
    && (forall c: int :: InSet(done, c) ==> c < next)
    && (forall c: int :: InSet(result, c) <==> 0 <= c < next && !InSet(done, c))
  }

  method Beyond(result: seq<Interval>, done: seq<Interval>, next: int, span: Interval)
    returns (r: seq<Interval>)
    requires Decided(result, done, next) && Proper([span]) && next <= span.lo && (done != [] ==> next < span.lo)
    ensures Decided(r, done + [span], span.hi + 1)
  {
    assert [span][0] == span;
    InSetAppend(done, span);
    r := result;
    if next < span.lo {
      InSetAppend(result, Interval(next, span.lo - 1));
      r := result + [Interval(next, span.lo - 1)];
    }
  }

  /** The complement holds exactly the code points the class does not. */
  method Complement(spans: seq<Interval>) returns (result: seq<Interval>)
    requires Proper(spans)
    ensures Proper(result) && Separated(result)
    ensures forall c: int :: InSet(result, c) <==> 0 <= c <= MAX_RUNE && !InSet(spans, c)
  {
    var normal := Normalized(spans);
    result := [];
    var next := 0;
    for i := 0 to |normal|
      invariant next == if i == 0 then 0 else normal[i - 1].hi + 1
      invariant Decided(result, normal[..i], next)
    {
      assert normal[..i + 1] == normal[..i] + [normal[i]];
      assert i > 0 ==> next < normal[i].lo;
      result := Beyond(result, normal[..i], next, normal[i]);
      next := normal[i].hi + 1;
    }
    assert normal[..|normal|] == normal;
    if next <= MAX_RUNE {
      InSetAppend(result, Interval(next, MAX_RUNE));
      result := result + [Interval(next, MAX_RUNE)];
    }
  }
}

/**
 Repetition bounds as the parser reads them: decimal texts of any length, compared
 without arithmetic and then clamped to 64 bits.
 */
module PatternBounds {
  import opened DecimalText
  import opened PatternWalks
  import opened PatternTree
  import opened Wrappers

  // A lower bound's canonical spelling.
  function Decimal(text: string): string {
    var stripped := StripZeros(text);
    if stripped == "" then "0" else stripped
  }

  // Go's string order, used only on texts of equal length.
  predicate Before(a: string, b: string)
  {
    b != "" && (a == "" || a[0] < b[0] || (a[0] == b[0] && Before(a[1..], b[1..])))
  }

  predicate Reversed(lower: string, upper: string) {
    |upper| < |lower| || (|upper| == |lower| && Before(upper, lower))
  }

  lemma StrippingKeepsValue(text: string)
    requires AllDigits(text)
    ensures AllDigits(Decimal(text)) && Value(Decimal(text)) == Value(text)
  {
    StrippingKeepsDigits(text);
    ValueOfOne('0');
  }

  // Leading digits decide, whatever remainders below one unit follow.
  lemma {:induction false} LeadingDigitDecides(a: nat, b: nat, unit: nat, restA: nat, restB: nat)
    requires a < b && restA < unit
    ensures a * unit + restA < b * unit + restB
  {
    assert (a + 1) * unit <= b * unit;
  }

  lemma {:induction false} BeforeIsLess(a: string, b: string)
    requires AllDigits(a) && AllDigits(b) && |a| == |b|
    ensures Before(a, b) <==> Value(a) < Value(b)
  {
    if a != "" {
      ValueFromFirst(a);
      ValueFromFirst(b);
      var unit, restA, restB := Power10(|a| - 1), Value(a[1..]), Value(b[1..]);
      ValueBelowPower(a[1..]);
      ValueBelowPower(b[1..]);
      BeforeIsLess(a[1..], b[1..]);
      if a[0] < b[0] {
        LeadingDigitDecides(Digit(a[0]), Digit(b[0]), unit, restA, restB);
      } else if b[0] < a[0] {
        LeadingDigitDecides(Digit(b[0]), Digit(a[0]), unit, restB, restA);
      }
    }
  }

  lemma AtLeastOneUnit(a: nat, unit: nat)
    requires a > 0
    ensures a * unit >= unit
  {
  }

  lemma ShorterIsLess(a: string, b: string)
    requires AllDigits(a) && AllDigits(b) && |a| < |b| && b[0] != '0'
    ensures Value(a) < Value(b)
  {
    ValueBelowPower(a);
    PowerGrows(|a|, |b| - 1);
    ValueFromFirst(b);
    AtLeastOneUnit(Digit(b[0]), Power10(|b| - 1));
  }

  /** The comparison of stripped texts refuses exactly the numerically reversed bounds. */
  lemma ReversedIsNumeric(lower: string, upper: string)
    requires AllDigits(lower) && AllDigits(upper)
    ensures Reversed(Decimal(lower), Decimal(upper)) <==> Value(upper) < Value(lower)
  {
    StrippingKeepsValue(lower);
    StrippingKeepsValue(upper);
    var l, u := Decimal(lower), Decimal(upper);
    if |u| == |l| {
      BeforeIsLess(u, l);
    } else if |u| < |l| {
      ShorterIsLess(u, l);
    } else {
      ShorterIsLess(l, u);
    }
  }

  // strconv.ParseUint(text, 10, 64) with its range error ignored.
  function ParseUint(text: string): uint64
    requires AllDigits(text)
  {
    Saturated(Value(text), MAX_UINT64)
  }

  /** Clamping the declared bounds to 64 bits changes no answer on any Go string. */
  lemma ClampingIsExact(child: Node, input: seq<int>, lower: string, upper: string, unlimited: bool, s: nat)
    requires |input| <= MAX_INT && s <= |input| && AllDigits(lower) && AllDigits(upper)
    requires unlimited || Value(lower) <= Value(upper)
    ensures RepeatMatcher(StepOf(child, input), |input|, ParseUint(lower), ParseUint(upper), unlimited, s)
         == RepeatMatcher(StepOf(child, input), |input|, Value(lower), Value(upper), unlimited, s)
  {
    var f, last, lo, hi := StepOf(child, input), |input|, Value(lower), Value(upper);
    forall e: nat
      ensures e in RepeatMatcher(f, last, ParseUint(lower), ParseUint(upper), unlimited, s) <==>
              e in RepeatMatcher(f, last, lo, hi, unlimited, s)
    {
      SaturationIsExact(f, last, lo, hi, unlimited, s, MAX_UINT64, e);
      RepeatMatcherIsCounted(f, last, lo, hi, unlimited, s, e);
      RepeatMatcherIsCounted(f, last, ParseUint(lower), ParseUint(upper), unlimited, s, e);
    }
  }

  // ---- The quantifier after an atom.

  datatype Quantifier =
    | Absent
    | Bounds(min: uint64, max: uint64, unlimited: bool)
    | Refused(reversed: bool)

  // What a counted quantifier may look like, with the texts of its bounds.
  ghost predicate Spells(text: string, lower: string, upper: string, unlimited: bool) {
    && lower != "" && AllDigits(lower) && AllDigits(upper)
    && if unlimited then text == "{" + lower + ",}" && upper == lower
       else (text == "{" + lower + "}" && upper == lower) || (text == "{" + lower + "," + upper + "}" && upper != "")
  }

  // A counted quantifier stands at a position.
  ghost predicate Quantified(source: string, pos: nat)
    requires pos <= |source|
  {
    exists end, lower, upper, unlimited :: pos <= end <= |source| && Spells(source[pos..end], lower, upper, unlimited)
  }

  // A run of digits ends where the first other character stands.
  predicate RunEnds(source: string, from: nat, end: nat) {
    from <= end <= |source| && (forall i :: from <= i < end ==> IsDigit(source[i]))
      && (end < |source| ==> !IsDigit(source[end]))
  }

  lemma RunEndsOnce(source: string, from: nat, a: nat, b: nat)
    requires RunEnds(source, from, a) && RunEnds(source, from, b)
    ensures a == b
  {
  }

  // Where the bounds of a counted quantifier end.
  ghost predicate BoundsEnd(source: string, pos: nat, lowerEnd: nat, upperEnd: nat) {
    && pos + 1 < lowerEnd < |source| && RunEnds(source, pos + 1, lowerEnd)
    && if source[lowerEnd] == ','
       then lowerEnd + 1 <= upperEnd < |source| && RunEnds(source, lowerEnd + 1, upperEnd) && source[upperEnd] == '}'
       else upperEnd == lowerEnd && source[upperEnd] == '}'
  }

  lemma SlicesRead(source: string, pos: nat, end: nat, text: string)
    requires pos <= end <= |source| && source[pos..end] == text
    ensures |text| == end - pos && forall i :: 0 <= i < |text| ==> source[pos + i] == text[i]
  {
    forall i | 0 <= i < |text| ensures source[pos + i] == text[i] { assert source[pos..end][i] == source[pos + i]; }
  }

  lemma QuantifierReads(source: string, pos: nat) returns (lowerEnd: nat, upperEnd: nat)
    requires pos <= |source| && Quantified(source, pos)
    ensures BoundsEnd(source, pos, lowerEnd, upperEnd)
  {
    var end, lower, upper, unlimited :| pos <= end <= |source| && Spells(source[pos..end], lower, upper, unlimited);
    var text := source[pos..end];
    SlicesRead(source, pos, end, text);
    lowerEnd := pos + 1 + |lower|;
    if text == "{" + lower + "}" {
      upperEnd := lowerEnd;
      OneBoundReads(source, pos, lower);
    } else {
      var second := if unlimited then "" else upper;
      upperEnd := lowerEnd + 1 + |second|;
      TwoBoundsRead(source, pos, lower, second);
    }
  }

  lemma OneBoundReads(source: string, pos: nat, lower: string)
    requires var text := "{" + lower + "}"; pos + |text| <= |source| && forall i :: 0 <= i < |text| ==>
             source[pos + i] == text[i]
    requires lower != "" && AllDigits(lower)
    ensures BoundsEnd(source, pos, pos + 1 + |lower|, pos + 1 + |lower|)
  {
    var text := "{" + lower + "}";
    forall i | pos + 1 <= i < pos + 1 + |lower| ensures IsDigit(source[i]) {
      assert source[pos + (i - pos)] == text[i - pos] == lower[i - pos - 1];
    }
    assert source[pos + (|lower| + 1)] == text[|lower| + 1] == '}';
  }

  lemma TwoBoundsRead(source: string, pos: nat, lower: string, upper: string)
    requires var text := "{" + lower + "," + upper + "}"; pos + |text| <= |source| && forall i :: 0 <= i < |text| ==>
             source[pos + i] == text[i]
    requires lower != "" && AllDigits(lower) && AllDigits(upper)
    ensures BoundsEnd(source, pos, pos + 1 + |lower|, pos + 2 + |lower| + |upper|)
  {
    var n, text := |lower|, "{" + lower + "," + upper + "}";
    forall i | pos + 1 <= i < pos + 1 + n ensures IsDigit(source[i]) {
      assert source[pos + (i - pos)] == text[i - pos] == lower[i - pos - 1];
    }
    forall i | pos + 2 + n <= i < pos + 2 + n + |upper| ensures IsDigit(source[i]) {
      assert source[pos + (i - pos)] == text[i - pos] == upper[i - pos - 2 - n];
    }
    assert source[pos + (n + 1)] == text[n + 1] == ',';
    assert source[pos + (n + 2 + |upper|)] == text[n + 2 + |upper|] == '}';
  }

  lemma Framed(source: string, from: nat, end: nat)
    requires from < end < |source|
    ensures source[from..end + 1] == [source[from]] + source[from + 1..end] + [source[end]]
  {
  }

  // And back: such bounds spell a quantifier.
  lemma BoundsSpell(source: string, pos: nat, lowerEnd: nat, upperEnd: nat)
    requires pos < |source| && source[pos] == '{' && BoundsEnd(source, pos, lowerEnd, upperEnd)
    ensures Spells(source[pos..upperEnd + 1], source[pos + 1..lowerEnd], UpperText(source, pos, lowerEnd, upperEnd),
            Unlimited(source, lowerEnd, upperEnd))
  {
    var lower := source[pos + 1..lowerEnd];
    if source[lowerEnd] == ',' {
      var second := source[lowerEnd + 1..upperEnd];
      Framed(source, pos, lowerEnd);
      assert source[pos..upperEnd + 1] == source[pos..lowerEnd + 1] + source[lowerEnd + 1..upperEnd + 1];
      assert source[lowerEnd + 1..upperEnd + 1] == second + [source[upperEnd]];
      if second == "" { assert "{" + lower + "," + "" + "}" == "{" + lower + ",}"; }
    } else {
      Framed(source, pos, lowerEnd);
    }
  }

  predicate Unlimited(source: string, lowerEnd: nat, upperEnd: nat) { upperEnd == lowerEnd + 1 }

  function UpperText(source: string, pos: nat, lowerEnd: nat, upperEnd: nat): string
    requires pos < lowerEnd <= upperEnd <= |source|
  {
    if upperEnd <= lowerEnd + 1 then source[pos + 1..lowerEnd] else source[lowerEnd + 1..upperEnd]
  }

  method Digits(source: string, pos: nat) returns (end: nat)
    requires pos <= |source|
    ensures RunEnds(source, pos, end)
  {
    end := pos;
    while end < |source| && IsDigit(source[end])
      invariant pos <= end <= |source| && forall i :: pos <= i < end ==> IsDigit(source[i])
    {
      end := end + 1;
    }
  }

  /** Reads what may follow an atom. An accepted counted quantifier carries the clamped
      values of bounds in order; it is refused as reversed exactly when they are not. */
  method ParseQuantifier(source: string, pos: nat) returns (q: Quantifier, next: nat)
    requires pos < |source|
    ensures pos <= next <= |source|
    ensures q.Absent? <==> source[pos] !in "*+?{"
    ensures source[pos] != '{' ==> next == if q.Absent? then pos else pos + 1
    ensures source[pos] == '*' ==> q == Bounds(0, 1, true)
    ensures source[pos] == '+' ==> q == Bounds(1, 1, true)
    ensures source[pos] == '?' ==> q == Bounds(0, 1, false)
    ensures source[pos] == '{' && q.Bounds? ==> exists lower, upper ::
              Spells(source[pos..next], lower, upper, q.unlimited) &&
              q.min == ParseUint(lower) && q.max == ParseUint(upper) &&
              (q.unlimited || Value(lower) <= Value(upper))
    ensures q.Refused? && q.reversed ==> exists lower, upper ::
              Spells(source[pos..next], lower, upper, false) && Value(upper) < Value(lower)
    ensures q.Refused? && !q.reversed ==> source[pos] == '{' && !Quantified(source, pos)
    ensures q.Bounds? && !q.unlimited ==> q.min <= q.max
  {
    next := pos + 1;
    match source[pos] {
      case '*' => return Bounds(0, 1, true), next;
      case '+' => return Bounds(1, 1, true), next;
      case '?' => return Bounds(0, 1, false), next;
      case '{' =>
      case _ => return Absent, pos;
    }
    q, next := ParseCounted(source, pos);
  }

  method ParseCounted(source: string, pos: nat) returns (q: Quantifier, next: nat)
    requires pos < |source| && source[pos] == '{'
    ensures pos <= next <= |source| && !q.Absent?
    ensures q.Bounds? ==> exists lower, upper ::
              Spells(source[pos..next], lower, upper, q.unlimited) &&
              q.min == ParseUint(lower) && q.max == ParseUint(upper) &&
              (q.unlimited || Value(lower) <= Value(upper))
    ensures q.Bounds? && !q.unlimited ==> q.min <= q.max
    ensures q.Refused? && q.reversed ==> exists lower, upper ::
              Spells(source[pos..next], lower, upper, false) && Value(upper) < Value(lower)
    ensures q.Refused? && !q.reversed ==> !Quantified(source, pos)
  {
    var ok, lowerEnd, upperEnd := ScanBounds(source, pos);
    if !ok { return Refused(false), upperEnd; }
    BoundsSpell(source, pos, lowerEnd, upperEnd);
    ghost var lowerText, upperText := source[pos + 1..lowerEnd], UpperText(source, pos, lowerEnd, upperEnd);
    var lower, unlimited := Decimal(source[pos + 1..lowerEnd]), false;
    var upper := lower;
    if lowerEnd < upperEnd {
      unlimited := upperEnd == lowerEnd + 1;
      if !unlimited { upper := Decimal(source[lowerEnd + 1..upperEnd]); }
    }
    next := upperEnd + 1;
    q := Compare(lower, upper, unlimited, lowerText, upperText);
  }

  // Where the bounds end, and whether they end as they should.
  method ScanBounds(source: string, pos: nat) returns (ok: bool, lowerEnd: nat, upperEnd: nat)
    requires pos < |source| && source[pos] == '{'
    ensures pos <= upperEnd <= |source|
    ensures if ok then BoundsEnd(source, pos, lowerEnd, upperEnd) else !Quantified(source, pos)
  {
    ghost var x, y := 0, 0;
    if Quantified(source, pos) { x, y := QuantifierReads(source, pos); }
    lowerEnd := Digits(source, pos + 1);
    if Quantified(source, pos) { RunEndsOnce(source, pos + 1, lowerEnd, x); }
    upperEnd := lowerEnd;
    ok := false;
    if lowerEnd > pos + 1 {
      if lowerEnd < |source| && source[lowerEnd] == ',' {
        upperEnd := Digits(source, lowerEnd + 1);
        if Quantified(source, pos) { RunEndsOnce(source, lowerEnd + 1, upperEnd, y); }
      }
      ok := upperEnd < |source| && source[upperEnd] == '}';
    }
  }

  method Compare(lower: string, upper: string, unlimited: bool, ghost lowerText: string, ghost upperText: string)
    returns (q: Quantifier)
    requires AllDigits(lowerText) && AllDigits(upperText)
    requires lower == Decimal(lowerText) && upper == Decimal(upperText)
    ensures q == if !unlimited && Value(upperText) < Value(lowerText) then Refused(true)
                 else Bounds(ParseUint(lowerText), ParseUint(upperText), unlimited)
  {
    ReversedIsNumeric(lowerText, upperText);
    StrippingKeepsValue(lowerText);
    StrippingKeepsValue(upperText);
    if !unlimited && (|upper| < |lower| || (|upper| == |lower| && Before(upper, lower))) {
      return Refused(true);
    }
    return Bounds(ParseUint(lower), ParseUint(upper), unlimited);
  }
}
